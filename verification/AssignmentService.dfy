/** The assignment service over its tables, which submissions and gradings update in place. */
module AssignmentService {
  import opened Prelude
  import opened GradeBook
  import AutoGrade

  class Service {
    var assignments: map<int, Assignment>
    var submissions: seq<Submission>
    var grades: seq<Grade>

    ghost function Value(): (s: State)
      reads this
    {
      State(assignments, submissions, grades)
    }

    constructor (assignments: map<int, Assignment>)
      ensures Value() == Start(assignments)
    {
      this.assignments, submissions, grades := assignments, [], [];
    }

    method Record(i: nat, points: real, max: int, isAuto: bool, grader: Option<int>, feedback: Option<string>)
      requires i < |submissions|
      modifies this
      ensures Value() == RecordGrade(old(Value()), i, points, max, isAuto, grader, feedback)
    {
      var id := submissions[i].id;
      var g := FindGrade(grades, id);
      if g.None? {
        grades := grades + [Grade(id, AutoGrade.Stored(points), max, isAuto, grader, feedback)];
      } else {
        var grade := grades[g.value];
        grade := grade.(points := AutoGrade.Stored(points));
        if feedback.Some? {
          grade := grade.(feedback := feedback);
        }
        grade := grade.(isAuto := isAuto, gradedBy := grader);
        grades := grades[g.value := grade];
      }
      submissions := submissions[i := submissions[i].(status := Graded)];
    }

    method Submit(assignment: int, user: int, answers: AutoGrade.Answers, id: int) returns (r: Reply)
      modifies this
      ensures (Value(), r) == Step(old(Value()), Event.Submit(assignment, user, answers, id))
    {
      if !(assignment in assignments && !assignments[assignment].deleted) {
        return Refused("not found");
      }
      var a := assignments[assignment];
      if !a.published {
        return Refused("not open");
      }
      if FindSubmission(submissions, id).Some? {
        return Refused("duplicate key");
      }
      submissions := submissions + [Submission(id, assignment, user, Submitted)];
      if a.quiz.Some? {
        var scaled := AutoGrade.Grade(a.quiz.value, answers, a.maxPoints);
        Record(|submissions| - 1, scaled, a.maxPoints, true, None, None);
      }
      r := Accepted;
    }

    method GradeSubmission(submission: int, points: real, feedback: Option<string>, grader: int) returns (r: Reply)
      modifies this
      ensures (Value(), r) == Step(old(Value()), GradeManually(submission, points, feedback, grader))
    {
      if points < 0.0 {
        return Refused("points must not be negative");
      }
      var i := FindSubmission(submissions, submission);
      if i.None? {
        return Refused("not found");
      }
      var assignment := submissions[i.value].assignment;
      if !(assignment in assignments && !assignments[assignment].deleted) {
        return Refused("not found");
      }
      if points > assignments[assignment].maxPoints as real {
        return Refused("points exceed maximum");
      }
      Record(i.value, points, assignments[assignment].maxPoints, false, Some(grader), feedback);
      r := Accepted;
    }
  }
}
