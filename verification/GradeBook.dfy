/**
 Submissions and their grades.

 `submissions` and `grades` are tables in insertion order; a submission's id is drawn by the request that makes it.
 Points are hundredths.
 */
module GradeBook {
  import opened Prelude
  import AutoGrade

  datatype Assignment = Assignment(maxPoints: nat, published: bool, deleted: bool, quiz: Option<AutoGrade.Quiz>)

  datatype Status = Submitted | Graded

  datatype Submission = Submission(id: int, assignment: int, user: int, status: Status)

  datatype Grade = Grade(submission: int, points: int, maxPoints: int, isAuto: bool, gradedBy: Option<int>,
                         feedback: Option<string>)

  datatype State = State(assignments: map<int, Assignment>, submissions: seq<Submission>, grades: seq<Grade>)

  // Publishing and soft-deleting an assignment are administration; its maximum and its quiz stay.
  datatype Event =
    | Submit(assignment: int, user: int, answers: AutoGrade.Answers, id: int)
    | GradeManually(submission: int, points: real, feedback: Option<string>, grader: int)
    | Administer(assignment: int, published: bool, deleted: bool)

  datatype Reply = Accepted | Refused(reason: string)

  function FindSubmission(rows: seq<Submission>, id: int): (found: Option<nat>)
    ensures found.Some? ==> found.value < |rows| && rows[found.value].id == id
    ensures found.None? ==> forall i :: 0 <= i < |rows| ==> rows[i].id != id
  {
    FindLast(rows, (row: Submission) => row.id == id)
  }

  // GradeRepository.get_by_submission.
  function FindGrade(rows: seq<Grade>, submission: int): (found: Option<nat>)
    ensures found.Some? ==> found.value < |rows| && rows[found.value].submission == submission
    ensures found.None? ==> forall i :: 0 <= i < |rows| ==> rows[i].submission != submission
  {
    FindLast(rows, (row: Grade) => row.submission == submission)
  }

  // AssignmentRepository.get_or_404 hides soft-deleted assignments.
  predicate Present(s: State, assignment: int) {
    assignment in s.assignments && !s.assignments[assignment].deleted
  }

  // _record_grade for the submission in row i: the first grade is inserted, later ones overwrite it in place.
  function RecordGrade(s: State, i: nat, points: real, max: int,
                       isAuto: bool, grader: Option<int>, feedback: Option<string>): State
    requires i < |s.submissions|
  {
    var id := s.submissions[i].id;
    var g := FindGrade(s.grades, id);
    s.(submissions := s.submissions[i := s.submissions[i].(status := Graded)],
       grades :=
         if g.None? then s.grades + [Grade(id, AutoGrade.Stored(points), max, isAuto, grader, feedback)]
         else
           var was := s.grades[g.value];
           s.grades[g.value := was.(points := AutoGrade.Stored(points), isAuto := isAuto, gradedBy := grader,
                                    feedback := if feedback.Some? then feedback else was.feedback)])
  }

  function SubmitStep(s: State, assignment: int, user: int, answers: AutoGrade.Answers, id: int): (State, Reply) {
    if !Present(s, assignment) then (s, Refused("not found"))
    else if !s.assignments[assignment].published then (s, Refused("not open"))
    else if FindSubmission(s.submissions, id).Some? then (s, Refused("duplicate key"))
    else
      var a := s.assignments[assignment];
      var s1 := s.(submissions := s.submissions + [Submission(id, assignment, user, Submitted)]);
      if a.quiz.None? then (s1, Accepted)
      else (RecordGrade(s1, |s.submissions|, AutoGrade.Score(a.quiz.value, answers, a.maxPoints),
                        a.maxPoints, true, None, None),
            Accepted)
  }

  // Row i graded by hand.
  function GradedByHand(s: State, i: nat, points: real, grader: int, feedback: Option<string>): State
    requires i < |s.submissions| && s.submissions[i].assignment in s.assignments
  {
    RecordGrade(s, i, points, s.assignments[s.submissions[i].assignment].maxPoints, false, Some(grader), feedback)
  }

  function ManualStep(s: State, submission: int, points: real, feedback: Option<string>, grader: int): (State, Reply) {
    var i := FindSubmission(s.submissions, submission);
    if points < 0.0 then (s, Refused("points must not be negative"))
    else if i.None? then (s, Refused("not found"))
    else
      var assignment := s.submissions[i.value].assignment;
      if !Present(s, assignment) then (s, Refused("not found"))
      else if points > s.assignments[assignment].maxPoints as real then (s, Refused("points exceed maximum"))
      else (GradedByHand(s, i.value, points, grader, feedback), Accepted)
  }

  function Step(s: State, e: Event): (State, Reply) {
    match e
    case Submit(assignment, user, answers, id) => SubmitStep(s, assignment, user, answers, id)
    case GradeManually(submission, points, feedback, grader) => ManualStep(s, submission, points, feedback, grader)
    case Administer(a, published, deleted) =>
      if a in s.assignments
      then (s.(assignments := s.assignments[a := s.assignments[a].(published := published, deleted := deleted)]),
            Accepted)
      else (s, Refused("not found"))
  }

  ghost function After(s: State, run: seq<Event>): State
  {
    if run == [] then s else Step(After(s, run[..|run| - 1]), run[|run| - 1]).0
  }

  // ------------------------------------------------------------------ what the history says

  // What a reader of the history knows of one submission: the last points recorded, whether anybody graded it by hand
  // and who did last, and the last feedback anybody gave.
  datatype Memory = Memory(points: Option<int>, byHand: bool, grader: Option<int>, feedback: Option<string>)

  function Remembered(m: Memory, points: real, grader: int, feedback: Option<string>): Memory {
    Memory(Some(AutoGrade.Stored(points)), true, Some(grader), if feedback.Some? then feedback else m.feedback)
  }

  ghost function Recall(s: State, e: Event, submission: int, m: Memory): Memory {
    if Step(s, e).1 != Accepted then m
    else if e.GradeManually? && e.submission == submission then
      Remembered(m, e.points, e.grader, e.feedback)
    else if e.Submit? && e.id == submission && s.assignments[e.assignment].quiz.Some? then
      m.(points := Some(AutoGrade.Stored(
        AutoGrade.Score(s.assignments[e.assignment].quiz.value, e.answers, s.assignments[e.assignment].maxPoints))))
    else m
  }

  ghost function History(s: State, run: seq<Event>, submission: int): Memory {
    if run == [] then Memory(None, false, None, None)
    else Recall(After(s, run[..|run| - 1]), run[|run| - 1], submission, History(s, run[..|run| - 1], submission))
  }

  // ------------------------------------------------------------------ invariant

  ghost predicate Sound(assignments: map<int, Assignment>) {
    forall a :: a in assignments && assignments[a].quiz.Some? ==> AutoGrade.NonNegative(assignments[a].quiz.value)
  }

  ghost function GradeOf(s: State, submission: int): Option<Grade> {
    var g := FindGrade(s.grades, submission);
    if g.Some? then Some(s.grades[g.value]) else None
  }

  ghost predicate UniqueIds(s: State) {
    && (forall i, j :: 0 <= i < j < |s.submissions| ==> s.submissions[i].id != s.submissions[j].id)
    && (forall i, j :: 0 <= i < j < |s.grades| ==> s.grades[i].submission != s.grades[j].submission)
    && (forall i :: 0 <= i < |s.grades| ==> FindSubmission(s.submissions, s.grades[i].submission).Some?)
  }

  // A submission, its grade and its history.
  ghost predicate SubmissionOk(s: State, i: nat, m: Memory)
    requires i < |s.submissions|
  {
    var sub, grade := s.submissions[i], GradeOf(s, s.submissions[i].id);
    && sub.assignment in s.assignments
    && (sub.status == Graded <==> grade.Some?)
    && (grade.Some? <==> m.points.Some?)
    && (grade.None? ==> m == Memory(None, false, None, None))
    && (grade.Some? ==>
          var g, a := grade.value, s.assignments[sub.assignment];
          && Some(g.points) == m.points && 0 <= g.points <= g.maxPoints == a.maxPoints
          && g.isAuto == !m.byHand && (g.isAuto ==> a.quiz.Some?)
          && g.gradedBy == m.grader && g.feedback == m.feedback)
  }

  // The state agrees with what is remembered of each submission, and nothing is of one that does not exist.
  ghost predicate Agrees(s: State, memory: int -> Memory) {
    && Sound(s.assignments)
    && UniqueIds(s)
    && (forall i: nat :: i < |s.submissions| ==> SubmissionOk(s, i, memory(s.submissions[i].id)))
    && (forall id :: FindSubmission(s.submissions, id).None? ==> memory(id) == Memory(None, false, None, None))
  }

  ghost predicate Remembers(s: State, e: Event, memory: int -> Memory, memory': int -> Memory) {
    forall id :: memory'(id) == Recall(s, e, id, memory(id))
  }

  lemma RecordKeepsUnique(s: State, i: nat, points: real, max: int,
                          isAuto: bool, grader: Option<int>, feedback: Option<string>)
    requires UniqueIds(s) && i < |s.submissions|
    ensures UniqueIds(RecordGrade(s, i, points, max, isAuto, grader, feedback))
  {
    var s' := RecordGrade(s, i, points, max, isAuto, grader, feedback);
    forall k | 0 <= k < |s'.grades| ensures FindSubmission(s'.submissions, s'.grades[k].submission).Some? {
      if k < |s.grades| {
        var j := FindSubmission(s.submissions, s.grades[k].submission).value;
        assert s'.submissions[j].id == s'.grades[k].submission;
      } else {
        assert s'.submissions[i].id == s'.grades[k].submission;
      }
    }
  }

  lemma RecordOthers(s: State, i: nat, points: real, max: int,
                     isAuto: bool, grader: Option<int>, feedback: Option<string>, other: int)
    requires UniqueIds(s) && i < |s.submissions| && other != s.submissions[i].id
    ensures GradeOf(RecordGrade(s, i, points, max, isAuto, grader, feedback), other) == GradeOf(s, other)
  {
    var s' := RecordGrade(s, i, points, max, isAuto, grader, feedback);
    RecordKeepsUnique(s, i, points, max, isAuto, grader, feedback);
    var g := FindGrade(s.grades, other);
    if g.Some? { GradeAt(s', other, g.value); }
  }

  // What recording a grade for row i changes, and what it leaves alone.
  lemma RecordEffect(s: State, i: nat, points: real, max: int,
                     isAuto: bool, grader: Option<int>, feedback: Option<string>)
    requires UniqueIds(s) && i < |s.submissions|
    ensures var s' := RecordGrade(s, i, points, max, isAuto, grader, feedback);
            var id := s.submissions[i].id;
            var was := GradeOf(s, id);
            && UniqueIds(s')
            && s'.submissions == s.submissions[i := s.submissions[i].(status := Graded)]
            && (forall other :: other != id ==> GradeOf(s', other) == GradeOf(s, other))
            && GradeOf(s', id) == Some(
                 if was.None? then Grade(id, AutoGrade.Stored(points), max, isAuto, grader, feedback)
                 else was.value.(points := AutoGrade.Stored(points), isAuto := isAuto, gradedBy := grader,
                                 feedback := if feedback.Some? then feedback else was.value.feedback))
  {
    var s' := RecordGrade(s, i, points, max, isAuto, grader, feedback);
    var id := s.submissions[i].id;
    RecordKeepsUnique(s, i, points, max, isAuto, grader, feedback);
    GradeAt(s', id, if FindGrade(s.grades, id).Some? then FindGrade(s.grades, id).value else |s.grades|);
    forall other | other != id ensures GradeOf(s', other) == GradeOf(s, other) {
      RecordOthers(s, i, points, max, isAuto, grader, feedback, other);
    }
  }

  // A submission that kept its row and its grade.
  lemma Untouched(s: State, s': State, i: nat, m: Memory)
    requires i < |s.submissions| && i < |s'.submissions| && s'.submissions[i] == s.submissions[i]
    requires GradeOf(s', s.submissions[i].id) == GradeOf(s, s.submissions[i].id) && s'.assignments == s.assignments
    requires SubmissionOk(s, i, m)
    ensures SubmissionOk(s', i, m)
  {
  }

  // Recording a grade for row i leaves row j as it was.
  lemma RecordLeaves(s: State, i: nat, points: real, max: int,
                     isAuto: bool, grader: Option<int>, feedback: Option<string>, j: nat, m: Memory)
    requires UniqueIds(s) && i < |s.submissions| && j < |s.submissions| && j != i && SubmissionOk(s, j, m)
    ensures SubmissionOk(RecordGrade(s, i, points, max, isAuto, grader, feedback), j, m)
  {
    assert s.submissions[i].id != s.submissions[j].id;
    RecordOthers(s, i, points, max, isAuto, grader, feedback, s.submissions[j].id);
    Untouched(s, RecordGrade(s, i, points, max, isAuto, grader, feedback), j, m);
  }

  lemma GradeAt(s: State, id: int, k: nat)
    requires UniqueIds(s) && k < |s.grades| && s.grades[k].submission == id
    ensures GradeOf(s, id) == Some(s.grades[k])
  {
  }

  lemma AppendKeepsUnique(s: State, row: Submission)
    requires UniqueIds(s) && FindSubmission(s.submissions, row.id).None?
    ensures var s1 := s.(submissions := s.submissions + [row]);
            && UniqueIds(s1) && GradeOf(s1, row.id).None? && (forall id :: GradeOf(s1, id) == GradeOf(s, id))
  {
    var s1 := s.(submissions := s.submissions + [row]);
    forall k | 0 <= k < |s1.grades| ensures FindSubmission(s1.submissions, s1.grades[k].submission).Some? {
      var j := FindSubmission(s.submissions, s.grades[k].submission).value;
      assert s1.submissions[j].id == s1.grades[k].submission;
    }
  }

  // The new row, graded at once when the assignment is a quiz.
  lemma SubmitRow(s: State, e: Event, memory: int -> Memory)
    requires e.Submit? && Agrees(s, memory) && Step(s, e).1 == Accepted
    ensures var s' := Step(s, e).0;
            && |s'.submissions| == |s.submissions| + 1 && s'.submissions[|s.submissions|].id == e.id && UniqueIds(s')
            && SubmissionOk(s', |s.submissions|, Recall(s, e, e.id, memory(e.id)))
  {
    var n, a := |s.submissions|, s.assignments[e.assignment];
    var row := Submission(e.id, e.assignment, e.user, Submitted);
    var s1 := s.(submissions := s.submissions + [row]);
    AppendKeepsUnique(s, row);
    if a.quiz.Some? {
      RecordEffect(s1, n, AutoGrade.Score(a.quiz.value, e.answers, a.maxPoints), a.maxPoints, true, None, None);
      AutoGrade.ScoreWithin(a.quiz.value, e.answers, a.maxPoints);
    }
  }

  // An older row, when the new one is appended.
  lemma AppendOthers(s: State, row: Submission, i: nat, m: Memory)
    requires UniqueIds(s) && FindSubmission(s.submissions, row.id).None?
    requires i < |s.submissions| && SubmissionOk(s, i, m)
    ensures s.submissions[i].id != row.id && SubmissionOk(s.(submissions := s.submissions + [row]), i, m)
  {
    AppendKeepsUnique(s, row);
    Untouched(s, s.(submissions := s.submissions + [row]), i, m);
  }

  lemma SubmitAgrees(s: State, e: Event, memory: int -> Memory, memory': int -> Memory)
    requires e.Submit? && Agrees(s, memory) && Remembers(s, e, memory, memory') && Step(s, e).1 == Accepted
    ensures Agrees(Step(s, e).0, memory')
  {
    var s', n, a := Step(s, e).0, |s.submissions|, s.assignments[e.assignment];
    var row := Submission(e.id, e.assignment, e.user, Submitted);
    SubmitRow(s, e, memory);
    forall i: nat | i < |s'.submissions|
      ensures SubmissionOk(s', i, memory'(s'.submissions[i].id))
      ensures i < n ==> s'.submissions[i] == s.submissions[i]
    {
      if i < n {
        var m := memory(s.submissions[i].id);
        AppendKeepsUnique(s, row);
        AppendOthers(s, row, i, m);
        if a.quiz.Some? {
          RecordLeaves(s.(submissions := s.submissions + [row]), n,
                       AutoGrade.Score(a.quiz.value, e.answers, a.maxPoints), a.maxPoints, true, None, None, i, m);
        }
      }
    }
    forall id | FindSubmission(s'.submissions, id).None? ensures memory'(id) == Memory(None, false, None, None) {
      StaysUnknown(s, s', id);
    }
  }

  lemma StaysUnknown(s: State, s': State, id: int)
    requires |s.submissions| <= |s'.submissions|
    requires forall i :: 0 <= i < |s.submissions| ==> s'.submissions[i].id == s.submissions[i].id
    requires FindSubmission(s'.submissions, id).None?
    ensures FindSubmission(s.submissions, id).None?
  {
    forall i | 0 <= i < |s.submissions| ensures s.submissions[i].id != id {
      assert s.submissions[i].id == s'.submissions[i].id;
    }
  }

  // The graded row itself.
  lemma ManualRow(s: State, i: nat, points: real, grader: int, feedback: Option<string>, m: Memory)
    requires i < |s.submissions| && UniqueIds(s) && SubmissionOk(s, i, m)
    requires 0.0 <= points <= s.assignments[s.submissions[i].assignment].maxPoints as real
    ensures SubmissionOk(GradedByHand(s, i, points, grader, feedback), i, Remembered(m, points, grader, feedback))
  {
    var max := s.assignments[s.submissions[i].assignment].maxPoints;
    RecordEffect(s, i, points, max, false, Some(grader), feedback);
    AutoGrade.StoredWithin(points, max);
  }

  lemma ManualAgrees(s: State, i: nat, points: real, grader: int, feedback: Option<string>,
                     memory: int -> Memory, memory': int -> Memory)
    requires Agrees(s, memory) && i < |s.submissions| && s.submissions[i].assignment in s.assignments
    requires 0.0 <= points <= s.assignments[s.submissions[i].assignment].maxPoints as real
    requires forall id :: memory'(id) == if id == s.submissions[i].id
                                         then Remembered(memory(id), points, grader, feedback) else memory(id)
    ensures Agrees(GradedByHand(s, i, points, grader, feedback), memory')
  {
    var s' := GradedByHand(s, i, points, grader, feedback);
    RecordEffect(s, i, points, s.assignments[s.submissions[i].assignment].maxPoints, false, Some(grader), feedback);
    forall id | FindSubmission(s'.submissions, id).None? ensures memory'(id) == Memory(None, false, None, None) {
      StaysUnknown(s, s', id);
    }
    forall j: nat | j < |s'.submissions| ensures SubmissionOk(s', j, memory'(s'.submissions[j].id)) {
      var m := memory(s.submissions[j].id);
      if j == i {
        ManualRow(s, i, points, grader, feedback, m);
      } else {
        RecordLeaves(s, i, points, s.assignments[s.submissions[i].assignment].maxPoints, false, Some(grader), feedback,
                     j, m);
      }
    }
  }

  // ------------------------------------------------------------------ what is accepted

  // The assignment exists, is not deleted and is open to submissions.
  predicate Open(s: State, assignment: int) {
    && assignment in s.assignments
    && s.assignments[assignment].published && !s.assignments[assignment].deleted
  }

  /** A submission is accepted exactly when its assignment exists, is published and is not deleted, and its id is new.
      It then adds its own row after all others and leaves the assignments alone; a quiz is graded at once, with the
      scaled score, and anything else not at all.  A refused submission changes nothing. */
  lemma SubmitIff(s: State, assignment: int, user: int, answers: AutoGrade.Answers, id: int)
    ensures var (s', r) := Step(s, Submit(assignment, user, answers, id));
            && (r == Accepted <==>
                  Open(s, assignment) && forall i :: 0 <= i < |s.submissions| ==> s.submissions[i].id != id)
            && (r != Accepted ==> s' == s)
            && (r == Accepted ==>
                  var a, n := s.assignments[assignment], |s.submissions|;
                  var row := Submission(id, assignment, user, Submitted);
                  && s'.assignments == s.assignments
                  && s'.submissions == s.submissions + [row.(status := if a.quiz.Some? then Graded else Submitted)]
                  && s' == if a.quiz.None? then s.(submissions := s.submissions + [row])
                           else RecordGrade(s.(submissions := s.submissions + [row]), n,
                                            AutoGrade.Score(a.quiz.value, answers, a.maxPoints), a.maxPoints,
                                            true, None, None))
  {
  }

  /** A grading by hand is accepted exactly when the submission exists, its assignment is not deleted, and the points
      lie between nothing and the assignment's maximum; that submission then has these points, and a refused grading
      changes nothing. */
  lemma GradeManuallyIff(s: State, submission: int, points: real, feedback: Option<string>, grader: int)
    requires UniqueIds(s)
    ensures var (s', r) := Step(s, GradeManually(submission, points, feedback, grader));
            && (r == Accepted <==> exists i: nat :: Gradable(s, submission, points, i))
            && (r != Accepted ==> s' == s)
            && (forall i: nat :: Gradable(s, submission, points, i) ==>
                  s' == RecordGrade(s, i, points, s.assignments[s.submissions[i].assignment].maxPoints,
                                    false, Some(grader), feedback))
  {
    var found := FindSubmission(s.submissions, submission);
    forall i: nat | i < |s.submissions| && s.submissions[i].id == submission ensures found == Some(i) { }
    if Step(s, GradeManually(submission, points, feedback, grader)).1 == Accepted {
      assert Gradable(s, submission, points, found.value);
    }
  }

  // Row i is the submission, and these points may be given for it.
  predicate Gradable(s: State, submission: int, points: real, i: nat) {
    && i < |s.submissions| && s.submissions[i].id == submission
    && s.submissions[i].assignment in s.assignments
    && var a := s.assignments[s.submissions[i].assignment];
    && !a.deleted && 0.0 <= points <= a.maxPoints as real
  }

  /** Administration publishes, hides, deletes or restores one existing assignment, and touches nothing else. */
  lemma AdministerEffect(s: State, a: int, published: bool, deleted: bool)
    ensures var (s', r) := Step(s, Event.Administer(a, published, deleted));
            && (r == Accepted <==> a in s.assignments)
            && s'.submissions == s.submissions && s'.grades == s.grades && s'.assignments.Keys == s.assignments.Keys
            && (forall b :: b in s.assignments && b != a ==> s'.assignments[b] == s.assignments[b])
            && (a in s.assignments ==>
                  s'.assignments[a]
                    == Assignment(s.assignments[a].maxPoints, published, deleted, s.assignments[a].quiz))
  {
  }

  // ------------------------------------------------------------------ every step

  lemma RefusedChangesNothing(s: State, e: Event)
    requires Step(s, e).1 != Accepted
    ensures Step(s, e).0 == s
  {
  }

  lemma SameMemory(s: State, memory: int -> Memory, memory': int -> Memory)
    requires Agrees(s, memory) && forall id :: memory'(id) == memory(id)
    ensures Agrees(s, memory')
  {
  }

  lemma AdministerRow(s: State, e: Event, i: nat, m: Memory)
    requires e.Administer? && i < |s.submissions| && SubmissionOk(s, i, m)
    ensures |Step(s, e).0.submissions| == |s.submissions| && SubmissionOk(Step(s, e).0, i, m)
  {
  }

  lemma AdministerAgrees(s: State, e: Event, memory: int -> Memory)
    requires e.Administer? && Agrees(s, memory)
    ensures Agrees(Step(s, e).0, memory)
  {
    forall i: nat | i < |s.submissions| ensures SubmissionOk(Step(s, e).0, i, memory(s.submissions[i].id)) {
      AdministerRow(s, e, i, memory(s.submissions[i].id));
    }
  }

  lemma StepAgrees(s: State, e: Event, memory: int -> Memory, memory': int -> Memory)
    requires Agrees(s, memory) && Remembers(s, e, memory, memory')
    ensures Agrees(Step(s, e).0, memory')
  {
    if Step(s, e).1 != Accepted {
      RefusedChangesNothing(s, e);
      SameMemory(s, memory, memory');
    } else if e.Administer? {
      AdministerAgrees(s, e, memory);
      SameMemory(Step(s, e).0, memory, memory');
    } else if e.Submit? {
      SubmitAgrees(s, e, memory, memory');
    } else {
      var i := FindSubmission(s.submissions, e.submission).value;
      ManualAgrees(s, i, e.points, e.grader, e.feedback, memory, memory');
    }
  }

  ghost function Start(assignments: map<int, Assignment>): State {
    State(assignments, [], [])
  }

  ghost predicate AgreesWithHistory(s0: State, run: seq<Event>) {
    Agrees(After(s0, run), id => History(s0, run, id))
  }

  /** Over every run of submissions, manual gradings and administration: each submission has at most one grade and is
      marked graded iff it has one; the points are those last recorded for it and lie between nothing and the
      assignment's maximum; a grade is automatic iff nobody graded the submission by hand, so it can only be the first
      one; and its feedback is the last one anybody gave. */
  lemma {:induction false} GradesFollowHistory(assignments: map<int, Assignment>, run: seq<Event>)
    requires Sound(assignments)
    ensures AgreesWithHistory(Start(assignments), run)
  {
    if run != [] {
      var s0, init := Start(assignments), run[..|run| - 1];
      GradesFollowHistory(assignments, init);
      StepAgrees(After(s0, init), run[|run| - 1], id => History(s0, init, id), id => History(s0, run, id));
    }
  }
}
