/**
 The dashboard's counters, read across the tables that enrolment, lessons and submissions write.

 Tables are sequences of rows; a query's result is the sequence of rows it returns.
 */
module Dashboard {
  import opened Prelude

  datatype Status = Active | Completed | Cancelled

  datatype Enrollment = Enrollment(course: int, user: int, status: Status)
  datatype Progress = Progress(lesson: int, user: int, completed: bool, position: nat)
  datatype Assignment = Assignment(id: int, course: int, published: bool, deleted: bool)
  datatype Submission = Submission(id: int, assignment: int, user: int)

  datatype Tables = Tables(enrollments: seq<Enrollment>, progress: seq<Progress>,
                           assignments: seq<Assignment>, submissions: seq<Submission>)

  datatype Counters = Counters(enrolled: nat, completedLessons: nat, submissions: nat, pending: nat)

  // ------------------------------------------------------------------ the queries

  function Where<T(!new)>(rows: seq<T>, keep: T -> bool): seq<T> {
    if rows == [] then []
    else Where(rows[..|rows| - 1], keep) + (if keep(rows[|rows| - 1]) then [rows[|rows| - 1]] else [])
  }

  // One assignment's rows of the left outer join: one per matching submission, or one with nothing on the right.
  function JoinOne(a: Assignment, submissions: seq<Submission>, user: int): seq<(Assignment, Option<Submission>)> {
    var mine := Where(submissions, (s: Submission) => s.assignment == a.id && s.user == user);
    if mine == [] then [(a, None)] else seq(|mine|, i requires 0 <= i < |mine| => (a, Some(mine[i])))
  }

  function OuterJoin(assignments: seq<Assignment>, submissions: seq<Submission>, user: int)
    : seq<(Assignment, Option<Submission>)>
  {
    if assignments == [] then []
    else OuterJoin(assignments[..|assignments| - 1], submissions, user)
         + JoinOne(assignments[|assignments| - 1], submissions, user)
  }

  function ActiveCourses(t: Tables, user: int): set<int> {
    set e | e in t.enrollments && e.user == user && e.status == Active :: e.course
  }

  // The WHERE clause: published, in one of the courses, nothing submitted, not deleted.
  function StillOpen(courses: set<int>): ((Assignment, Option<Submission>)) -> bool {
    (r: (Assignment, Option<Submission>)) => r.0.published && r.0.course in courses && r.1.None? && !r.0.deleted
  }

  function PendingRows(t: Tables, user: int): seq<(Assignment, Option<Submission>)> {
    Where(OuterJoin(t.assignments, t.submissions, user), StillOpen(ActiveCourses(t, user)))
  }

  function Joined(user: int): Enrollment -> bool {
    (e: Enrollment) => e.user == user && e.status != Cancelled
  }

  function Done(user: int): Progress -> bool {
    (p: Progress) => p.user == user && p.completed
  }

  function By(user: int): Submission -> bool {
    (s: Submission) => s.user == user
  }

  function ForUser(t: Tables, user: int): Counters {
    Counters(
      |Where(t.enrollments, Joined(user))|,
      |Where(t.progress, Done(user))|,
      |Where(t.submissions, By(user))|,
      |PendingRows(t, user)|)
  }

  // ------------------------------------------------------------------ pending assignments

  predicate Pending(t: Tables, user: int, a: Assignment) {
    && a in t.assignments && a.published && !a.deleted
    && (exists e :: e in t.enrollments && e.user == user && e.course == a.course && e.status == Active)
    && forall s :: s in t.submissions ==> !(s.assignment == a.id && s.user == user)
  }

  // The plain definition: what is published, not deleted, in an active course, and never submitted.
  function PendingSet(t: Tables, user: int): set<Assignment> {
    set a | a in t.assignments && Pending(t, user, a)
  }

  ghost predicate UniqueAssignments(t: Tables) {
    forall i, j :: 0 <= i < j < |t.assignments| ==> t.assignments[i].id != t.assignments[j].id
  }

  lemma {:induction false} WhereMember<T(!new)>(rows: seq<T>, keep: T -> bool, x: T)
    ensures x in Where(rows, keep) <==> x in rows && keep(x)
  {
    if rows != [] {
      WhereMember(rows[..|rows| - 1], keep, x);
      assert rows == rows[..|rows| - 1] + [rows[|rows| - 1]];
    }
  }

  lemma {:induction false} WhereConcat<T(!new)>(a: seq<T>, b: seq<T>, keep: T -> bool)
    ensures Where(a + b, keep) == Where(a, keep) + Where(b, keep)
  {
    if b == [] {
      assert a + b == a;
    } else {
      assert (a + b)[..|a + b| - 1] == a + b[..|b| - 1];
      WhereConcat(a, b[..|b| - 1], keep);
    }
  }

  lemma {:induction false} WhereNone<T(!new)>(rows: seq<T>, keep: T -> bool)
    requires forall x :: x in rows ==> !keep(x)
    ensures Where(rows, keep) == []
  {
    if rows != [] {
      assert rows[|rows| - 1] in rows;
      WhereNone(rows[..|rows| - 1], keep);
    }
  }

  lemma NoMatches(a: Assignment, t: Tables, user: int)
    ensures Where(t.submissions, (s: Submission) => s.assignment == a.id && s.user == user) == []
       <==> forall s :: s in t.submissions ==> !(s.assignment == a.id && s.user == user)
  {
    var keep := (s: Submission) => s.assignment == a.id && s.user == user;
    var mine := Where(t.submissions, keep);
    if mine == [] {
      forall s | s in t.submissions ensures !keep(s) { WhereMember(t.submissions, keep, s); }
    } else {
      WhereMember(t.submissions, keep, mine[0]);
    }
  }

  // The rows of one assignment that survive the filter.
  lemma JoinOneFiltered(a: Assignment, t: Tables, user: int)
    requires a in t.assignments
    ensures Where(JoinOne(a, t.submissions, user), StillOpen(ActiveCourses(t, user)))
         == if Pending(t, user, a) then [(a, None)] else []
  {
    var rows, keep := JoinOne(a, t.submissions, user), StillOpen(ActiveCourses(t, user));
    NoMatches(a, t, user);
    if rows == [(a, None)] {
      assert rows[..0] == [];
    } else {
      WhereNone(rows, keep);
    }
  }

  function PendingAmong(t: Tables, user: int, assignments: seq<Assignment>): set<Assignment> {
    set a | a in assignments && Pending(t, user, a)
  }

  lemma PendingAmongGrows(t: Tables, user: int, n: nat)
    requires n < |t.assignments| && UniqueAssignments(t)
    ensures var a := t.assignments[n];
            |PendingAmong(t, user, t.assignments[..n + 1])|
              == |PendingAmong(t, user, t.assignments[..n])| + (if Pending(t, user, a) then 1 else 0)
  {
    var a := t.assignments[n];
    var before := PendingAmong(t, user, t.assignments[..n]);
    assert t.assignments[..n + 1] == t.assignments[..n] + [a];
    assert PendingAmong(t, user, t.assignments[..n + 1]) == before + (if Pending(t, user, a) then {a} else {});
    assert a !in t.assignments[..n];
  }

  lemma {:induction false} JoinCounts(t: Tables, user: int, n: nat)
    requires n <= |t.assignments| && UniqueAssignments(t)
    ensures |Where(OuterJoin(t.assignments[..n], t.submissions, user), StillOpen(ActiveCourses(t, user)))|
         == |PendingAmong(t, user, t.assignments[..n])|
    decreases n
  {
    if n > 0 {
      var a := t.assignments[n - 1];
      assert t.assignments[..n][..n - 1] == t.assignments[..n - 1];
      JoinCounts(t, user, n - 1);
      WhereConcat(OuterJoin(t.assignments[..n - 1], t.submissions, user), JoinOne(a, t.submissions, user),
                  StillOpen(ActiveCourses(t, user)));
      JoinOneFiltered(a, t, user);
      PendingAmongGrows(t, user, n - 1);
    }
  }

  /** The outer join filtered on a missing submission counts exactly the set of assignments still to be done,
      however many submissions there are. */
  lemma PendingIsAntiJoin(t: Tables, user: int)
    requires UniqueAssignments(t)
    ensures ForUser(t, user).pending == |PendingSet(t, user)|
  {
    assert t.assignments[..|t.assignments|] == t.assignments;
    JoinCounts(t, user, |t.assignments|);
    assert PendingSet(t, user) == PendingAmong(t, user, t.assignments);
  }

  // Which assignments are pending once one more submission exists.
  lemma PendingAfterSubmission(t: Tables, user: int, row: Submission, x: Assignment)
    ensures Pending(t.(submissions := t.submissions + [row]), user, x)
       <==> Pending(t, user, x) && !(row.user == user && row.assignment == x.id)
  {
    var t' := t.(submissions := t.submissions + [row]);
    assert ActiveCourses(t', user) == ActiveCourses(t, user);
    assert row in t'.submissions && forall s :: s in t'.submissions <==> s in t.submissions || s == row;
  }

  lemma SameAssignment(t: Tables, x: Assignment, y: Assignment)
    requires UniqueAssignments(t) && x in t.assignments && y in t.assignments && x.id == y.id
    ensures x == y
  {
  }

  lemma FirstSubmissionRemoves(t: Tables, user: int, a: Assignment, row: Submission)
    requires UniqueAssignments(t) && a in t.assignments && row.assignment == a.id && row.user == user
    ensures PendingSet(t.(submissions := t.submissions + [row]), user) == PendingSet(t, user) - {a}
  {
    var t' := t.(submissions := t.submissions + [row]);
    forall x | x in t.assignments ensures Pending(t', user, x) <==> Pending(t, user, x) && x != a {
      PendingAfterSubmission(t, user, row, x);
      if x.id == a.id { SameAssignment(t, x, a); }
    }
  }

  /** A submission lowers the count by exactly one when it is the first to a pending assignment, and otherwise
      - a resubmission, or an assignment that was not pending - leaves it alone. */
  lemma SubmissionLowersPending(t: Tables, user: int, a: Assignment, id: int)
    requires UniqueAssignments(t) && a in t.assignments
    ensures ForUser(Step(t, Submit(user, a.id, id, true)), user).pending
         == ForUser(t, user).pending - (if Pending(t, user, a) then 1 else 0)
  {
    var row := Submission(id, a.id, user);
    var t' := t.(submissions := t.submissions + [row]);
    assert Step(t, Submit(user, a.id, id, true)) == t';
    PendingIsAntiJoin(t, user);
    PendingIsAntiJoin(t', user);
    OneFewer(t, user, a, row);
  }

  lemma OneFewer(t: Tables, user: int, a: Assignment, row: Submission)
    requires UniqueAssignments(t) && a in t.assignments && row.assignment == a.id && row.user == user
    ensures |PendingSet(t.(submissions := t.submissions + [row]), user)|
         == |PendingSet(t, user)| - (if Pending(t, user, a) then 1 else 0)
  {
    var before := PendingSet(t, user);
    FirstSubmissionRemoves(t, user, a, row);
    if Pending(t, user, a) {
      assert a in before;
    } else {
      assert before - {a} == before;
    }
  }

  /** Submitting by somebody else changes nothing on this user's dashboard. */
  lemma OthersSubmissions(t: Tables, user: int, other: int, assignment: int, id: int)
    requires UniqueAssignments(t) && other != user
    ensures ForUser(Step(t, Submit(other, assignment, id, true)), user) == ForUser(t, user)
  {
    var row := Submission(id, assignment, other);
    var t' := t.(submissions := t.submissions + [row]);
    PendingIsAntiJoin(t, user);
    PendingIsAntiJoin(t', user);
    forall x | x in t.assignments ensures Pending(t', user, x) <==> Pending(t, user, x) {
      PendingAfterSubmission(t, user, row, x);
    }
    assert PendingSet(t', user) == PendingSet(t, user);
    WhereAppend(t.submissions, row, By(user));
  }

  // ------------------------------------------------------------------ the write side

  // `found` is whether the course, lesson or assignment that the request names exists and is open to it.
  datatype Event =
    | Enroll(user: int, course: int, found: bool)
    | CompleteLesson(user: int, lesson: int, position: nat, found: bool)
    | Submit(user: int, assignment: int, id: int, found: bool)

  function FindProgress(rows: seq<Progress>, user: int, lesson: int): (i: Option<nat>)
    ensures i.Some? ==> i.value < |rows| && rows[i.value].user == user && rows[i.value].lesson == lesson
    ensures i.None? ==> forall k :: 0 <= k < |rows| ==> !(rows[k].user == user && rows[k].lesson == lesson)
  {
    FindLast(rows, (row: Progress) => row.user == user && row.lesson == lesson)
  }

  predicate EnrolledIn(rows: seq<Enrollment>, user: int, course: int) {
    exists e :: e in rows && e.user == user && e.course == course && e.status != Cancelled
  }

  function Step(t: Tables, e: Event): Tables {
    if !e.found then t else
    match e
    case Enroll(user, course, _) =>
      if EnrolledIn(t.enrollments, user, course) then t
      else t.(enrollments := t.enrollments + [Enrollment(course, user, Active)])
    case CompleteLesson(user, lesson, position, _) =>
      var i := FindProgress(t.progress, user, lesson);
      if i.None? then t.(progress := t.progress + [Progress(lesson, user, true, position)])
      else t.(progress := t.progress[i.value := t.progress[i.value].(completed := true, position := position)])
    case Submit(user, assignment, id, _) =>
      t.(submissions := t.submissions + [Submission(id, assignment, user)])
  }

  function After(t: Tables, run: seq<Event>): Tables {
    if run == [] then t else Step(After(t, run[..|run| - 1]), run[|run| - 1])
  }

  // The user's own history.
  function CoursesJoined(run: seq<Event>, user: int): set<int> {
    set e | e in run && e.Enroll? && e.found && e.user == user :: e.course
  }

  function LessonsCompleted(run: seq<Event>, user: int): set<int> {
    set e | e in run && e.CompleteLesson? && e.found && e.user == user :: e.lesson
  }

  function TimesSubmitted(run: seq<Event>, user: int): nat {
    if run == [] then 0
    else
      var e := run[|run| - 1];
      TimesSubmitted(run[..|run| - 1], user) + (if e.Submit? && e.found && e.user == user then 1 else 0)
  }

  lemma WhereAppend<T(!new)>(rows: seq<T>, x: T, keep: T -> bool)
    ensures Where(rows + [x], keep) == Where(rows, keep) + (if keep(x) then [x] else [])
  {
    assert (rows + [x])[..|rows|] == rows;
  }

  lemma {:induction false} WhereUpdate<T(!new)>(rows: seq<T>, i: nat, x: T, keep: T -> bool)
    requires i < |rows| && keep(rows[i]) == keep(x)
    ensures |Where(rows[i := x], keep)| == |Where(rows, keep)|
  {
    var n := |rows| - 1;
    if i < n {
      assert rows[i := x][..n] == rows[..n][i := x];
      WhereUpdate(rows[..n], i, x, keep);
    } else {
      assert rows[i := x][..n] == rows[..n];
    }
  }

  // Each table knows what each user did, and its counter counts it.
  ghost predicate EnrollmentsCounted(rows: seq<Enrollment>, courses: set<int>, user: int) {
    && (forall c :: EnrolledIn(rows, user, c) <==> c in courses)
    && |Where(rows, Joined(user))| == |courses|
  }

  ghost predicate ProgressCounted(rows: seq<Progress>, lessons: set<int>, user: int) {
    && (forall i :: 0 <= i < |rows| ==> rows[i].completed)
    && (forall l :: FindProgress(rows, user, l).Some? <==> l in lessons)
    && |Where(rows, Done(user))| == |lessons|
  }

  ghost predicate Counted(t: Tables, run: seq<Event>, user: int) {
    && EnrollmentsCounted(t.enrollments, CoursesJoined(run, user), user)
    && ProgressCounted(t.progress, LessonsCompleted(run, user), user)
    && |Where(t.submissions, By(user))| == TimesSubmitted(run, user)
  }

  lemma HistoryGrows(run: seq<Event>, e: Event, user: int)
    ensures CoursesJoined(run + [e], user)
         == CoursesJoined(run, user) + (if e.Enroll? && e.found && e.user == user then {e.course} else {})
    ensures LessonsCompleted(run + [e], user)
         == LessonsCompleted(run, user) + (if e.CompleteLesson? && e.found && e.user == user then {e.lesson} else {})
  {
  }

  lemma EnrolledAfter(rows: seq<Enrollment>, row: Enrollment, user: int, c: int)
    ensures EnrolledIn(rows + [row], user, c) <==>
              (EnrolledIn(rows, user, c) || (row.user == user && row.course == c && row.status != Cancelled))
  {
    assert row in rows + [row];
    if EnrolledIn(rows, user, c) {
      var e :| e in rows && e.user == user && e.course == c && e.status != Cancelled;
      assert e in rows + [row];
    }
  }

  lemma EnrollCounted(t: Tables, courses: set<int>, e: Event, user: int)
    requires EnrollmentsCounted(t.enrollments, courses, user) && e.Enroll? && e.found
    ensures EnrollmentsCounted(Step(t, e).enrollments, courses + (if e.user == user then {e.course} else {}), user)
  {
    if EnrolledIn(t.enrollments, e.user, e.course) {
      if e.user == user { assert courses + {e.course} == courses; }
    } else {
      var row := Enrollment(e.course, e.user, Active);
      WhereAppend(t.enrollments, row, Joined(user));
      forall c { EnrolledAfter(t.enrollments, row, user, c); }
      if e.user == user { assert e.course !in courses; } else { assert courses + {} == courses; }
    }
  }

  lemma FoundAfterAppend(rows: seq<Progress>, row: Progress, user: int, l: int)
    ensures FindProgress(rows + [row], user, l).Some? <==>
              (FindProgress(rows, user, l).Some? || (row.user == user && row.lesson == l))
  {
    assert (rows + [row])[..|rows|] == rows;
  }

  lemma FoundAfterUpdate(rows: seq<Progress>, i: nat, row: Progress, user: int, l: int)
    requires i < |rows| && row.user == rows[i].user && row.lesson == rows[i].lesson
    ensures FindProgress(rows[i := row], user, l) == FindProgress(rows, user, l)
  {
    FindLastAlike(rows, rows[i := row], (p: Progress) => p.user == user && p.lesson == l);
  }

  lemma FirstCompletion(rows: seq<Progress>, lessons: set<int>, row: Progress, user: int)
    requires ProgressCounted(rows, lessons, user) && row.completed && FindProgress(rows, row.user, row.lesson).None?
    ensures ProgressCounted(rows + [row], lessons + (if row.user == user then {row.lesson} else {}), user)
  {
    WhereAppend(rows, row, Done(user));
    forall l { FoundAfterAppend(rows, row, user, l); }
  }

  lemma LaterCompletion(rows: seq<Progress>, lessons: set<int>, i: nat, row: Progress, user: int)
    requires ProgressCounted(rows, lessons, user) && i < |rows| && row.completed
    requires row.user == rows[i].user && row.lesson == rows[i].lesson
    ensures ProgressCounted(rows[i := row], lessons, user)
  {
    WhereUpdate(rows, i, row, Done(user));
    forall l { FoundAfterUpdate(rows, i, row, user, l); }
  }

  lemma CompleteCounted(t: Tables, lessons: set<int>, e: Event, user: int)
    requires ProgressCounted(t.progress, lessons, user) && e.CompleteLesson? && e.found
    ensures ProgressCounted(Step(t, e).progress, lessons + (if e.user == user then {e.lesson} else {}), user)
  {
    var i := FindProgress(t.progress, e.user, e.lesson);
    if i.None? {
      FirstCompletion(t.progress, lessons, Progress(e.lesson, e.user, true, e.position), user);
    } else {
      LaterCompletion(t.progress, lessons, i.value,
                      t.progress[i.value].(completed := true, position := e.position), user);
      if e.user == user { assert lessons + {e.lesson} == lessons; }
    }
  }

  lemma StepCountsEnrollments(t: Tables, run: seq<Event>, e: Event, user: int)
    requires EnrollmentsCounted(t.enrollments, CoursesJoined(run, user), user)
    ensures EnrollmentsCounted(Step(t, e).enrollments, CoursesJoined(run + [e], user), user)
  {
    HistoryGrows(run, e, user);
    if e.Enroll? && e.found {
      EnrollCounted(t, CoursesJoined(run, user), e, user);
    } else {
      assert CoursesJoined(run + [e], user) == CoursesJoined(run, user) && Step(t, e).enrollments == t.enrollments;
    }
  }

  lemma StepCountsProgress(t: Tables, run: seq<Event>, e: Event, user: int)
    requires ProgressCounted(t.progress, LessonsCompleted(run, user), user)
    ensures ProgressCounted(Step(t, e).progress, LessonsCompleted(run + [e], user), user)
  {
    HistoryGrows(run, e, user);
    if e.CompleteLesson? && e.found {
      CompleteCounted(t, LessonsCompleted(run, user), e, user);
    } else {
      assert LessonsCompleted(run + [e], user) == LessonsCompleted(run, user) && Step(t, e).progress == t.progress;
    }
  }

  lemma StepCountsSubmissions(t: Tables, run: seq<Event>, e: Event, user: int)
    requires |Where(t.submissions, By(user))| == TimesSubmitted(run, user)
    ensures |Where(Step(t, e).submissions, By(user))| == TimesSubmitted(run + [e], user)
  {
    assert (run + [e])[..|run|] == run;
    if e.Submit? && e.found {
      WhereAppend(t.submissions, Submission(e.id, e.assignment, e.user), By(user));
    }
  }

  lemma StepCounted(t: Tables, run: seq<Event>, e: Event, user: int)
    requires Counted(t, run, user)
    ensures Counted(Step(t, e), run + [e], user)
  {
    StepCountsEnrollments(t, run, e, user);
    StepCountsProgress(t, run, e, user);
    StepCountsSubmissions(t, run, e, user);
  }

  ghost function Start(assignments: seq<Assignment>): Tables {
    Tables([], [], assignments, [])
  }

  lemma {:induction false} RunCounted(assignments: seq<Assignment>, run: seq<Event>, user: int)
    ensures Counted(After(Start(assignments), run), run, user)
  {
    if run != [] {
      var init, e := run[..|run| - 1], run[|run| - 1];
      RunCounted(assignments, init, user);
      StepCounted(After(Start(assignments), init), init, e, user);
      assert init + [e] == run;
    }
  }

  /** The three other counters are folds of the user's history: distinct courses enrolled in, distinct lessons
      completed - however often each - and the number of submissions. */
  lemma CountersAreFolds(assignments: seq<Assignment>, run: seq<Event>, user: int)
    ensures var c := ForUser(After(Start(assignments), run), user);
            && c.enrolled == |CoursesJoined(run, user)|
            && c.completedLessons == |LessonsCompleted(run, user)|
            && c.submissions == TimesSubmitted(run, user)
  {
    RunCounted(assignments, run, user);
  }

  // ------------------------------------------------------------------ what the counters count

  lemma {:induction false} WhereCounts<T(!new)>(rows: seq<T>, keep: T -> bool, places: set<nat>)
    requires forall i: nat :: i in places <==> i < |rows| && keep(rows[i])
    ensures |Where(rows, keep)| == |places|
  {
    if rows != [] {
      var n := |rows| - 1;
      WhereCounts(rows[..n], keep, places - {n});
    } else {
      assert places == {};
    }
  }

  ghost function EnrolledRows(t: Tables, user: int): set<nat> {
    set i: nat | i < |t.enrollments| && t.enrollments[i].user == user && t.enrollments[i].status != Cancelled
  }

  ghost function CompletedRows(t: Tables, user: int): set<nat> {
    set i: nat | i < |t.progress| && t.progress[i].user == user && t.progress[i].completed
  }

  ghost function SubmittedRows(t: Tables, user: int): set<nat> {
    set i: nat | i < |t.submissions| && t.submissions[i].user == user
  }

  /** Whatever the tables hold: the user's enrolments that are not cancelled, the user's lessons that are completed, and
      the user's submissions. */
  lemma CountersMean(t: Tables, user: int)
    ensures ForUser(t, user).enrolled == |EnrolledRows(t, user)|
    ensures ForUser(t, user).completedLessons == |CompletedRows(t, user)|
    ensures ForUser(t, user).submissions == |SubmittedRows(t, user)|
  {
    WhereCounts(t.enrollments, Joined(user), EnrolledRows(t, user));
    WhereCounts(t.progress, Done(user), CompletedRows(t, user));
    WhereCounts(t.submissions, By(user), SubmittedRows(t, user));
  }

  // ------------------------------------------------------------------ what each request writes

  /** Enrolling adds one active row unless the user already has one for that course that is not cancelled. */
  lemma EnrollEffect(t: Tables, user: int, course: int)
    ensures Step(t, Enroll(user, course, true))
         == if exists e :: e in t.enrollments && e.user == user && e.course == course && e.status != Cancelled then t
            else t.(enrollments := t.enrollments + [Enrollment(course, user, Active)])
  {
  }

  /** Completing a lesson leaves the user's row for it completed at the given position - a new row if there was none -
      and every other row as it was. */
  lemma CompleteEffect(t: Tables, user: int, lesson: int, position: nat)
    ensures var t' := Step(t, CompleteLesson(user, lesson, position, true));
            var row := Progress(lesson, user, true, position);
            && t' == t.(progress := t'.progress)
            && if forall k :: 0 <= k < |t.progress| ==> t.progress[k].user != user || t.progress[k].lesson != lesson
               then t'.progress == t.progress + [row]
               else exists i :: 0 <= i < |t.progress| && t.progress[i].user == user && t.progress[i].lesson == lesson
                      && t'.progress == t.progress[i := row]
  {
    var i := FindProgress(t.progress, user, lesson);
    if i.Some? {
      var row := t.progress[i.value].(completed := true, position := position);
      assert row == Progress(lesson, user, true, position);
    }
  }

  /** A request for a course, lesson or assignment that is not there, or not open, writes nothing. */
  lemma NotFoundEffect(t: Tables, e: Event)
    requires !e.found
    ensures Step(t, e) == t
  {
  }

  // ------------------------------------------------------------------ pending, from the history

  // The user joined the assignment's course and never submitted to it.
  ghost predicate ToDo(assignments: seq<Assignment>, run: seq<Event>, user: int, a: Assignment) {
    && a in assignments && a.published && !a.deleted && a.course in CoursesJoined(run, user)
    && forall e :: e in run && e.Submit? && e.found ==> !(e.assignment == a.id && e.user == user)
  }

  ghost predicate RowsFollow(t: Tables, run: seq<Event>, user: int) {
    && (forall e :: e in t.enrollments ==> e.status == Active)
    && (forall s :: s in t.submissions <==>
          exists e :: e in run && e.Submit? && e.found && s == Submission(e.id, e.assignment, e.user))
  }

  lemma {:induction false} RunFollows(assignments: seq<Assignment>, run: seq<Event>, user: int)
    ensures RowsFollow(After(Start(assignments), run), run, user)
    ensures After(Start(assignments), run).assignments == assignments
  {
    if run != [] {
      var init, e := run[..|run| - 1], run[|run| - 1];
      RunFollows(assignments, init, user);
      assert run == init + [e] && forall x :: x in run <==> x in init || x == e;
    }
  }

  /** The pending count, from the user's history alone: the assignments published and not deleted, of the courses the
      user has joined, that the user has never submitted to. */
  lemma PendingFollowsHistory(assignments: seq<Assignment>, run: seq<Event>, user: int)
    requires UniqueAssignments(Start(assignments))
    ensures ForUser(After(Start(assignments), run), user).pending
         == |set a | a in assignments && ToDo(assignments, run, user, a)|
  {
    var t := After(Start(assignments), run);
    RunFollows(assignments, run, user);
    RunCounted(assignments, run, user);
    PendingIsAntiJoin(t, user);
    forall a | a in assignments ensures Pending(t, user, a) <==> ToDo(assignments, run, user, a) {
      assert EnrolledIn(t.enrollments, user, a.course) <==> a.course in CoursesJoined(run, user);
      PendingToDo(t, assignments, run, user, a);
    }
    assert PendingSet(t, user) == set a | a in assignments && ToDo(assignments, run, user, a);
  }

  lemma PendingToDo(t: Tables, assignments: seq<Assignment>, run: seq<Event>, user: int, a: Assignment)
    requires RowsFollow(t, run, user) && t.assignments == assignments && a in assignments
    requires EnrolledIn(t.enrollments, user, a.course) <==> a.course in CoursesJoined(run, user)
    ensures Pending(t, user, a) <==> ToDo(assignments, run, user, a)
  {
    if s :| s in t.submissions && s.assignment == a.id && s.user == user {
      var e :| e in run && e.Submit? && e.found && s == Submission(e.id, e.assignment, e.user);
      assert e.assignment == a.id && e.user == user;
    }
    if e :| e in run && e.Submit? && e.found && e.assignment == a.id && e.user == user {
      assert Submission(e.id, e.assignment, e.user) in t.submissions;
    }
  }

  /** Completing a lesson again leaves one row for it and every counter as it was. */
  lemma CompletingAgain(assignments: seq<Assignment>, run: seq<Event>, user: int, lesson: int, position: nat)
    requires lesson in LessonsCompleted(run, user)
    ensures var t, again := After(Start(assignments), run), CompleteLesson(user, lesson, position, true);
            && |Step(t, again).progress| == |t.progress|
            && ForUser(Step(t, again), user) == ForUser(t, user)
  {
    var t, again := After(Start(assignments), run), CompleteLesson(user, lesson, position, true);
    RunCounted(assignments, run, user);
    StepCounted(t, run, again, user);
    HistoryGrows(run, again, user);
    assert LessonsCompleted(run + [again], user) == LessonsCompleted(run, user);
  }

  /** The learner's records, updated in place. */
  class Records {
    var enrollments: seq<Enrollment>
    var progress: seq<Progress>
    const assignments: seq<Assignment>
    var submissions: seq<Submission>

    ghost function Value(): (t: Tables)
      reads this
    {
      Tables(enrollments, progress, assignments, submissions)
    }

    constructor (assignments: seq<Assignment>)
      ensures Value() == Start(assignments)
    {
      enrollments, progress, submissions := [], [], [];
      this.assignments := assignments;
    }

    /** `complete_lesson`: insert the first time, overwrite afterwards. */
    method Complete(user: int, lesson: int, position: nat, found: bool)
      modifies this
      ensures Value() == Step(old(Value()), CompleteLesson(user, lesson, position, found))
    {
      if !found {
        return;
      }
      var i := FindProgress(progress, user, lesson);
      if i.None? {
        progress := progress + [Progress(lesson, user, true, position)];
      } else {
        var row := progress[i.value];
        row := row.(completed := true);
        row := row.(position := position);
        progress := progress[i.value := row];
      }
    }
  }
}
