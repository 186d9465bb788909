/**
 Enrolling in one course: a counter that each transaction reads, and writes back one higher, beside the row it inserts.

 A transaction reads the course and checks for an enrolment, inserts its row, writes the counter it read plus one,
 and commits; nothing is visible to others before that.  Two constraints of the database shape the interleavings:
 (course, user) is unique, and a row somebody wrote stays locked until that transaction ends.  `overlapped` records
 whether some committed transaction missed another's commit between its read and its own; it decides nothing.
 */
module Enrollment {
  import opened Prelude

  datatype Phase = Read | Inserted | Counted

  datatype Tx = Tx(user: int, seen: int, seenAt: nat, phase: Phase)

  datatype World = World(published: bool, rows: set<int>, count: int,
                         open: map<int, Tx>, commits: nat, overlapped: bool)

  datatype Event =
    | Begin(tx: int, user: int)
    | Insert(tx: int)
    | Count(tx: int)
    | Commit(tx: int)
    | Abort(tx: int)
    | Publish(published: bool)

  // No other open transaction has inserted the same user.
  ghost predicate NoRival(w: World, tx: int, user: int) {
    forall t :: t in w.open && t != tx && w.open[t].phase != Read ==> w.open[t].user != user
  }

  // No other open transaction has written the course row.
  ghost predicate Unlocked(w: World, tx: int) {
    forall t :: t in w.open && t != tx ==> w.open[t].phase != Counted
  }

  // `Begin` is a request that passed the checks: the course is published and the user has no enrolment.
  ghost predicate Enabled(w: World, e: Event) {
    match e
    case Begin(t, user) => t !in w.open && w.published && user !in w.rows
    case Insert(t) => t in w.open && w.open[t].phase == Read
                      && w.open[t].user !in w.rows && NoRival(w, t, w.open[t].user)
    case Count(t) => t in w.open && w.open[t].phase == Inserted && Unlocked(w, t)
    case Commit(t) => t in w.open && w.open[t].phase == Counted
    case Abort(t) => t in w.open
    case Publish(_) => true
  }

  ghost function Step(w: World, e: Event): World
    requires Enabled(w, e)
  {
    match e
    case Begin(t, user) => w.(open := w.open[t := Tx(user, w.count, w.commits, Read)])
    case Insert(t) => w.(open := w.open[t := w.open[t].(phase := Inserted)])
    case Count(t) => w.(open := w.open[t := w.open[t].(phase := Counted)])
    case Commit(t) =>
      w.(open := w.open - {t}, rows := w.rows + {w.open[t].user}, count := w.open[t].seen + 1, commits := w.commits + 1,
         overlapped := w.overlapped || w.open[t].seenAt != w.commits)
    case Abort(t) => w.(open := w.open - {t})
    case Publish(p) => w.(published := p)
  }

  ghost predicate Legal(w: World, run: seq<Event>)
    decreases |run|, 0
  {
    run == [] || (Legal(w, run[..|run| - 1]) && Enabled(After(w, run[..|run| - 1]), run[|run| - 1]))
  }

  ghost function After(w: World, run: seq<Event>): World
    requires Legal(w, run)
    decreases |run|, 1
  {
    if run == [] then w else Step(After(w, run[..|run| - 1]), run[|run| - 1])
  }

  ghost predicate TxOk(w: World, t: int)
    requires t in w.open
  {
    var x := w.open[t];
    && x.seenAt <= w.commits
    && (x.seenAt == w.commits ==> x.seen == w.count)
    && (x.seenAt < w.commits ==> x.seen < |w.rows|)
    && (x.phase != Read ==> x.user !in w.rows && NoRival(w, t, x.user))
  }

  ghost predicate Inv(w: World) {
    && w.count <= |w.rows|
    && (w.count == |w.rows| <==> !w.overlapped)
    && (forall t :: t in w.open ==> TxOk(w, t))
    && (forall t, u :: t in w.open && u in w.open && w.open[t].phase == w.open[u].phase == Counted ==> t == u)
  }

  lemma CommitKeepsInv(w: World, t: int)
    requires Inv(w) && Enabled(w, Commit(t))
    ensures Inv(Step(w, Commit(t)))
  {
    var w' := Step(w, Commit(t));
    assert TxOk(w, t);
    assert |w'.rows| == |w.rows| + 1;
    forall u | u in w'.open ensures TxOk(w', u) {
      assert TxOk(w, u);
    }
  }

  lemma StepKeepsInv(w: World, e: Event)
    requires Inv(w) && Enabled(w, e)
    ensures Inv(Step(w, e))
  {
    if e.Commit? {
      CommitKeepsInv(w, e.tx);
    } else {
      var w' := Step(w, e);
      forall u | u in w'.open ensures TxOk(w', u) {
        if u in w.open { assert TxOk(w, u); }
      }
    }
  }

  ghost function Start(rows: set<int>): World {
    World(true, rows, |rows|, map[], 0, false)
  }

  lemma {:induction false} RunKeepsInv(rows: set<int>, run: seq<Event>)
    requires Legal(Start(rows), run)
    ensures Inv(After(Start(rows), run))
    decreases |run|
  {
    if run != [] {
      RunKeepsInv(rows, run[..|run| - 1]);
      StepKeepsInv(After(Start(rows), run[..|run| - 1]), run[|run| - 1]);
    }
  }

  // ------------------------------------------------------------------ what the runs themselves say

  predicate Ends(e: Event, t: int) {
    e == Commit(t) || e == Abort(t)
  }

  // Transaction t read the counter at position i and is still open at the end of the run.
  ghost predicate OpenedAt(run: seq<Event>, t: int, i: nat) {
    && i < |run| && run[i].Begin? && run[i].tx == t
    && forall m :: i < m < |run| ==> !Ends(run[m], t)
  }

  ghost predicate CommitSince(run: seq<Event>, i: nat) {
    exists k :: i < k < |run| && run[k].Commit?
  }

  // Some transaction committed, at position j, although another had committed since it read the counter.
  ghost predicate Overlap(run: seq<Event>) {
    exists i: nat, j: nat, t ::
      j < |run| && run[j] == Commit(t) && OpenedAt(run[..j], t, i) && CommitSince(run[..j], i)
  }

  function Commits(run: seq<Event>): nat {
    if run == [] then 0 else Commits(run[..|run| - 1]) + (if run[|run| - 1].Commit? then 1 else 0)
  }

  lemma {:induction false} CommitsBetween(run: seq<Event>, i: nat)
    requires i < |run| && !run[i].Commit?
    ensures Commits(run[..i]) <= Commits(run)
    ensures Commits(run[..i]) != Commits(run) <==> CommitSince(run, i)
    decreases |run|
  {
    var init, e := run[..|run| - 1], run[|run| - 1];
    if i < |init| {
      assert init[..i] == run[..i];
      CommitsBetween(init, i);
      if CommitSince(init, i) {
        var k :| i < k < |init| && init[k].Commit?;
        assert run[k].Commit?;
      }
      if CommitSince(run, i) && !e.Commit? {
        var k :| i < k < |run| && run[k].Commit?;
        assert init[k].Commit?;
      }
    } else {
      assert run[..i] == init;
    }
  }

  // The recorded state matches the run.
  ghost predicate Follows(w: World, run: seq<Event>) {
    && w.commits == Commits(run)
    && (forall t :: t in w.open ==> exists i: nat :: OpenedAt(run, t, i))
    && (forall t, i: nat :: OpenedAt(run, t, i) ==> t in w.open && w.open[t].seenAt == Commits(run[..i]))
    && (w.overlapped <==> Overlap(run))
  }

  lemma OpenedAfter(run: seq<Event>, e: Event, t: int, i: nat)
    ensures OpenedAt(run + [e], t, i) <==>
              (if i < |run| then OpenedAt(run, t, i) && !Ends(e, t) else i == |run| && e.Begin? && e.tx == t)
    ensures i <= |run| ==> (run + [e])[..i] == run[..i]
  {
    var next := run + [e];
    if OpenedAt(next, t, i) && i < |run| {
      forall m | i < m < |run| ensures !Ends(run[m], t) { assert next[m] == run[m]; }
      assert !Ends(next[|run|], t);
    }
  }

  lemma OverlapAfter(run: seq<Event>, e: Event)
    ensures Overlap(run + [e]) <==>
              (Overlap(run) || (e.Commit? && exists i: nat :: OpenedAt(run, e.tx, i) && CommitSince(run, i)))
  {
    var next := run + [e];
    forall j: nat | j <= |run| ensures next[..j] == run[..j] { }
    assert run[..|run|] == run;
    if Overlap(run) {
      var i: nat, j: nat, t :| j < |run| && run[j] == Commit(t) && OpenedAt(run[..j], t, i) && CommitSince(run[..j], i);
      assert next[j] == Commit(t) && OpenedAt(next[..j], t, i) && CommitSince(next[..j], i);
    }
    if e.Commit? && exists i: nat :: OpenedAt(run, e.tx, i) && CommitSince(run, i) {
      var i: nat :| OpenedAt(run, e.tx, i) && CommitSince(run, i);
      assert next[|run|] == Commit(e.tx) && OpenedAt(next[..|run|], e.tx, i) && CommitSince(next[..|run|], i);
    }
    if Overlap(next) {
      var i: nat, j: nat, t :|
        j < |next| && next[j] == Commit(t) && OpenedAt(next[..j], t, i) && CommitSince(next[..j], i);
      if j < |run| {
        assert run[j] == Commit(t) && OpenedAt(run[..j], t, i) && CommitSince(run[..j], i);
      }
    }
  }

  lemma SeenWhenOpened(w: World, run: seq<Event>, e: Event, t: int, i: nat)
    requires Follows(w, run) && Enabled(w, e) && OpenedAt(run + [e], t, i)
    ensures t in Step(w, e).open && Step(w, e).open[t].seenAt == Commits((run + [e])[..i])
  {
    OpenedAfter(run, e, t, i);
    if i == |run| { assert run[..i] == run; }
  }

  lemma OpenWasOpened(w: World, run: seq<Event>, e: Event, t: int)
    requires Follows(w, run) && Enabled(w, e) && t in Step(w, e).open
    ensures exists i: nat :: OpenedAt(run + [e], t, i)
  {
    if e.Begin? && e.tx == t {
      OpenedAfter(run, e, t, |run|);
      assert OpenedAt(run + [e], t, |run|);
    } else {
      var i: nat :| OpenedAt(run, t, i);
      OpenedAfter(run, e, t, i);
      assert OpenedAt(run + [e], t, i);
    }
  }

  lemma OverlapRecorded(w: World, run: seq<Event>, e: Event)
    requires Follows(w, run) && Enabled(w, e)
    ensures Step(w, e).overlapped <==> Overlap(run + [e])
  {
    OverlapAfter(run, e);
    if e.Commit? {
      var i: nat :| OpenedAt(run, e.tx, i);
      forall i: nat | OpenedAt(run, e.tx, i)
        ensures CommitSince(run, i) <==> w.open[e.tx].seenAt != w.commits
      {
        CommitsBetween(run, i);
      }
    }
  }

  lemma StepFollows(w: World, run: seq<Event>, e: Event)
    requires Follows(w, run) && Enabled(w, e)
    ensures Follows(Step(w, e), run + [e])
  {
    assert (run + [e])[..|run|] == run;
    forall t, i: nat | OpenedAt(run + [e], t, i)
      ensures t in Step(w, e).open && Step(w, e).open[t].seenAt == Commits((run + [e])[..i])
    {
      SeenWhenOpened(w, run, e, t, i);
    }
    forall t | t in Step(w, e).open ensures exists i: nat :: OpenedAt(run + [e], t, i) {
      OpenWasOpened(w, run, e, t);
    }
    OverlapRecorded(w, run, e);
  }

  lemma {:induction false} RunFollows(rows: set<int>, run: seq<Event>)
    requires Legal(Start(rows), run)
    ensures Follows(After(Start(rows), run), run)
    decreases |run|
  {
    if run != [] {
      var init := run[..|run| - 1];
      RunFollows(rows, init);
      StepFollows(After(Start(rows), init), init, run[|run| - 1]);
      assert init + [run[|run| - 1]] == run;
    }
  }

  /** Under every interleaving the counter never exceeds the number of enrolments, and it equals that number exactly
      when no transaction committed after another one had committed since it read the counter. */
  lemma CounterExactIff(rows: set<int>, run: seq<Event>)
    requires Legal(Start(rows), run)
    ensures var w := After(Start(rows), run);
            && w.count <= |w.rows|
            && (w.count == |w.rows| <==> !Overlap(run))
  {
    RunKeepsInv(rows, run);
    RunFollows(rows, run);
  }

  // Two transactions that both read the counter before either commits, and the states they go through.
  const LOST_UPDATE :=
    [Begin(0, 10), Begin(1, 11), Insert(0), Event.Count(0), Commit(0), Insert(1), Event.Count(1), Commit(1)]
  const FIRST_COMMITS := [World(true, {}, 0, map[0 := Tx(10, 0, 0, Read)], 0, false),
                          World(true, {}, 0, map[0 := Tx(10, 0, 0, Read), 1 := Tx(11, 0, 0, Read)], 0, false),
                          World(true, {}, 0, map[0 := Tx(10, 0, 0, Inserted), 1 := Tx(11, 0, 0, Read)], 0, false),
                          World(true, {}, 0, map[0 := Tx(10, 0, 0, Counted), 1 := Tx(11, 0, 0, Read)], 0, false),
                          World(true, {10}, 1, map[1 := Tx(11, 0, 0, Read)], 1, false)]
  const SECOND_COMMITS := [World(true, {10}, 1, map[1 := Tx(11, 0, 0, Inserted)], 1, false),
                           World(true, {10}, 1, map[1 := Tx(11, 0, 0, Counted)], 1, false),
                           World(true, {10, 11}, 1, map[], 2, true)]

  ghost predicate Reaches(w: World, run: seq<Event>, w': World) {
    Legal(w, run) && After(w, run) == w'
  }

  lemma Extend(w: World, run: seq<Event>, n: nat, before: World, after: World)
    requires n < |run| && Reaches(w, run[..n], before)
    requires Enabled(before, run[n]) && Step(before, run[n]) == after
    ensures Reaches(w, run[..n + 1], after)
  {
    assert run[..n + 1][..n] == run[..n];
  }

  lemma BothRead()
    ensures Reaches(Start({}), LOST_UPDATE[..2], FIRST_COMMITS[1])
  {
    var w := Start({});
    assert LOST_UPDATE[..0] == [] && Reaches(w, LOST_UPDATE[..0], w);
    Extend(w, LOST_UPDATE, 0, w, FIRST_COMMITS[0]);
    Extend(w, LOST_UPDATE, 1, FIRST_COMMITS[0], FIRST_COMMITS[1]);
  }

  lemma FirstCommits()
    ensures Reaches(Start({}), LOST_UPDATE[..5], FIRST_COMMITS[4])
  {
    BothRead();
    assert LOST_UPDATE[..2] == [Begin(0, 10), Begin(1, 11)];
    Extend(Start({}), LOST_UPDATE, 2, FIRST_COMMITS[1], FIRST_COMMITS[2]);
    Extend(Start({}), LOST_UPDATE, 3, FIRST_COMMITS[2], FIRST_COMMITS[3]);
    Extend(Start({}), LOST_UPDATE, 4, FIRST_COMMITS[3], FIRST_COMMITS[4]);
  }

  /** Overlaps do happen: two users join, each before the other has committed, both rows are there, and the counter
      says one. */
  lemma UpdatesCanBeLost()
    ensures Legal(Start({}), LOST_UPDATE) && Overlap(LOST_UPDATE)
    ensures After(Start({}), LOST_UPDATE).count == 1 && After(Start({}), LOST_UPDATE).rows == {10, 11}
  {
    FirstCommits();
    Extend(Start({}), LOST_UPDATE, 5, FIRST_COMMITS[4], SECOND_COMMITS[0]);
    Extend(Start({}), LOST_UPDATE, 6, SECOND_COMMITS[0], SECOND_COMMITS[1]);
    Extend(Start({}), LOST_UPDATE, 7, SECOND_COMMITS[1], SECOND_COMMITS[2]);
    assert LOST_UPDATE[..8] == LOST_UPDATE;
    CounterExactIff({}, LOST_UPDATE);
  }

  // ------------------------------------------------------------------ the service

  datatype Reply = Enrolled | NotFound | NotOpen | AlreadyEnrolled

  /** One course with its enrolments, as one request after another finds and leaves them. */
  class Course {
    var published: bool
    var deleted: bool
    var enrollmentCount: int
    var enrolled: set<int>

    ghost predicate Exact()
      reads this
    {
      enrollmentCount == |enrolled|
    }

    ghost function Value(): (w: World)
      reads this
    {
      World(published && !deleted, enrolled, enrollmentCount, map[], 0, false)
    }

    constructor ()
      ensures Exact() && enrolled == {} && !published && !deleted
    {
      published, deleted, enrollmentCount, enrolled := false, false, 0, {};
    }

    /** A request nothing interrupts does what its four steps do, and keeps the counter exact. */
    method Enroll(user: int) returns (r: Reply)
      modifies this
      ensures published == old(published) && deleted == old(deleted)
      ensures r == if old(deleted) then NotFound else if !old(published) then NotOpen
                   else if user in old(enrolled) then AlreadyEnrolled else Enrolled
      ensures enrolled == if r == Enrolled then old(enrolled) + {user} else old(enrolled)
      ensures enrollmentCount == if r == Enrolled then old(enrollmentCount) + 1 else old(enrollmentCount)
      ensures old(Exact()) ==> Exact()
      ensures r == Enrolled <==> Enabled(old(Value()), Begin(0, user))
      ensures r == Enrolled ==>
                var run := [Begin(0, user), Insert(0), Event.Count(0), Commit(0)];
                Legal(old(Value()), run) &&
                After(old(Value()), run) == World(published, enrolled, enrollmentCount, map[], 1, false)
    {
      if deleted {
        return NotFound;
      }
      if !published {
        return NotOpen;
      }
      if user in enrolled {
        return AlreadyEnrolled;
      }
      FourSteps(Value(), user);
      enrolled := enrolled + {user};
      enrollmentCount := enrollmentCount + 1;
      r := Enrolled;
    }
  }

  lemma FourSteps(w: World, user: int)
    requires w.published && user !in w.rows && w.open == map[] && w.commits == 0 && !w.overlapped
    ensures var run := [Begin(0, user), Insert(0), Event.Count(0), Commit(0)];
            && Legal(w, run)
            && After(w, run) == World(true, w.rows + {user}, w.count + 1, map[], 1, false)
  {
    var r1, r2, r3 := [Begin(0, user)], [Begin(0, user), Insert(0)], [Begin(0, user), Insert(0), Event.Count(0)];
    var r4 := [Begin(0, user), Insert(0), Event.Count(0), Commit(0)];
    assert r1[..0] == [] && r2[..1] == r1 && r3[..2] == r2 && r4[..3] == r3;
    assert Legal(w, []) && After(w, []) == w;
    assert Legal(w, r1) && After(w, r1) == Step(w, Begin(0, user));
    assert Legal(w, r2) && After(w, r2) == Step(After(w, r1), Insert(0));
    assert Legal(w, r3) && After(w, r3) == Step(After(w, r2), Event.Count(0));
    assert Legal(w, r4) && After(w, r4) == Step(After(w, r3), Commit(0));
  }
}
