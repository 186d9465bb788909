/**
 The fixed-window rate limiter of one (path, identity) key.

 A request increments the counter; the request that found it at 1 afterwards sets the key's time to live.  The two
 commands are separate, so other requests, and time, may come in between.  Times are milliseconds.  `starts` and
 `admitted` only record what happened and decide nothing: when each window's counter was created, and each
 admitted request with its window and its rank in it.
 */
module RateLimiter {
  import opened Prelude

  const SECOND: nat := 1000

  datatype Counter = Counter(count: nat, expires: Option<int>)

  datatype Admission = Admission(time: int, window: int, rank: nat)

  datatype World = World(now: int, key: Option<Counter>, expirePending: bool,
                         starts: seq<int>, admitted: seq<Admission>)

  datatype Limit = Limit(times: int, seconds: nat)

  datatype Event = Tick(ms: nat) | Incr | Expire

  // The key as the server sees it: a key past its time to live, though not yet at its last instant, is gone.
  function Current(w: World): Option<Counter> {
    if w.key.Some? && w.key.value.expires.Some? && w.key.value.expires.value < w.now then None else w.key
  }

  predicate Enabled(w: World, e: Event) {
    e.Expire? ==> w.expirePending
  }

  // INCR: the counter's new value.
  function Count(w: World): nat {
    if Current(w).Some? then Current(w).value.count + 1 else 1
  }

  function Step(w: World, e: Event, limit: Limit): World
    requires Enabled(w, e)
  {
    match e
    case Tick(d) => w.(now := w.now + d)
    case Incr =>
      var n := Count(w);
      var w1 := if n == 1
        then w.(key := Some(Counter(1, None)), expirePending := true, starts := w.starts + [w.now])
        else w.(key := Some(Current(w).value.(count := n)));
      if n > limit.times then w1
      else w1.(admitted := w1.admitted + [Admission(w.now, |w1.starts| - 1, n)])
    case Expire =>
      w.(key := if Current(w).Some? then Some(Current(w).value.(expires := Some(w.now + limit.seconds * SECOND)))
                else None,
         expirePending := false)
  }

  ghost predicate Legal(w: World, run: seq<Event>, limit: Limit)
    decreases |run|
  {
    run == [] || (Enabled(w, run[0]) && Legal(Step(w, run[0], limit), run[1..], limit))
  }

  ghost function After(w: World, run: seq<Event>, limit: Limit): World
    requires Legal(w, run, limit)
    decreases |run|
  {
    if run == [] then w else After(Step(w, run[0], limit), run[1..], limit)
  }

  function Start(now: int): World {
    World(now, None, false, [], [])
  }

  // ------------------------------------------------------------------ invariant

  // A key without a time to live is waiting for its EXPIRE; otherwise it lives at least a full window.
  ghost predicate KeyOk(w: World, limit: Limit) {
    && (w.key.Some? ==> w.key.value.count >= 1 && w.starts != [])
    && (w.expirePending <==> w.key.Some? && w.key.value.expires.None?)
    && (w.key.Some? && w.key.value.expires.Some? ==>
          w.starts[|w.starts| - 1] + limit.seconds * SECOND <= w.key.value.expires.value)
    && (w.starts != [] ==> w.key.Some? && w.starts[|w.starts| - 1] <= w.now)
  }

  // Windows begin more than `seconds` apart.
  ghost predicate StartsApart(starts: seq<int>, limit: Limit) {
    forall i, j :: 0 <= i < j < |starts| ==> starts[i] + limit.seconds * SECOND < starts[j]
  }

  // Admission a lies inside its window and is one of its first `times` requests.
  ghost predicate AdmissionOk(w: World, a: Admission, limit: Limit) {
    && 1 <= a.rank <= limit.times
    && 0 <= a.window < |w.starts| && w.starts[a.window] <= a.time <= w.now
    && (a.window + 1 < |w.starts| ==> a.time <= w.starts[a.window + 1])
    && (a.rank == 1 ==> a.time == w.starts[a.window])
    && (a.window == |w.starts| - 1 ==> w.key.Some? && a.rank <= w.key.value.count)
  }

  // No two admissions hold the same place.
  ghost predicate AdmissionsOk(w: World, limit: Limit) {
    && (forall i :: 0 <= i < |w.admitted| ==> AdmissionOk(w, w.admitted[i], limit))
    && (forall i, j :: 0 <= i < j < |w.admitted| ==>
          w.admitted[i].window != w.admitted[j].window || w.admitted[i].rank != w.admitted[j].rank)
  }

  ghost predicate Inv(w: World, limit: Limit) {
    && KeyOk(w, limit)
    && StartsApart(w.starts, limit)
    && AdmissionsOk(w, limit)
  }

  // The world after a request, before its own admission is recorded.
  function Unrecorded(w: World, limit: Limit): World {
    Step(w, Incr, limit).(admitted := w.admitted)
  }

  // Recording an admission on a place nobody holds.
  lemma RecordKeepsAdmissions(w: World, a: Admission, limit: Limit)
    requires AdmissionsOk(w, limit)
    requires forall i :: 0 <= i < |w.admitted| ==> w.admitted[i].window != a.window || w.admitted[i].rank != a.rank
    requires AdmissionOk(w, a, limit)
    ensures AdmissionsOk(w.(admitted := w.admitted + [a]), limit)
  {
    var w' := w.(admitted := w.admitted + [a]);
    forall i | 0 <= i < |w'.admitted| ensures AdmissionOk(w', w'.admitted[i], limit) {
      if i < |w.admitted| { assert AdmissionOk(w, w.admitted[i], limit); }
    }
  }

  lemma OldAdmissions(w: World, limit: Limit)
    requires Inv(w, limit)
    ensures AdmissionsOk(Unrecorded(w, limit), limit)
    ensures var w1 := Unrecorded(w, limit);
            forall i :: 0 <= i < |w.admitted| ==>
              w.admitted[i].window != |w1.starts| - 1 || w.admitted[i].rank != Count(w)
  {
    var w1 := Unrecorded(w, limit);
    forall i | 0 <= i < |w1.admitted|
      ensures AdmissionOk(w1, w1.admitted[i], limit)
      ensures w.admitted[i].window != |w1.starts| - 1 || w.admitted[i].rank != Count(w)
    {
      assert AdmissionOk(w, w.admitted[i], limit);
    }
  }

  lemma IncrKeepsKey(w: World, limit: Limit)
    requires KeyOk(w, limit) && StartsApart(w.starts, limit)
    ensures KeyOk(Step(w, Incr, limit), limit) && StartsApart(Step(w, Incr, limit).starts, limit)
  {
  }

  lemma IncrKeepsAdmissions(w: World, limit: Limit)
    requires Inv(w, limit)
    ensures AdmissionsOk(Step(w, Incr, limit), limit)
  {
    OldAdmissions(w, limit);
    var w1 := Unrecorded(w, limit);
    if Count(w) <= limit.times {
      RecordKeepsAdmissions(w1, Admission(w.now, |w1.starts| - 1, Count(w)), limit);
    }
  }

  lemma StepKeepsInv(w: World, e: Event, limit: Limit)
    requires Inv(w, limit) && Enabled(w, e)
    ensures Inv(Step(w, e, limit), limit)
  {
    match e
    case Incr =>
      IncrKeepsKey(w, limit);
      IncrKeepsAdmissions(w, limit);
    case _ =>
      var w' := Step(w, e, limit);
      forall i | 0 <= i < |w'.admitted| ensures AdmissionOk(w', w'.admitted[i], limit) {
        assert AdmissionOk(w, w.admitted[i], limit);
      }
  }

  lemma {:induction false} RunKeepsInv(w: World, run: seq<Event>, limit: Limit)
    requires Inv(w, limit) && Legal(w, run, limit)
    ensures Inv(After(w, run, limit), limit)
    decreases |run|
  {
    if run != [] {
      StepKeepsInv(w, run[0], limit);
      RunKeepsInv(Step(w, run[0], limit), run[1..], limit);
    }
  }

  // ------------------------------------------------------------------ how many get through

  // The admissions during [from, to).
  function Between(admitted: seq<Admission>, from: int, to: int): set<nat> {
    set i: nat | i < |admitted| && from <= admitted[i].time < to
  }

  function OfWindow(admitted: seq<Admission>, window: int): set<nat> {
    set i: nat | i < |admitted| && admitted[i].window == window
  }

  // The places a window has from rank `lo` to rank `hi`.
  function Places(window: int, lo: nat, hi: nat): set<(int, nat)> {
    set r: nat | lo <= r <= hi :: (window, r)
  }

  lemma {:induction false} PlacesSize(window: int, lo: nat, hi: nat)
    ensures |Places(window, lo, hi)| == if lo <= hi then hi - lo + 1 else 0
    decreases hi
  {
    if lo <= hi {
      if lo == hi {
        assert Places(window, lo, hi) == {(window, hi)};
      } else {
        PlacesSize(window, lo, hi - 1);
        assert Places(window, lo, hi) == Places(window, lo, hi - 1) + {(window, hi)};
      }
    } else {
      assert Places(window, lo, hi) == {};
    }
  }

  // A set of admissions that all hold places in `places` is no larger than `places`.
  lemma CountByPlace(w: World, limit: Limit, chosen: set<nat>, places: set<(int, nat)>)
    requires Inv(w, limit)
    requires forall i :: i in chosen ==> i < |w.admitted| && (w.admitted[i].window, w.admitted[i].rank) in places
    ensures |chosen| <= |places|
  {
    InjectionBound(chosen, (i: nat) => if i < |w.admitted| then (w.admitted[i].window, w.admitted[i].rank) else (0, 0),
                   places);
  }

  // A whole window.
  lemma OneWindowBound(w: World, limit: Limit, passed: set<nat>, window: int)
    requires Inv(w, limit)
    requires forall i :: i in passed ==> i < |w.admitted| && w.admitted[i].window == window
    ensures |passed| <= if limit.times < 0 then 0 else limit.times
  {
    var n: nat := if limit.times < 0 then 0 else limit.times;
    var places := Places(window, 1, n);
    forall i | i in passed ensures (w.admitted[i].window, w.admitted[i].rank) in places {
      assert AdmissionOk(w, w.admitted[i], limit);
    }
    PlacesSize(window, 1, n);
    CountByPlace(w, limit, passed, places);
  }

  // A window without its first place, and the next.
  lemma TwoWindowBound(w: World, limit: Limit, passed: set<nat>, first: int)
    requires Inv(w, limit) && limit.times >= 1
    requires forall i :: i in passed ==>
               i < |w.admitted| && w.admitted[i].window in {first, first + 1}
               && (w.admitted[i].window == first ==> w.admitted[i].rank >= 2)
    ensures |passed| <= 2 * limit.times - 1
  {
    var early, late := Places(first, 2, limit.times), Places(first + 1, 1, limit.times);
    forall i | i in passed ensures (w.admitted[i].window, w.admitted[i].rank) in early + late {
      assert AdmissionOk(w, w.admitted[i], limit);
    }
    PlacesSize(first, 2, limit.times);
    PlacesSize(first + 1, 1, limit.times);
    CountByPlace(w, limit, passed, early + late);
  }

  /** One lifetime of the key admits at most `times` requests. */
  lemma PerWindowBound(now: int, run: seq<Event>, limit: Limit, window: int)
    requires Legal(Start(now), run, limit)
    ensures |OfWindow(After(Start(now), run, limit).admitted, window)| <= if limit.times < 0 then 0 else limit.times
  {
    RunKeepsInv(Start(now), run, limit);
    var w := After(Start(now), run, limit);
    var chosen := OfWindow(w.admitted, window);
    OneWindowBound(w, limit, chosen, window);
  }

  /** Any interval of length `seconds` admits fewer than twice `times` requests: it meets at most two windows, and
      when it meets two it has missed the first request of the earlier one. */
  lemma SlidingBound(now: int, run: seq<Event>, limit: Limit, from: int)
    requires Legal(Start(now), run, limit) && limit.seconds > 0
    ensures var passed := Between(After(Start(now), run, limit).admitted, from, from + limit.seconds * SECOND);
            |passed| <= if limit.times < 1 then 0 else 2 * limit.times - 1
  {
    RunKeepsInv(Start(now), run, limit);
    var w := After(Start(now), run, limit);
    var to := from + limit.seconds * SECOND;
    var passed := Between(w.admitted, from, to);
    if passed != {} {
      var first := FirstWindow(w, limit, passed);
      TwoWindows(w, limit, from, first);
      if exists i :: i in passed && w.admitted[i].window == first + 1 {
        TwoWindowBound(w, limit, passed, first);
      } else {
        OneWindowBound(w, limit, passed, first);
      }
    }
  }

  lemma FirstWindow(w: World, limit: Limit, passed: set<nat>) returns (first: int)
    requires passed != {} && forall i :: i in passed ==> i < |w.admitted|
    ensures exists i :: i in passed && w.admitted[i].window == first
    ensures forall i :: i in passed ==> first <= w.admitted[i].window
  {
    var k :| k in passed;
    if passed == {k} {
      first := w.admitted[k].window;
    } else {
      var rest := FirstWindow(w, limit, passed - {k});
      first := if w.admitted[k].window < rest then w.admitted[k].window else rest;
    }
  }

  // Requests two windows apart are at least a full window apart in time, and so are the first
  // request of a window and any request of the next.
  lemma WindowsApart(w: World, limit: Limit, i: nat, j: nat)
    requires Inv(w, limit) && i < |w.admitted| && j < |w.admitted|
    requires var a, b := w.admitted[i], w.admitted[j];
             a.window + 1 < b.window || (a.window + 1 == b.window && a.rank == 1)
    ensures w.admitted[i].time + limit.seconds * SECOND <= w.admitted[j].time
  {
    assert AdmissionOk(w, w.admitted[i], limit) && AdmissionOk(w, w.admitted[j], limit);
  }

  lemma TwoWindows(w: World, limit: Limit, from: int, first: int)
    requires Inv(w, limit) && limit.seconds > 0
    requires var passed := Between(w.admitted, from, from + limit.seconds * SECOND);
             && (exists i :: i in passed && w.admitted[i].window == first)
             && (forall i :: i in passed ==> first <= w.admitted[i].window)
    ensures var passed := Between(w.admitted, from, from + limit.seconds * SECOND);
            && (forall i :: i in passed ==>
                  1 <= w.admitted[i].rank <= limit.times && w.admitted[i].window in {first, first + 1})
            && ((exists i :: i in passed && w.admitted[i].window == first + 1) ==>
                  forall i :: i in passed && w.admitted[i].window == first ==> w.admitted[i].rank >= 2)
  {
    var passed := Between(w.admitted, from, from + limit.seconds * SECOND);
    var a :| a in passed && w.admitted[a].window == first;
    forall i | i in passed
      ensures 1 <= w.admitted[i].rank <= limit.times && w.admitted[i].window in {first, first + 1}
    {
      assert AdmissionOk(w, w.admitted[i], limit);
      if w.admitted[i].window > first + 1 { WindowsApart(w, limit, a, i); }
    }
    if b :| b in passed && w.admitted[b].window == first + 1 {
      forall i | i in passed && w.admitted[i].window == first ensures w.admitted[i].rank >= 2 {
        if w.admitted[i].rank == 1 { WindowsApart(w, limit, i, b); }
      }
    }
  }

  // ------------------------------------------------------------------ nobody is turned away early

  function Least(a: int, b: int): int {
    if a < b then a else b
  }

  // Every place of the current window up to the counter is taken.
  ghost predicate Filled(w: World, limit: Limit) {
    w.key.Some? ==>
      forall r: nat :: 1 <= r <= Least(w.key.value.count, limit.times) ==> TakenNow(w, r)
  }

  ghost predicate Taken(w: World, window: int, rank: nat) {
    exists i :: 0 <= i < |w.admitted| && w.admitted[i].window == window && w.admitted[i].rank == rank
  }

  // Some admission holds that place of the current window.
  ghost predicate TakenNow(w: World, rank: nat) {
    Taken(w, |w.starts| - 1, rank)
  }

  lemma StepKeepsFilled(w: World, e: Event, limit: Limit)
    requires KeyOk(w, limit) && Filled(w, limit) && Enabled(w, e)
    ensures Filled(Step(w, e, limit), limit)
  {
    var w' := Step(w, e, limit);
    if w'.key.Some? {
      forall r: nat | 1 <= r <= Least(w'.key.value.count, limit.times) ensures TakenNow(w', r) {
        if e.Incr? && r == Count(w) {
          assert w'.admitted[|w.admitted|] == Admission(w.now, |w'.starts| - 1, r);
        } else {
          assert TakenNow(w, r);
          var i :| 0 <= i < |w.admitted| && w.admitted[i].window == |w.starts| - 1 && w.admitted[i].rank == r;
          assert w'.admitted[i] == w.admitted[i];
        }
      }
    }
  }

  lemma {:induction false} RunKeepsFilled(w: World, run: seq<Event>, limit: Limit)
    requires Inv(w, limit) && Filled(w, limit) && Legal(w, run, limit)
    ensures Filled(After(w, run, limit), limit)
    decreases |run|
  {
    if run != [] {
      StepKeepsInv(w, run[0], limit);
      StepKeepsFilled(w, run[0], limit);
      RunKeepsFilled(Step(w, run[0], limit), run[1..], limit);
    }
  }

  // The number of requests the live window has admitted, 0 when there is none.
  function AdmittedNow(w: World): nat {
    if Current(w).Some? then |OfWindow(w.admitted, |w.starts| - 1)| else 0
  }

  lemma AdmittedNowIs(w: World, limit: Limit)
    requires Inv(w, limit) && Filled(w, limit) && limit.times >= 0 && Current(w).Some?
    ensures AdmittedNow(w) == Least(w.key.value.count, limit.times)
  {
    var cur := |w.starts| - 1;
    var n: nat := Least(w.key.value.count, limit.times);
    var chosen, places := OfWindow(w.admitted, cur), Places(cur, 1, n);
    PlacesSize(cur, 1, n);
    forall i | i in chosen ensures (w.admitted[i].window, w.admitted[i].rank) in places {
      assert AdmissionOk(w, w.admitted[i], limit);
    }
    CountByPlace(w, limit, chosen, places);
    var held := set i | i in chosen :: (w.admitted[i].window, w.admitted[i].rank);
    forall p | p in places ensures p in held {
      assert TakenNow(w, p.1);
      var i :| 0 <= i < |w.admitted| && w.admitted[i].window == cur && w.admitted[i].rank == p.1;
      assert i in chosen;
    }
    HeldSize(w, chosen);
    SubsetSize(places, held);
  }

  lemma {:induction false} HeldSize(w: World, chosen: set<nat>)
    requires forall i :: i in chosen ==> i < |w.admitted|
    ensures |set i | i in chosen :: (w.admitted[i].window, w.admitted[i].rank)| <= |chosen|
    decreases |chosen|
  {
    var held := set i | i in chosen :: (w.admitted[i].window, w.admitted[i].rank);
    if chosen != {} {
      var k :| k in chosen;
      var rest := set i | i in chosen - {k} :: (w.admitted[i].window, w.admitted[i].rank);
      HeldSize(w, chosen - {k});
      assert held == rest + {(w.admitted[k].window, w.admitted[k].rank)};
    }
  }

  lemma SubsetSize<T>(a: set<T>, b: set<T>)
    requires a <= b
    ensures |a| <= |b|
  {
    assert b == a + (b - a);
  }

  /** A request is admitted exactly when the live window has admitted fewer than `times` so far. */
  lemma AdmittedIff(now: int, run: seq<Event>, limit: Limit)
    requires Legal(Start(now), run, limit) && limit.times >= 0
    ensures var w := After(Start(now), run, limit);
            |Step(w, Incr, limit).admitted| == |w.admitted| + (if AdmittedNow(w) < limit.times then 1 else 0)
  {
    RunKeepsInv(Start(now), run, limit);
    RunKeepsFilled(Start(now), run, limit);
    var w := After(Start(now), run, limit);
    if Current(w).Some? {
      AdmittedNowIs(w, limit);
    }
  }

  // ------------------------------------------------------------------ the bound is reached

  lemma {:induction false} AfterConcat(w: World, run1: seq<Event>, run2: seq<Event>, limit: Limit)
    requires Legal(w, run1, limit) && Legal(After(w, run1, limit), run2, limit)
    ensures Legal(w, run1 + run2, limit)
    ensures After(w, run1 + run2, limit) == After(After(w, run1, limit), run2, limit)
    decreases |run1|
  {
    if run1 == [] {
      assert run1 + run2 == run2;
    } else {
      assert (run1 + run2)[1..] == run1[1..] + run2;
      AfterConcat(Step(w, run1[0], limit), run1[1..], run2, limit);
    }
  }

  function Burst(k: nat): seq<Event> {
    seq(k, _ => Incr)
  }

  // k requests at one instant, all within the limit of the current window.
  lemma {:induction false} BurstPasses(w: World, k: nat, limit: Limit)
    requires Current(w).Some? && Current(w).value.count >= 1 && Current(w).value.count + k <= limit.times
    ensures Legal(w, Burst(k), limit)
    ensures var w' := After(w, Burst(k), limit);
            && w'.now == w.now && w'.key == Some(Current(w).value.(count := Current(w).value.count + k))
            && w'.expirePending == w.expirePending
            && |w'.admitted| == |w.admitted| + k && w.admitted <= w'.admitted
            && (forall i :: |w.admitted| <= i < |w'.admitted| ==> w'.admitted[i].time == w.now)
    decreases k
  {
    if k > 0 {
      assert Burst(k)[1..] == Burst(k - 1);
      BurstPasses(Step(w, Incr, limit), k - 1, limit);
    }
  }

  // From a window opened at time 0 to its last instant, with every place but the first taken there.
  lemma FillFirstWindow(limit: Limit) returns (run: seq<Event>)
    requires limit.times >= 1 && limit.seconds >= 1
    ensures Legal(Start(0), run, limit)
    ensures var w, span := After(Start(0), run, limit), limit.seconds * SECOND;
            && w.now == span && w.key == Some(Counter(limit.times, Some(span)))
            && |w.admitted| == limit.times && w.admitted[0].time == 0
            && (forall i :: 1 <= i < limit.times ==> w.admitted[i].time == span)
  {
    var span := limit.seconds * SECOND;
    var w1 := Step(Step(Step(Start(0), Incr, limit), Expire, limit), Tick(span), limit);
    Three(Start(0), Incr, Expire, Tick(span), limit);
    BurstPasses(w1, limit.times - 1, limit);
    AfterConcat(Start(0), [Incr, Expire, Tick(span)], Burst(limit.times - 1), limit);
    run := [Incr, Expire, Tick(span)] + Burst(limit.times - 1);
  }

  // One instant later, a whole new window.
  lemma FillNextWindow(w: World, limit: Limit) returns (run: seq<Event>)
    requires limit.times >= 1 && w.key.Some? && w.key.value.expires == Some(w.now)
    ensures Legal(w, run, limit)
    ensures var w' := After(w, run, limit);
            && |w'.admitted| == |w.admitted| + limit.times && w.admitted <= w'.admitted
            && (forall i :: |w.admitted| <= i < |w'.admitted| ==> w'.admitted[i].time == w.now + 1)
  {
    var w1 := Step(Step(Step(w, Tick(1), limit), Incr, limit), Tick(0), limit);
    Three(w, Tick(1), Incr, Tick(0), limit);
    BurstPasses(w1, limit.times - 1, limit);
    AfterConcat(w, [Tick(1), Incr, Tick(0)], Burst(limit.times - 1), limit);
    run := [Tick(1), Incr, Tick(0)] + Burst(limit.times - 1);
  }

  /** The sliding bound cannot be improved: for every limit there is a run that admits `2 * times - 1` requests
      within `seconds`, all but one of a window at its very end and a full window right after. */
  lemma SlidingBoundIsReached(limit: Limit) returns (run: seq<Event>)
    requires limit.times >= 1 && limit.seconds >= 1
    ensures Legal(Start(0), run, limit)
    ensures |Between(After(Start(0), run, limit).admitted, 2, 2 + limit.seconds * SECOND)| == 2 * limit.times - 1
  {
    var n: nat := limit.times;
    var run1 := FillFirstWindow(limit);
    var w1 := After(Start(0), run1, limit);
    var run2 := FillNextWindow(w1, limit);
    run := run1 + run2;
    AfterConcat(Start(0), run1, run2, limit);
    var w := After(w1, run2, limit);
    var passed := Between(w.admitted, 2, 2 + limit.seconds * SECOND);
    forall i: nat | 1 <= i < 2 * n ensures i in passed {
      if i < n { assert w.admitted[i] == w1.admitted[i]; }
    }
    PlacesSize(0, 1, 2 * n - 1);
    InjectionBound(Places(0, 1, 2 * n - 1), (p: (int, nat)) => p.1, passed);
    SlidingBound(0, run, limit, 2);
  }

  lemma Three(w: World, a: Event, b: Event, c: Event, limit: Limit)
    requires Enabled(w, a) && Enabled(Step(w, a, limit), b) && Enabled(Step(Step(w, a, limit), b, limit), c)
    ensures Legal(w, [a, b, c], limit)
    ensures After(w, [a, b, c], limit) == Step(Step(Step(w, a, limit), b, limit), c, limit)
  {
    var w1 := Step(w, a, limit);
    var w2 := Step(w1, b, limit);
    assert [a, b, c][1..] == [b, c] && [b, c][1..] == [c] && [c][1..] == [];
    var w3 := Step(w2, c, limit);
    assert Legal(w3, [], limit) && After(w3, [], limit) == w3;
    assert Legal(w2, [c], limit) && After(w2, [c], limit) == After(w3, [], limit);
    assert Legal(w1, [b, c], limit) && After(w1, [b, c], limit) == Step(w2, c, limit);
  }

  // ------------------------------------------------------------------ a window ends on time

  /** Once a window's EXPIRE has run, nothing moves its end: whatever requests come, admitted or rejected, no window
      opens before it, and the end stays put until one does. */
  lemma {:induction false} WindowEndStands(w: World, run: seq<Event>, limit: Limit, end: int)
    requires Inv(w, limit) && Legal(w, run, limit)
    requires w.key.Some? && w.key.value.expires == Some(end)
    ensures var w' := After(w, run, limit);
            && w.starts <= w'.starts && w.now <= w'.now
            && (w'.now <= end ==> w'.starts == w.starts)
            && (w'.starts == w.starts ==> w'.key.Some? && w'.key.value.expires == Some(end))
    decreases |run|
  {
    if run != [] {
      var w1 := Step(w, run[0], limit);
      StepKeepsInv(w, run[0], limit);
      if w1.starts == w.starts {
        WindowEndStands(w1, run[1..], limit, end);
      } else {
        StartsGrow(w1, run[1..], limit);
      }
    }
  }

  lemma {:induction false} StartsGrow(w: World, run: seq<Event>, limit: Limit)
    requires Legal(w, run, limit)
    ensures w.starts <= After(w, run, limit).starts && w.now <= After(w, run, limit).now
    decreases |run|
  {
    if run != [] {
      StartsGrow(Step(w, run[0], limit), run[1..], limit);
    }
  }

  /** So the first request after the end is admitted, however many were rejected before it. */
  lemma ReopensOnTime(w: World, run: seq<Event>, limit: Limit, end: int)
    requires Inv(w, limit) && Legal(w, run, limit) && limit.times >= 1
    requires w.key.Some? && w.key.value.expires == Some(end)
    requires After(w, run, limit).starts == w.starts && end < After(w, run, limit).now
    ensures var w' := After(w, run, limit);
            Step(w', Incr, limit).admitted == w'.admitted + [Admission(w'.now, |w.starts|, 1)]
  {
    WindowEndStands(w, run, limit, end);
  }

  /** The limiter of one key as the request handler drives it. */
  class Limiter {
    const limit: Limit
    var key: Option<Counter>

    constructor (limit: Limit)
      ensures this.limit == limit && key == None
    {
      this.limit, key := limit, None;
    }

    ghost function At(now: int): World
      reads this
    {
      World(now, key, key.Some? && key.value.expires.None?, [], [])
    }

    method IncrKey(now: int) returns (count: nat)
      requires key.Some? ==> key.value.count >= 1
      modifies this
      ensures count == Count(old(At(now))) && key == Step(old(At(now)), Incr, limit).key
    {
      if key.Some? && key.value.expires.Some? && key.value.expires.value < now {
        key := None;
      }
      if key.None? {
        key := Some(Counter(1, None));
      } else {
        key := Some(key.value.(count := key.value.count + 1));
      }
      count := key.value.count;
    }

    method ExpireKey(now: int)
      requires key.Some? && key.value.expires.None?
      modifies this
      ensures key == Step(old(At(now)), Expire, limit).key
    {
      key := Some(key.value.(expires := Some(now + limit.seconds * SECOND)));
    }

    /** A request nothing interrupts: admitted iff the window it falls in has a place left, and it starts the
        window's clock exactly when it opens the window. */
    method Call(now: int, later: int) returns (allowed: bool)
      requires now <= later && (key.Some? ==> key.value.count >= 1)
      modifies this
      ensures var n := Count(old(At(now)));
              && (allowed <==> n <= limit.times)
              && key == (if n == 1 then Some(Counter(1, Some(later + limit.seconds * SECOND)))
                         else Some(old(key).value.(count := n)))
    {
      var count := IncrKey(now);
      if count == 1 {
        ExpireKey(later);
      }
      allowed := count <= limit.times;
    }
  }
}
