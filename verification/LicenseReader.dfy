/**
 A reader's computation step by step: it reads the clock, runs the query for enabled modules, then the query for
 lapsed ones, and anything may happen between any two of these.

 The rest of the world is that of `LicenseCache`, where the whole computation is one step.  A reader that is under
 way is `Missed` there, and `busy` says how far it has come.
 */
module LicenseReader {
  import opened Prelude
  import opened Licensing
  import C = LicenseCache

  // `clock` is the instant the reader read; `from` and `at` are the positions in `past` of the states in which it did,
  // and in which it ran its first query.
  datatype Phase = Timed(clock: nat, from: nat) | Half(codes: set<string>, clock: nat, from: nat, at: nat)

  datatype World = World(shared: C.World, busy: map<int, Phase>)

  datatype Event = ReadClock(reader: int) | FirstQuery(reader: int) | SecondQuery(reader: int) | Other(event: C.Event)

  ghost predicate Enabled(w: World, e: Event, gap: nat) {
    match e
    case ReadClock(r) =>
      r in w.shared.readers && w.shared.readers[r].Missed? && r !in w.busy && w.shared.past != []
    case FirstQuery(r) => r in w.busy && w.busy[r].Timed? && w.shared.past != []
    case SecondQuery(r) => r in w.busy && w.busy[r].Half?
    case Other(o) => !o.Query? && C.Enabled(w.shared, o, gap)
  }

  // The state is recorded as after any other step.
  ghost function Recorded(w: C.World, tenant: string, gap: nat): C.World {
    C.Step(w, C.Tick(0), tenant, gap)
  }

  ghost function Step(w: World, e: Event, tenant: string, gap: nat): World
    requires Enabled(w, e, gap)
  {
    var s := w.shared;
    match e
    case ReadClock(r) => World(Recorded(s, tenant, gap), w.busy[r := Timed(s.now, |s.past| - 1)])
    case FirstQuery(r) =>
      var b := w.busy[r];
      World(Recorded(s, tenant, gap),
            w.busy[r := Half(EnabledQuery(s.tables, tenant), b.clock, b.from, |s.past| - 1)])
    case SecondQuery(r) =>
      var codes := w.busy[r].codes - ExpiredQuery(s.tables, tenant, w.busy[r].clock) + CORE;
      World(Recorded(s.(readers := s.readers[r := C.Computed(codes, w.busy[r].at)]), tenant, gap), w.busy - {r})
    case Other(o) => World(C.Step(s, o, tenant, gap), w.busy)
  }

  ghost predicate Legal(w: World, run: seq<Event>, tenant: string, gap: nat)
    decreases |run|
  {
    run == [] || (Enabled(w, run[0], gap) && Legal(Step(w, run[0], tenant, gap), run[1..], tenant, gap))
  }

  ghost function After(w: World, run: seq<Event>, tenant: string, gap: nat): World
    requires Legal(w, run, tenant, gap)
    decreases |run|
  {
    if run == [] then w else After(Step(w, run[0], tenant, gap), run[1..], tenant, gap)
  }

  ghost function Start(now: nat, tables: Tables): World {
    World(C.Start(now, tables), map[])
  }

  // ------------------------------------------------------------------ what every step keeps

  ghost predicate PhaseOk(w: World, r: int, tenant: string)
    requires r in w.busy
  {
    && r in w.shared.readers && w.shared.readers[r].Missed?
    && match w.busy[r]
       case Timed(clock, from) => from < |w.shared.past| && clock == w.shared.past[from].time <= w.shared.now
       case Half(codes, clock, from, at) =>
         && from <= at < |w.shared.past| && clock == w.shared.past[from].time <= w.shared.past[at].time
         && Unique(w.shared.past[at].tables)
         && codes == EnabledQuery(w.shared.past[at].tables, tenant)
  }

  ghost predicate Inv(w: World, tenant: string) {
    C.Recorded(w.shared) && forall r :: r in w.busy ==> PhaseOk(w, r, tenant)
  }

  lemma StepKeepsRecord(w: World, e: Event, tenant: string, gap: nat)
    requires Inv(w, tenant) && Enabled(w, e, gap)
    ensures C.Recorded(Step(w, e, tenant, gap).shared) && w.shared.past <= Step(w, e, tenant, gap).shared.past
  {
    match e
    case SecondQuery(r) =>
      assert PhaseOk(w, r, tenant);
    case Other(o) => C.StepKeepsRecord(w.shared, o, tenant, gap);
    case _ => C.StepKeepsRecord(w.shared, C.Tick(0), tenant, gap);
  }

  // A reader under way that the event does not move.
  lemma PhaseStays(w: World, e: Event, r: int, tenant: string, gap: nat)
    requires Inv(w, tenant) && Enabled(w, e, gap) && r in w.busy
    requires r in Step(w, e, tenant, gap).busy && Step(w, e, tenant, gap).busy[r] == w.busy[r]
    ensures PhaseOk(Step(w, e, tenant, gap), r, tenant)
  {
    assert PhaseOk(w, r, tenant);
    StepKeepsRecord(w, e, tenant, gap);
  }

  lemma StepKeepsInv(w: World, e: Event, tenant: string, gap: nat)
    requires Inv(w, tenant) && Enabled(w, e, gap)
    ensures Inv(Step(w, e, tenant, gap), tenant)
  {
    var w' := Step(w, e, tenant, gap);
    StepKeepsRecord(w, e, tenant, gap);
    forall r | r in w'.busy ensures PhaseOk(w', r, tenant) {
      if r in w.busy && w'.busy[r] == w.busy[r] {
        PhaseStays(w, e, r, tenant, gap);
      } else if r in w.busy {
        assert PhaseOk(w, r, tenant);
      }
    }
  }

  lemma {:induction false} RunKeepsInv(w: World, run: seq<Event>, tenant: string, gap: nat)
    requires Inv(w, tenant) && Legal(w, run, tenant, gap)
    ensures Inv(After(w, run, tenant, gap), tenant)
    decreases |run|
  {
    if run != [] {
      StepKeepsInv(w, run[0], tenant, gap);
      RunKeepsInv(Step(w, run[0], tenant, gap), run[1..], tenant, gap);
    }
  }

  // ------------------------------------------------------------------ what every answer is

  // `codes` came from a clock reading at position `from`, a first query at `at` and a second one at `second`.
  ghost predicate ReadFrom(past: seq<C.Moment>, tenant: string, codes: set<string>, from: nat, at: nat, second: nat) {
    && from <= at <= second < |past| && past[from].time <= past[at].time && Unique(past[at].tables)
    && codes == Compute(past[at].tables, past[second].tables, tenant, past[from].time)
  }

  ghost predicate IsRead(past: seq<C.Moment>, tenant: string, codes: set<string>, at: nat) {
    exists from: nat, second: nat :: ReadFrom(past, tenant, codes, from, at, second)
  }

  ghost predicate ReadsOk(w: C.World, tenant: string, gap: nat) {
    && (forall r :: r in w.readers && w.readers[r].Computed? ==>
          IsRead(w.past, tenant, w.readers[r].codes, w.readers[r].at))
    && (w.cache.Some? ==>
          && IsRead(w.past, tenant, w.cache.value.codes, w.cache.value.at)
          && w.cache.value.expires <= w.past[w.cache.value.at].time + gap + C.CACHE_TTL)
  }

  lemma StillRead(past: seq<C.Moment>, more: seq<C.Moment>, tenant: string, codes: set<string>, at: nat)
    requires IsRead(past, tenant, codes, at) && past <= more
    ensures IsRead(more, tenant, codes, at) && more[at] == past[at]
  {
    var from: nat, second: nat :| ReadFrom(past, tenant, codes, from, at, second);
    assert ReadFrom(more, tenant, codes, from, at, second);
  }

  lemma StepKeepsReads(w: World, e: Event, tenant: string, gap: nat)
    requires Inv(w, tenant) && ReadsOk(w.shared, tenant, gap) && Enabled(w, e, gap)
    ensures ReadsOk(Step(w, e, tenant, gap).shared, tenant, gap)
  {
    var s, s' := w.shared, Step(w, e, tenant, gap).shared;
    assert s.past <= s'.past;
    forall codes, at: nat | IsRead(s.past, tenant, codes, at)
      ensures IsRead(s'.past, tenant, codes, at) && s'.past[at] == s.past[at]
    {
      StillRead(s.past, s'.past, tenant, codes, at);
    }
    if e.SecondQuery? {
      assert PhaseOk(w, e.reader, tenant);
      var b := w.busy[e.reader];
      assert ReadFrom(s'.past, tenant, s'.readers[e.reader].codes, b.from, b.at, |s.past| - 1);
    }
  }

  lemma {:induction false} RunKeepsReads(w: World, run: seq<Event>, tenant: string, gap: nat)
    requires Inv(w, tenant) && ReadsOk(w.shared, tenant, gap) && Legal(w, run, tenant, gap)
    ensures Inv(After(w, run, tenant, gap), tenant) && ReadsOk(After(w, run, tenant, gap).shared, tenant, gap)
    decreases |run|
  {
    if run != [] {
      StepKeepsInv(w, run[0], tenant, gap);
      StepKeepsReads(w, run[0], tenant, gap);
      RunKeepsReads(Step(w, run[0], tenant, gap), run[1..], tenant, gap);
    }
  }

  /** In every run, whatever its writers do, each answer is what a clock reading and two queries gave, the first query
      no longer than 60 seconds plus `gap` ago. */
  lemma EveryAnswer(now: nat, tables: Tables, run: seq<Event>, e: C.Event, tenant: string, gap: nat)
    returns (from: nat, at: nat, second: nat)
    requires Unique(tables) && Legal(Start(now, tables), run, tenant, gap)
    requires var w := After(Start(now, tables), run, tenant, gap);
             Enabled(w, Other(e), gap) && C.Answer(w.shared, e).Some?
    ensures var w := After(Start(now, tables), run, tenant, gap).shared;
            && ReadFrom(w.past, tenant, C.Answer(w, e).value, from, at, second)
            && w.past[at].time <= w.now <= w.past[at].time + C.CACHE_TTL + gap
  {
    RunKeepsReads(Start(now, tables), run, tenant, gap);
    var w := After(Start(now, tables), run, tenant, gap).shared;
    at := if e.Get? then w.cache.value.at else w.readers[e.reader].at;
    from, second :| ReadFrom(w.past, tenant, C.Answer(w, e).value, from, at, second);
    if at < |w.past| - 1 {
      assert w.past[at].time <= w.past[|w.past| - 1].time;
    }
  }

  // ------------------------------------------------------------------ nobody rewrites an expiry date

  // Administration may change anything else: no code of the service writes `expires_at`.
  ghost predicate LeavesExpiries(w: World, e: Event, tenant: string) {
    e.Other? && e.event.Administer? ==> SameExpiries(w.shared.tables, e.event.tables, tenant)
  }

  ghost predicate ExpiriesStand(w: World, run: seq<Event>, tenant: string, gap: nat)
    requires Legal(w, run, tenant, gap)
    decreases |run|
  {
    run == [] ||
    (LeavesExpiries(w, run[0], tenant) && ExpiriesStand(Step(w, run[0], tenant, gap), run[1..], tenant, gap))
  }

  ghost predicate OnlySetModule(run: seq<Event>) {
    forall e :: e in run && e.Other? ==> !e.event.Administer?
  }

  /** In particular `set_module` rewrites none. */
  lemma {:induction false} SetModuleKeepsExpiry(w: World, run: seq<Event>, tenant: string, gap: nat)
    requires Legal(w, run, tenant, gap) && OnlySetModule(run)
    ensures ExpiriesStand(w, run, tenant, gap)
    decreases |run|
  {
    if run != [] {
      assert run[0] in run;
      SetModuleKeepsExpiry(Step(w, run[0], tenant, gap), run[1..], tenant, gap);
    }
  }

  // Every moment had the expiry dates of the present one.
  ghost predicate OneExpiry(w: C.World, tenant: string) {
    forall i :: 0 <= i < |w.past| ==> Unique(w.past[i].tables) && SameExpiries(w.past[i].tables, w.tables, tenant)
  }

  lemma StepKeepsOneExpiry(w: World, e: Event, tenant: string, gap: nat)
    requires C.Recorded(w.shared) && OneExpiry(w.shared, tenant) && Enabled(w, e, gap) && LeavesExpiries(w, e, tenant)
    ensures OneExpiry(Step(w, e, tenant, gap).shared, tenant)
  {
    var s, s' := w.shared, Step(w, e, tenant, gap).shared;
    assert Unique(s'.tables) && SameExpiries(s.tables, s'.tables, tenant) by {
      if e.Other? && e.event.Commit? {
        var change := s.writers[e.event.writer].change;
        SetModuleKeepsUnique(s.tables, change);
        forall t: nat { SameExpired(s.tables, change, tenant, t); }
      }
    }
    forall i | 0 <= i < |s'.past|
      ensures Unique(s'.past[i].tables) && SameExpiries(s'.past[i].tables, s'.tables, tenant)
    {
      if i < |s.past| {
        assert s'.past[i] == s.past[i] && SameExpiries(s.past[i].tables, s.tables, tenant);
      }
    }
  }

  lemma {:induction false} RunKeepsOneExpiry(w: World, run: seq<Event>, tenant: string, gap: nat)
    requires Inv(w, tenant) && OneExpiry(w.shared, tenant)
    requires Legal(w, run, tenant, gap) && ExpiriesStand(w, run, tenant, gap)
    ensures OneExpiry(After(w, run, tenant, gap).shared, tenant)
    decreases |run|
  {
    if run != [] {
      StepKeepsInv(w, run[0], tenant, gap);
      StepKeepsOneExpiry(w, run[0], tenant, gap);
      RunKeepsOneExpiry(Step(w, run[0], tenant, gap), run[1..], tenant, gap);
    }
  }

  // ------------------------------------------------------------------ the moments an answer is true of

  ghost predicate TrueOf(codes: set<string>, m: C.Moment, tenant: string) {
    codes == Entitled(m.tables, tenant, m.time)
  }

  // Between what was read, the clock at `from` and the tables at `at`, and moment k nothing happened that matters.
  ghost predicate LikeRead(w: C.World, from: nat, at: nat, k: nat, tenant: string)
    requires from < |w.past| && at < |w.past| && k < |w.past|
  {
    Reflects(w.past[at].tables, w.past[from].time, w.past[k].tables, w.past[k].time, tenant)
  }

  /** Each answer is the entitlement set of the tables of its first query, judged at its clock reading.  And it was the
      tenant's true entitlement set of a moment, before or after, exactly when between that reading and that moment no
      live grant lapsed and no module that still counts was switched. */
  lemma AnswerTrueIff(now: nat, tables: Tables, run: seq<Event>, e: C.Event, tenant: string, gap: nat)
    returns (from: nat, at: nat)
    requires Unique(tables) && Legal(Start(now, tables), run, tenant, gap)
    requires ExpiriesStand(Start(now, tables), run, tenant, gap)
    requires var w := After(Start(now, tables), run, tenant, gap);
             Enabled(w, Other(e), gap) && C.Answer(w.shared, e).Some?
    ensures var w := After(Start(now, tables), run, tenant, gap).shared;
            var codes := C.Answer(w, e).value;
            && from <= at < |w.past| && w.past[from].time <= w.past[at].time
            && w.past[at].time <= w.now <= w.past[at].time + C.CACHE_TTL + gap
            && codes == Entitled(w.past[at].tables, tenant, w.past[from].time)
            && (forall k :: 0 <= k < |w.past| ==>
                  (TrueOf(codes, w.past[k], tenant) <==> LikeRead(w, from, at, k, tenant)))
  {
    var second;
    from, at, second := EveryAnswer(now, tables, run, e, tenant, gap);
    RunKeepsOneExpiry(Start(now, tables), run, tenant, gap);
    var w := After(Start(now, tables), run, tenant, gap).shared;
    var a, clock := w.past[at].tables, w.past[from].time;
    assert ExpiredQuery(w.past[second].tables, tenant, clock) == ExpiredQuery(w.tables, tenant, clock)
        == ExpiredQuery(a, tenant, clock);
    ComputeIsEntitled(a, tenant, clock);
    forall k | 0 <= k < |w.past|
      ensures TrueOf(C.Answer(w, e).value, w.past[k], tenant) <==> LikeRead(w, from, at, k, tenant)
    {
      assert SameExpiries(a, w.tables, tenant) && SameExpiries(w.past[k].tables, w.tables, tenant);
      assert SameExpiries(a, w.past[k].tables, tenant);
      EntitledAlikeIff(a, clock, w.past[k].tables, w.past[k].time, tenant);
    }
  }

  ghost predicate Recent(w: C.World, k: int, age: nat) {
    0 <= k < |w.past| && w.now <= w.past[k].time + age
  }

  /** Bounded staleness, exactly: an answer was true at some moment of the last 60 seconds plus `gap` if and only if one
      of those moments has no relevant lapse and no relevant switch between itself and what the reader read.  The moment
      the clock was read is such a one whenever nothing was committed before the first query, and the moment of the
      first query whenever no live grant lapsed since the clock was read. */
  lemma BoundedStaleness(now: nat, tables: Tables, run: seq<Event>, e: C.Event, tenant: string, gap: nat)
    returns (from: nat, at: nat)
    requires Unique(tables) && Legal(Start(now, tables), run, tenant, gap)
    requires ExpiriesStand(Start(now, tables), run, tenant, gap)
    requires var w := After(Start(now, tables), run, tenant, gap);
             Enabled(w, Other(e), gap) && C.Answer(w.shared, e).Some?
    ensures var w, age := After(Start(now, tables), run, tenant, gap).shared, C.CACHE_TTL + gap;
            var codes := C.Answer(w, e).value;
            && from <= at && Recent(w, at, age)
            && ((exists k :: Recent(w, k, age) && TrueOf(codes, w.past[k], tenant)) <==>
                (exists k :: Recent(w, k, age) && LikeRead(w, from, at, k, tenant)))
            && (w.past[from].tables == w.past[at].tables ==> TrueOf(codes, w.past[from], tenant))
            && (!ExpiresBetween(w.past[at].tables, tenant, w.past[from].time, w.past[at].time) <==>
                TrueOf(codes, w.past[at], tenant))
  {
    from, at := AnswerTrueIff(now, tables, run, e, tenant, gap);
    var w, age := After(Start(now, tables), run, tenant, gap).shared, C.CACHE_TTL + gap;
    var codes := C.Answer(w, e).value;
    if k :| Recent(w, k, age) && TrueOf(codes, w.past[k], tenant) {
      assert LikeRead(w, from, at, k, tenant);
    }
    if k :| Recent(w, k, age) && LikeRead(w, from, at, k, tenant) {
      assert TrueOf(codes, w.past[k], tenant);
    }
  }

  // ------------------------------------------------------------------ one step instead of three

  // Nothing changed the lapsed modules between the reader's queries.
  ghost predicate SameExpiry(w: World, r: int, tenant: string)
    requires r in w.busy && w.busy[r].Half? && w.busy[r].at < |w.shared.past|
  {
    ExpiredQuery(w.shared.tables, tenant, w.busy[r].clock)
      == ExpiredQuery(w.shared.past[w.busy[r].at].tables, tenant, w.busy[r].clock)
  }

  /** In every run, the set a reader ends up with is the true entitlement set of the moment of its first query exactly
      when no live grant lapsed between its reading of the clock and that moment. */
  lemma ComputedIsTrueIff(now: nat, tables: Tables, run: seq<Event>, r: int, tenant: string, gap: nat)
    requires Unique(tables) && Legal(Start(now, tables), run, tenant, gap)
    requires var w := After(Start(now, tables), run, tenant, gap);
             r in w.busy && w.busy[r].Half? && w.busy[r].at < |w.shared.past| && SameExpiry(w, r, tenant)
    ensures var w := After(Start(now, tables), run, tenant, gap);
            var moment, clock := w.shared.past[w.busy[r].at], w.busy[r].clock;
            var codes := Step(w, SecondQuery(r), tenant, gap).shared.readers[r].codes;
            codes == Entitled(moment.tables, tenant, moment.time) <==>
              !ExpiresBetween(moment.tables, tenant, clock, moment.time)
  {
    RunKeepsInv(Start(now, tables), run, tenant, gap);
    var w := After(Start(now, tables), run, tenant, gap);
    assert PhaseOk(w, r, tenant);
    ClockReadEarly(w.shared.past[w.busy[r].at].tables, tenant, w.busy[r].clock, w.shared.past[w.busy[r].at].time);
  }

  // The reader's queries could as well have run in one step.
  ghost predicate Coherent(w: World, e: Event, tenant: string) {
    match e
    case FirstQuery(r) => r in w.busy && !ExpiresBetween(w.shared.tables, tenant, w.busy[r].clock, w.shared.now)
    case SecondQuery(r) =>
      r in w.busy && w.busy[r].Half? && w.busy[r].at < |w.shared.past| && SameExpiry(w, r, tenant)
    case _ => true
  }

  ghost predicate CoherentRun(w: World, run: seq<Event>, tenant: string, gap: nat)
    requires Legal(w, run, tenant, gap)
    decreases |run|
  {
    run == [] || (Coherent(w, run[0], tenant) && CoherentRun(Step(w, run[0], tenant, gap), run[1..], tenant, gap))
  }

  // The coarse world: a reader past its first query already holds what it will store.
  ghost function Coarse(w: World, tenant: string): C.World
    requires Inv(w, tenant)
  {
    w.shared.(readers := map r | r in w.shared.readers :: CoarseReader(w, r, tenant))
  }

  ghost function CoarseReader(w: World, r: int, tenant: string): C.Reader
    requires Inv(w, tenant) && r in w.shared.readers
  {
    if r in w.busy && w.busy[r].Half? then
      assert PhaseOk(w, r, tenant);
      var tables := w.shared.past[w.busy[r].at].tables;
      C.Computed(Compute(tables, tables, tenant, w.busy[r].clock), w.busy[r].at)
    else w.shared.readers[r]
  }

  function CoarseEvent(e: Event): C.Event {
    match e
    case ReadClock(_) => C.Tick(0)
    case FirstQuery(r) => C.Query(r)
    case SecondQuery(_) => C.Tick(0)
    case Other(o) => o
  }

  function CoarseRun(run: seq<Event>): seq<C.Event>
    decreases |run|
  {
    if run == [] then [] else [CoarseEvent(run[0])] + CoarseRun(run[1..])
  }

  // The coarse step reaches the coarse image of the fine step.
  ghost predicate Simulated(w: World, e: Event, tenant: string, gap: nat)
    requires Inv(w, tenant) && Enabled(w, e, gap) && Inv(Step(w, e, tenant, gap), tenant)
  {
    && C.Enabled(Coarse(w, tenant), CoarseEvent(e), gap)
    && C.Step(Coarse(w, tenant), CoarseEvent(e), tenant, gap) == Coarse(Step(w, e, tenant, gap), tenant)
  }

  lemma ReadClockSimulated(w: World, r: int, tenant: string, gap: nat)
    requires Inv(w, tenant) && Enabled(w, ReadClock(r), gap) && Inv(Step(w, ReadClock(r), tenant, gap), tenant)
    ensures Simulated(w, ReadClock(r), tenant, gap)
  {
    var w' := Step(w, ReadClock(r), tenant, gap);
    forall q | q in w.shared.readers ensures CoarseReader(w', q, tenant) == CoarseReader(w, q, tenant) {
      if q in w.busy { assert PhaseOk(w, q, tenant); }
    }
  }

  lemma SameAsNow(w: World, r: int, tenant: string)
    requires Inv(w, tenant) && r in w.busy && Coherent(w, FirstQuery(r), tenant) && w.busy[r].Timed?
    ensures Compute(w.shared.tables, w.shared.tables, tenant, w.busy[r].clock)
         == Compute(w.shared.tables, w.shared.tables, tenant, w.shared.now)
    ensures r in w.shared.readers
  {
    assert PhaseOk(w, r, tenant);
    ClockReadEarly(w.shared.tables, tenant, w.busy[r].clock, w.shared.now);
    ComputeIsEntitled(w.shared.tables, tenant, w.shared.now);
  }

  lemma FirstQuerySimulated(w: World, r: int, tenant: string, gap: nat)
    requires Inv(w, tenant) && Enabled(w, FirstQuery(r), gap) && Inv(Step(w, FirstQuery(r), tenant, gap), tenant)
    requires Coherent(w, FirstQuery(r), tenant)
    ensures Simulated(w, FirstQuery(r), tenant, gap)
  {
    var w' := Step(w, FirstQuery(r), tenant, gap);
    SameAsNow(w, r, tenant);
    assert w'.shared.past[|w.shared.past| - 1] == C.Moment(w.shared.now, w.shared.tables);
    forall q | q in w.shared.readers && q != r ensures CoarseReader(w', q, tenant) == CoarseReader(w, q, tenant) {
      if q in w.busy { assert PhaseOk(w, q, tenant); }
    }
  }

  lemma SecondQuerySimulated(w: World, r: int, tenant: string, gap: nat)
    requires Inv(w, tenant) && Enabled(w, SecondQuery(r), gap) && Inv(Step(w, SecondQuery(r), tenant, gap), tenant)
    requires Coherent(w, SecondQuery(r), tenant)
    ensures Simulated(w, SecondQuery(r), tenant, gap)
  {
    var w' := Step(w, SecondQuery(r), tenant, gap);
    assert PhaseOk(w, r, tenant);
    forall q | q in w.shared.readers ensures CoarseReader(w', q, tenant) == CoarseReader(w, q, tenant) {
      if q in w.busy { assert PhaseOk(w, q, tenant); }
    }
  }

  lemma BusyAreMissed(w: World, tenant: string)
    requires Inv(w, tenant)
    ensures forall q :: q in w.busy ==> q in w.shared.readers && w.shared.readers[q].Missed?
  {
    forall q | q in w.busy ensures q in w.shared.readers && w.shared.readers[q].Missed? {
      assert PhaseOk(w, q, tenant);
    }
  }

  // A look-up or a cache write leaves the readers that are under way alone.
  lemma CacheUseSimulated(w: World, o: C.Event, tenant: string, gap: nat)
    requires Inv(w, tenant) && Enabled(w, Other(o), gap) && Inv(Step(w, Other(o), tenant, gap), tenant)
    requires o.Get? || o.Fill?
    ensures Simulated(w, Other(o), tenant, gap)
  {
    var w' := Step(w, Other(o), tenant, gap);
    forall q | q in w'.shared.readers && (q in w.busy || q != o.reader)
      ensures q in w.shared.readers && CoarseReader(w', q, tenant) == CoarseReader(w, q, tenant)
    {
      if q in w.busy { assert PhaseOk(w, q, tenant); }
    }
    BusyAreMissed(w, tenant);
  }

  lemma OtherSimulated(w: World, o: C.Event, tenant: string, gap: nat)
    requires Inv(w, tenant) && Enabled(w, Other(o), gap) && Inv(Step(w, Other(o), tenant, gap), tenant)
    ensures Simulated(w, Other(o), tenant, gap)
  {
    if o.Get? || o.Fill? {
      CacheUseSimulated(w, o, tenant, gap);
    } else {
      var w' := Step(w, Other(o), tenant, gap);
      forall q | q in w.shared.readers ensures CoarseReader(w', q, tenant) == CoarseReader(w, q, tenant) {
        if q in w.busy { assert PhaseOk(w, q, tenant); }
      }
    }
  }

  lemma SameAnswer(w: World, o: C.Event, tenant: string, gap: nat)
    requires Inv(w, tenant) && Enabled(w, Other(o), gap)
    ensures C.Answer(Coarse(w, tenant), o) == C.Answer(w.shared, o)
  {
    BusyAreMissed(w, tenant);
  }

  lemma StepSimulated(w: World, e: Event, tenant: string, gap: nat)
    requires Inv(w, tenant) && Enabled(w, e, gap) && Inv(Step(w, e, tenant, gap), tenant) && Coherent(w, e, tenant)
    ensures Simulated(w, e, tenant, gap)
  {
    match e
    case ReadClock(r) => ReadClockSimulated(w, r, tenant, gap);
    case FirstQuery(r) => FirstQuerySimulated(w, r, tenant, gap);
    case SecondQuery(r) => SecondQuerySimulated(w, r, tenant, gap);
    case Other(o) => OtherSimulated(w, o, tenant, gap);
  }

  /** The three-step reader refines the one-step reader: as long as its reads are coherent, a run of the one is a run
      of the other, with the same tables, cache and answers, so all that is proved there holds here. */
  lemma {:induction false} RunSimulated(w: World, run: seq<Event>, tenant: string, gap: nat)
    requires Inv(w, tenant) && Legal(w, run, tenant, gap) && CoherentRun(w, run, tenant, gap)
    ensures Inv(After(w, run, tenant, gap), tenant)
    ensures C.Legal(Coarse(w, tenant), CoarseRun(run), tenant, gap)
    ensures C.After(Coarse(w, tenant), CoarseRun(run), tenant, gap) == Coarse(After(w, run, tenant, gap), tenant)
    decreases |run|
  {
    if run != [] {
      StepKeepsInv(w, run[0], tenant, gap);
      StepSimulated(w, run[0], tenant, gap);
      RunSimulated(Step(w, run[0], tenant, gap), run[1..], tenant, gap);
      assert CoarseRun(run)[0] == CoarseEvent(run[0]) && CoarseRun(run)[1..] == CoarseRun(run[1..]);
    }
  }

  /** In such a run every answer is simply true of some moment of the last 60 seconds plus `gap`. */
  lemma CoherentStaleness(now: nat, tables: Tables, run: seq<Event>, e: C.Event, tenant: string, gap: nat)
    returns (at: nat)
    requires Unique(tables) && Legal(Start(now, tables), run, tenant, gap)
    requires CoherentRun(Start(now, tables), run, tenant, gap)
    requires var w := After(Start(now, tables), run, tenant, gap);
             Enabled(w, Other(e), gap) && C.Answer(w.shared, e).Some?
    ensures var w := After(Start(now, tables), run, tenant, gap).shared;
            && at < |w.past|
            && C.Answer(w, e).value == Entitled(w.past[at].tables, tenant, w.past[at].time)
            && w.past[at].time <= w.now <= w.past[at].time + C.CACHE_TTL + gap
  {
    var w0 := Start(now, tables);
    assert Coarse(w0, tenant) == C.Start(now, tables);
    RunSimulated(w0, run, tenant, gap);
    var w := After(w0, run, tenant, gap);
    StepKeepsInv(w, Other(e), tenant, gap);
    OtherSimulated(w, e, tenant, gap);
    SameAnswer(w, e, tenant, gap);
    at := C.BoundedStaleness(now, tables, CoarseRun(run), e, tenant, gap);
  }

  // ------------------------------------------------------------------ a set that was never true

  // Course access ends at time 5; while a reader is under way it lapses and quizzes are switched on.
  const COURSES := Module(1, "COURSES", true)
  const QUIZZES := Module(2, "QUIZZES", true)
  const LAPSING := Grant("t", 1, true, None, Some(5))
  const OFF := Grant("t", 2, false, None, None)
  const BEFORE := Tables({COURSES, QUIZZES}, {LAPSING, OFF})
  const SWITCH_ON := Change("t", "QUIZZES", true, 5)
  const AFTERWARDS := Tables({COURSES, QUIZZES}, {LAPSING, Grant("t", 2, true, Some(5), None)})

  const MIXED_READ := [Other(C.Get(1)), ReadClock(1), Other(C.Flush(2, SWITCH_ON)), Other(C.Invalidate(2)),
                       Other(C.Tick(1)), Other(C.Commit(2)), FirstQuery(1), SecondQuery(1)]

  lemma ScenarioChange()
    ensures Unique(BEFORE) && Apply(BEFORE, SWITCH_ON) == AFTERWARDS
  {
    assert QUIZZES in BEFORE.modules && OFF in BEFORE.grants;
    SetModuleFinds(BEFORE, SWITCH_ON, QUIZZES);
  }

  lemma ScenarioSets()
    ensures "QUIZZES" !in Entitled(BEFORE, "t", 5)
    ensures "COURSES" !in Entitled(BEFORE, "t", 6) && "COURSES" !in Entitled(AFTERWARDS, "t", 6)
    ensures {"COURSES", "QUIZZES"} <= EnabledQuery(AFTERWARDS, "t") && ExpiredQuery(AFTERWARDS, "t", 5) == {}
  {
    var on := Grant("t", 2, true, Some(5), None);
    assert Joined(COURSES, LAPSING, "t") && Joined(QUIZZES, on, "t") && on in AFTERWARDS.grants;
  }

  // The states of the run, one by one.
  const M0 := C.Moment(5, BEFORE)
  const S1 := C.World(5, BEFORE, None, map[1 := C.Missed], map[], [M0, M0])
  const W1 := World(S1, map[])
  const S2 := S1.(past := S1.past + [M0])
  const W2 := World(S2, map[1 := Timed(5, 1)])
  const S3 := S2.(writers := map[2 := C.Flushed(SWITCH_ON)], past := S2.past + [M0])
  const W3 := World(S3, W2.busy)
  const S4 := S3.(writers := map[2 := C.Invalidated(SWITCH_ON)], past := S3.past + [M0])
  const W4 := World(S4, W2.busy)
  const S5 := S4.(now := 6, past := S4.past + [C.Moment(6, BEFORE)])
  const W5 := World(S5, W2.busy)
  const S6 := S5.(tables := AFTERWARDS, writers := map[], past := S5.past + [C.Moment(6, AFTERWARDS)])
  const W6 := World(S6, W2.busy)
  const S7 := S6.(past := S6.past + [C.Moment(6, AFTERWARDS)])
  const W7 := World(S7, map[1 := Half(EnabledQuery(AFTERWARDS, "t"), 5, 1, 6)])
  const MIXED := EnabledQuery(AFTERWARDS, "t") - ExpiredQuery(AFTERWARDS, "t", 5) + CORE
  const S8 := S7.(readers := map[1 := C.Computed(MIXED, 6)], past := S7.past + [C.Moment(6, AFTERWARDS)])
  const W8 := World(S8, map[])

  ghost predicate Follows(w: World, e: Event, w': World) {
    Enabled(w, e, 0) && Step(w, e, "t", 0) == w'
  }

  // A run given with its successive states.
  lemma {:induction false} Unfold(w: World, run: seq<Event>, states: seq<World>)
    requires |states| == |run|
    requires run != [] ==> Follows(w, run[0], states[0])
    requires forall i :: 0 < i < |run| ==> Follows(states[i - 1], run[i], states[i])
    ensures Legal(w, run, "t", 0)
    ensures After(w, run, "t", 0) == if run == [] then w else states[|run| - 1]
    decreases |run|
  {
    if run != [] {
      Unfold(states[0], run[1..], states[1..]);
    }
  }

  lemma UpToTheCommit()
    ensures Follows(Start(5, BEFORE), Other(C.Get(1)), W1) && Follows(W1, ReadClock(1), W2)
    ensures Follows(W2, Other(C.Flush(2, SWITCH_ON)), W3) && Follows(W3, Other(C.Invalidate(2)), W4)
  {
  }

  lemma FromTheCommit()
    ensures Follows(W4, Other(C.Tick(1)), W5) && Follows(W5, Other(C.Commit(2)), W6)
  {
    ScenarioChange();
  }

  lemma BothQueries()
    ensures Follows(W6, FirstQuery(1), W7) && Follows(W7, SecondQuery(1), W8)
  {
  }

  lemma MixedRead()
    ensures Legal(Start(5, BEFORE), MIXED_READ, "t", 0) && After(Start(5, BEFORE), MIXED_READ, "t", 0) == W8
  {
    UpToTheCommit();
    FromTheCommit();
    BothQueries();
    Unfold(Start(5, BEFORE), MIXED_READ, [W1, W2, W3, W4, W5, W6, W7, W8]);
  }

  lemma Moments(k: nat)
    requires k < |S8.past|
    ensures S8.past[k] in {M0, C.Moment(6, BEFORE), C.Moment(6, AFTERWARDS)}
  {
  }

  /** Reads that are not coherent can mix two moments: here a reader is told, and caches, a set that was the tenant's
      true entitlement at no moment of the run. */
  lemma TrueAtNoMoment()
    ensures Unique(BEFORE) && Legal(Start(5, BEFORE), MIXED_READ, "t", 0)
    ensures var w := After(Start(5, BEFORE), MIXED_READ, "t", 0);
            && Enabled(w, Other(C.Fill(1)), 0) && C.Answer(w.shared, C.Fill(1)).Some?
            && var codes := C.Answer(w.shared, C.Fill(1)).value;
            && forall k :: 0 <= k < |w.shared.past| ==>
                 codes != Entitled(w.shared.past[k].tables, "t", w.shared.past[k].time)
  {
    ScenarioChange();
    ScenarioSets();
    MixedRead();
    assert "COURSES" in MIXED && "QUIZZES" in MIXED;
    forall k | 0 <= k < |S8.past| ensures MIXED != Entitled(S8.past[k].tables, "t", S8.past[k].time) {
      Moments(k);
    }
  }
}
