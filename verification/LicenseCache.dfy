/**
 The entitlement cache of one tenant under every interleaving of readers and writers.

 A reader looks in the cache, and on a miss computes the set and then stores it for 60 seconds; a writer flushes
 its change, deletes the cache entry, and only then commits.  Between any two of these steps anything else may
 happen.  `past` records the clock and the committed tables of every state so far; all that is read of it is how
 long ago a reader computed its set.  Times are milliseconds.
 */
module LicenseCache {
  import opened Prelude
  import opened Licensing

  const CACHE_TTL: nat := 60_000

  datatype Moment = Moment(time: nat, tables: Tables)

  // `at` is the position in `past` of the state in which the codes were computed.
  datatype Entry = Entry(codes: set<string>, expires: nat, at: nat)
  datatype Reader = Missed | Computed(codes: set<string>, at: nat)
  datatype Writer = Flushed(change: Change) | Invalidated(change: Change)

  datatype World = World(now: nat, tables: Tables, cache: Option<Entry>,
                         readers: map<int, Reader>, writers: map<int, Writer>, past: seq<Moment>)

  datatype Event =
    | Tick(ms: nat)
    | Get(reader: int)
    | Query(reader: int)
    | Fill(reader: int)
    | Flush(writer: int, change: Change)
    | Invalidate(writer: int)
    | Commit(writer: int)
    | Rollback(writer: int)
    | Administer(tables: Tables)

  // `Enabled` also bounds by `gap` the time a reader takes from computing the set to storing it.
  ghost predicate Enabled(w: World, e: Event, gap: nat) {
    match e
    case Tick(_) => true
    case Get(r) => r !in w.readers
    case Query(r) => r in w.readers && w.readers[r].Missed? && w.past != []
    case Fill(r) => r in w.readers && w.readers[r].Computed? && w.readers[r].at < |w.past|
                    && w.now <= w.past[w.readers[r].at].time + gap
    case Flush(x, _) => x !in w.writers
    case Invalidate(x) => x in w.writers && w.writers[x].Flushed?
    case Commit(x) => x in w.writers && w.writers[x].Invalidated?
    case Rollback(x) => x in w.writers
    case Administer(t) => Unique(t)
  }

  ghost predicate Hit(w: World) {
    w.cache.Some? && w.now <= w.cache.value.expires
  }

  // The step itself, before the new state is recorded.
  ghost function Move(w: World, e: Event, tenant: string, gap: nat): World
    requires Enabled(w, e, gap)
  {
    match e
    case Tick(d) => w.(now := w.now + d)
    case Get(r) => if Hit(w) then w else w.(readers := w.readers[r := Missed])
    case Query(r) => w.(readers := w.readers[r := Computed(Compute(w.tables, w.tables, tenant, w.now), |w.past| - 1)])
    case Fill(r) => w.(cache := Some(Entry(w.readers[r].codes, w.now + CACHE_TTL, w.readers[r].at)),
                      readers := w.readers - {r})
    case Flush(x, c) => w.(writers := w.writers[x := Flushed(c)])
    case Invalidate(x) => w.(writers := w.writers[x := Invalidated(w.writers[x].change)], cache := None)
    case Commit(x) => w.(writers := w.writers - {x}, tables := Apply(w.tables, w.writers[x].change))
    case Rollback(x) => w.(writers := w.writers - {x})
    case Administer(t) => w.(tables := t)
  }

  ghost function Step(w: World, e: Event, tenant: string, gap: nat): World
    requires Enabled(w, e, gap)
  {
    var w' := Move(w, e, tenant, gap);
    w'.(past := w.past + [Moment(w'.now, w'.tables)])
  }

  // What `enabled_codes` returns in this step: the cached set on a hit, the computed one once it is stored.
  ghost function Answer(w: World, e: Event): Option<set<string>> {
    if e.Get? && Hit(w) then Some(w.cache.value.codes)
    else if e.Fill? && e.reader in w.readers && w.readers[e.reader].Computed? then Some(w.readers[e.reader].codes)
    else None
  }

  // ------------------------------------------------------------------ invariant

  // `codes` was the true entitlement set at moment `at`, which is not before moment `from`.
  ghost predicate TrueAt(past: seq<Moment>, tenant: string, codes: set<string>, at: nat, from: nat) {
    from <= at < |past| && codes == Entitled(past[at].tables, tenant, past[at].time)
  }

  ghost predicate Recorded(w: World) {
    && Unique(w.tables)
    && |w.past| > 0 && w.past[|w.past| - 1] == Moment(w.now, w.tables)
    && (forall i, j :: 0 <= i < j < |w.past| ==> w.past[i].time <= w.past[j].time)
    && (forall r :: r in w.readers && w.readers[r].Computed? ==> w.readers[r].at < |w.past|)
  }

  // Everything cached or about to be cached was true at some moment since `from`, and recently enough.
  ghost predicate Inv(w: World, tenant: string, gap: nat, from: nat) {
    && Recorded(w)
    && (forall r :: r in w.readers && w.readers[r].Computed? ==>
          TrueAt(w.past, tenant, w.readers[r].codes, w.readers[r].at, from))
    && (w.cache.Some? ==>
          && TrueAt(w.past, tenant, w.cache.value.codes, w.cache.value.at, from)
          && w.cache.value.expires <= w.past[w.cache.value.at].time + gap + CACHE_TTL)
  }

  lemma StepKeepsRecord(w: World, e: Event, tenant: string, gap: nat)
    requires Recorded(w) && Enabled(w, e, gap)
    ensures Recorded(Step(w, e, tenant, gap))
    ensures w.past <= Step(w, e, tenant, gap).past
  {
    if e.Commit? {
      SetModuleKeepsUnique(w.tables, w.writers[e.writer].change);
    }
  }

  lemma StepKeepsInv(w: World, e: Event, tenant: string, gap: nat, from: nat)
    requires Inv(w, tenant, gap, from) && from < |w.past| && Enabled(w, e, gap)
    ensures Inv(Step(w, e, tenant, gap), tenant, gap, from)
  {
    StepKeepsRecord(w, e, tenant, gap);
    ComputeIsEntitled(w.tables, tenant, w.now);
    var w' := Step(w, e, tenant, gap);
    forall codes, at: nat | TrueAt(w.past, tenant, codes, at, from) ensures TrueAt(w'.past, tenant, codes, at, from) {
      assert w'.past[at] == w.past[at];
    }
    if e.Query? {
      assert TrueAt(w.past, tenant, Compute(w.tables, w.tables, tenant, w.now), |w.past| - 1, from);
    }
  }

  ghost predicate Legal(w: World, run: seq<Event>, tenant: string, gap: nat)
    decreases |run|
  {
    run == [] || (Enabled(w, run[0], gap) && Legal(Step(w, run[0], tenant, gap), run[1..], tenant, gap))
  }

  ghost function After(w: World, run: seq<Event>, tenant: string, gap: nat): World
    requires Legal(w, run, tenant, gap)
    decreases |run|
  {
    if run == [] then w else After(Step(w, run[0], tenant, gap), run[1..], tenant, gap)
  }

  lemma {:induction false} RunKeepsInv(w: World, run: seq<Event>, tenant: string, gap: nat, from: nat)
    requires Inv(w, tenant, gap, from) && from < |w.past| && Legal(w, run, tenant, gap)
    ensures Inv(After(w, run, tenant, gap), tenant, gap, from)
    ensures w.past <= After(w, run, tenant, gap).past
    decreases |run|
  {
    if run != [] {
      StepKeepsInv(w, run[0], tenant, gap, from);
      StepKeepsRecord(w, run[0], tenant, gap);
      RunKeepsInv(Step(w, run[0], tenant, gap), run[1..], tenant, gap, from);
    }
  }

  ghost function Start(now: nat, tables: Tables): World {
    World(now, tables, None, map[], map[], [Moment(now, tables)])
  }

  // ------------------------------------------------------------------ what readers are told

  /** Bounded staleness.  However readers and writers interleave, each answer given at time t is the tenant's true
      entitlement set of some moment no earlier than t - 60 - gap. */
  lemma BoundedStaleness(now: nat, tables: Tables, run: seq<Event>, e: Event, tenant: string, gap: nat)
    returns (at: nat)
    requires Unique(tables) && Legal(Start(now, tables), run, tenant, gap)
    requires var w := After(Start(now, tables), run, tenant, gap);
             Enabled(w, e, gap) && Answer(w, e).Some?
    ensures var w := After(Start(now, tables), run, tenant, gap);
            && at < |w.past|
            && Answer(w, e).value == Entitled(w.past[at].tables, tenant, w.past[at].time)
            && w.past[at].time <= w.now <= w.past[at].time + CACHE_TTL + gap
  {
    RunKeepsInv(Start(now, tables), run, tenant, gap, 0);
    var w := After(Start(now, tables), run, tenant, gap);
    at := if e.Get? then w.cache.value.at else w.readers[e.reader].at;
    if at < |w.past| - 1 {
      assert w.past[at].time <= w.past[|w.past| - 1].time;
    }
  }

  predicate KeepsEntry(e: Event) {
    !e.Invalidate? && !e.Fill?
  }

  lemma {:induction false} EntryStays(w: World, run: seq<Event>, tenant: string, gap: nat)
    requires Legal(w, run, tenant, gap) && forall e :: e in run ==> KeepsEntry(e)
    ensures After(w, run, tenant, gap).cache == w.cache
    decreases |run|
  {
    if run != [] {
      assert KeepsEntry(run[0]);
      EntryStays(Step(w, run[0], tenant, gap), run[1..], tenant, gap);
    }
  }

  /** The cache does serve: for the next 60 seconds, unless invalidated or refilled, every reader is answered with the
      set just stored, whatever the tables hold by then. */
  lemma CachedForAMinute(w: World, fill: Event, run: seq<Event>, reader: int, tenant: string, gap: nat)
    requires fill.Fill? && Enabled(w, fill, gap)
    requires Legal(Step(w, fill, tenant, gap), run, tenant, gap) && forall e :: e in run ==> KeepsEntry(e)
    requires var w' := After(Step(w, fill, tenant, gap), run, tenant, gap);
             reader !in w'.readers && w'.now <= w.now + CACHE_TTL
    ensures Answer(After(Step(w, fill, tenant, gap), run, tenant, gap), Get(reader)) == Answer(w, fill)
    ensures Answer(w, fill) == Some(w.readers[fill.reader].codes)
  {
    EntryStays(Step(w, fill, tenant, gap), run, tenant, gap);
  }

  // ------------------------------------------------------------------ after a commit

  // What a reader of this state is told, or may yet be told, without another query: the live cache entry, and each
  // computed set that can still be stored in time.
  ghost predicate Pending(w: World, codes: set<string>, gap: nat) {
    || (Hit(w) && codes == w.cache.value.codes)
    || exists r :: r in w.readers && Storable(w, r, gap) && codes == w.readers[r].codes
  }

  ghost predicate Storable(w: World, r: int, gap: nat)
    requires r in w.readers
  {
    w.readers[r].Computed? && w.readers[r].at < |w.past| && w.now <= w.past[w.readers[r].at].time + gap
  }

  ghost predicate TrueSince(w: World, tenant: string, codes: set<string>, from: nat) {
    exists at: nat :: TrueAt(w.past, tenant, codes, at, from)
  }

  // The answer of event e after the run, if it gives one, was true at some moment since `from`.
  ghost predicate AnswersTruly(w: World, run: seq<Event>, e: Event, tenant: string, gap: nat, from: nat)
    requires Legal(w, run, tenant, gap)
  {
    var w' := After(w, run, tenant, gap);
    Enabled(w', e, gap) && Answer(w', e).Some? ==> TrueSince(w', tenant, Answer(w', e).value, from)
  }

  // No continuation ever gives an answer from before `from`.
  ghost predicate FreshForGood(w: World, tenant: string, gap: nat, from: nat) {
    forall run, e :: Legal(w, run, tenant, gap) ==> AnswersTruly(w, run, e, tenant, gap, from)
  }

  ghost predicate PendingTrue(w: World, tenant: string, gap: nat, from: nat) {
    && Recorded(w) && from < |w.past|
    && forall codes :: Pending(w, codes, gap) ==> TrueSince(w, tenant, codes, from)
  }

  // Only a query makes a new set pending, and that one is true at that moment.
  lemma PendingBefore(w: World, e: Event, codes: set<string>, tenant: string, gap: nat)
    requires Recorded(w) && Enabled(w, e, gap) && Pending(Step(w, e, tenant, gap), codes, gap)
    ensures Pending(w, codes, gap) || codes == Entitled(w.tables, tenant, w.now)
  {
    var w' := Step(w, e, tenant, gap);
    if Hit(w') && codes == w'.cache.value.codes {
      if e.Fill? { assert Storable(w, e.reader, gap); }
    } else {
      var r :| r in w'.readers && Storable(w', r, gap) && codes == w'.readers[r].codes;
      if e == Query(r) {
        ComputeIsEntitled(w.tables, tenant, w.now);
      } else {
        assert r in w.readers && w.readers[r] == w'.readers[r];
        assert w'.past[w.readers[r].at].time + gap >= w.now;
      }
    }
  }

  lemma StepKeepsPendingTrue(w: World, e: Event, tenant: string, gap: nat, from: nat)
    requires PendingTrue(w, tenant, gap, from) && Enabled(w, e, gap)
    ensures PendingTrue(Step(w, e, tenant, gap), tenant, gap, from)
  {
    StepKeepsRecord(w, e, tenant, gap);
    var w' := Step(w, e, tenant, gap);
    forall codes | Pending(w', codes, gap) ensures TrueSince(w', tenant, codes, from) {
      PendingBefore(w, e, codes, tenant, gap);
      if Pending(w, codes, gap) {
        var at: nat :| TrueAt(w.past, tenant, codes, at, from);
        assert TrueAt(w'.past, tenant, codes, at, from);
      } else {
        assert TrueAt(w'.past, tenant, codes, |w.past| - 1, from);
      }
    }
  }

  lemma {:induction false} RunKeepsPendingTrue(w: World, run: seq<Event>, tenant: string, gap: nat, from: nat)
    requires PendingTrue(w, tenant, gap, from) && Legal(w, run, tenant, gap)
    ensures PendingTrue(After(w, run, tenant, gap), tenant, gap, from)
    decreases |run|
  {
    if run != [] {
      StepKeepsPendingTrue(w, run[0], tenant, gap, from);
      RunKeepsPendingTrue(Step(w, run[0], tenant, gap), run[1..], tenant, gap, from);
    }
  }

  lemma AnswersArePending(w: World, e: Event, gap: nat)
    requires Enabled(w, e, gap) && Answer(w, e).Some?
    ensures Pending(w, Answer(w, e).value, gap)
  {
  }

  // Some reader can be told it at once.
  lemma PendingIsAnswered(w: World, codes: set<string>, gap: nat) returns (e: Event)
    requires Pending(w, codes, gap)
    ensures Enabled(w, e, gap) && Answer(w, e) == Some(codes)
  {
    if Hit(w) && codes == w.cache.value.codes {
      e := Get(UnusedReader(w.readers.Keys));
    } else {
      var r :| r in w.readers && Storable(w, r, gap) && codes == w.readers[r].codes;
      e := Fill(r);
    }
  }

  ghost function UnusedReader(used: set<int>): (r: int)
    ensures r !in used
  {
    UnboundedInts(used);
    var r: int :| r !in used;
    r
  }

  lemma UnboundedInts(used: set<int>)
    ensures exists r: int :: r !in used
  {
    var top := UpperBound(used);
    assert top + 1 !in used;
  }

  lemma {:induction false} UpperBound(used: set<int>) returns (top: int)
    ensures forall r :: r in used ==> r <= top
    decreases |used|
  {
    if x :| x in used {
      var rest := UpperBound(used - {x});
      top := if x < rest then rest else x;
      forall r | r in used ensures r <= top {
        if r != x { assert r in used - {x}; }
      }
    } else {
      top := 0;
    }
  }

  /** Exactly when a commit's invalidation has done its work.  Every answer given from a commit on, in every
      continuation, is the true entitlement set of some moment since that commit, if and only if whatever is cached
      and live at the commit, and whatever has been computed and can still be stored, already equals the set that the
      commit makes true. */
  lemma FreshIff(w: World, commit: Event, tenant: string, gap: nat)
    requires Recorded(w) && commit.Commit? && Enabled(w, commit, gap)
    ensures var w1 := Step(w, commit, tenant, gap);
            FreshForGood(w1, tenant, gap, |w.past|) <==>
              (forall codes :: Pending(w1, codes, gap) ==> codes == Entitled(w1.tables, tenant, w1.now))
  {
    var w1 := Step(w, commit, tenant, gap);
    StepKeepsRecord(w, commit, tenant, gap);
    if FreshForGood(w1, tenant, gap, |w.past|) {
      forall codes | Pending(w1, codes, gap) ensures codes == Entitled(w1.tables, tenant, w1.now) {
        var e := PendingIsAnswered(w1, codes, gap);
        assert Legal(w1, [], tenant, gap) && AnswersTruly(w1, [], e, tenant, gap, |w.past|);
        assert TrueSince(w1, tenant, codes, |w.past|);
      }
    }
    if forall codes :: Pending(w1, codes, gap) ==> codes == Entitled(w1.tables, tenant, w1.now) {
      forall codes | Pending(w1, codes, gap) ensures TrueSince(w1, tenant, codes, |w.past|) {
        assert TrueAt(w1.past, tenant, codes, |w.past|, |w.past|);
      }
      forall run, e | Legal(w1, run, tenant, gap) ensures AnswersTruly(w1, run, e, tenant, gap, |w.past|) {
        RunKeepsPendingTrue(w1, run, tenant, gap, |w.past|);
        var w2 := After(w1, run, tenant, gap);
        if Enabled(w2, e, gap) && Answer(w2, e).Some? { AnswersArePending(w2, e, gap); }
      }
    }
  }

  // Nothing is cached, and no computed set is on its way into the cache.
  ghost predicate Settled(w: World) {
    w.cache.None? && forall r :: r in w.readers ==> w.readers[r].Missed?
  }

  /** In particular when at the commit nothing is cached and nobody holds a computed set. */
  lemma FreshAfterSettledCommit(w: World, commit: Event, tenant: string, gap: nat)
    requires Recorded(w) && Settled(w) && commit.Commit? && Enabled(w, commit, gap)
    ensures FreshForGood(Step(w, commit, tenant, gap), tenant, gap, |w.past|)
  {
    FreshIff(w, commit, tenant, gap);
  }

  /** What a reader's three steps do and leave alone.  A look-up that is answered changes nothing, and any other has its
      reader query; a query touches only its reader; storing replaces the entry, for 60 seconds from now, by the very
      set the reader computed, and ends the reader's call. */
  lemma ReaderSteps(w: World, reader: int, tenant: string, gap: nat)
    ensures Enabled(w, Get(reader), gap) ==>
              Move(w, Get(reader), tenant, gap) == if Answer(w, Get(reader)).Some? then w
                                                   else w.(readers := w.readers[reader := Missed])
    ensures Enabled(w, Query(reader), gap) ==>
              var w' := Move(w, Query(reader), tenant, gap);
              w' == w.(readers := w'.readers) && w'.readers - {reader} == w.readers - {reader}
    ensures Enabled(w, Fill(reader), gap) ==>
              var w' := Move(w, Fill(reader), tenant, gap);
              && w' == w.(readers := w.readers - {reader}, cache := w'.cache)
              && w'.cache.Some? && w'.cache.value.codes == w.readers[reader].codes
              && w'.cache.value.expires == w.now + 60_000
  {
  }

  /** A look-up is answered exactly by an entry that has not expired. */
  lemma AnsweredIff(w: World, reader: int)
    ensures Answer(w, Get(reader)) == if w.cache.Some? && w.now <= w.cache.value.expires
                                      then Some(w.cache.value.codes) else None
  {
  }

  predicate StoresNothing(e: Event) {
    !e.Query? && !e.Fill?
  }

  lemma {:induction false} StaysEmpty(w: World, run: seq<Event>, tenant: string, gap: nat)
    requires w.cache.None? && Legal(w, run, tenant, gap) && forall e :: e in run ==> !e.Fill?
    ensures After(w, run, tenant, gap).cache.None?
    decreases |run|
  {
    if run != [] {
      assert !run[0].Fill?;
      StaysEmpty(Step(w, run[0], tenant, gap), run[1..], tenant, gap);
    }
  }

  /** What an invalidation does: whatever was cached, nobody is answered from the cache until a reader stores a set. */
  lemma InvalidatedAnswersNobody(w: World, writer: int, run: seq<Event>, reader: int, tenant: string, gap: nat)
    requires Enabled(w, Invalidate(writer), gap)
    requires Legal(Step(w, Invalidate(writer), tenant, gap), run, tenant, gap) && forall e :: e in run ==> !e.Fill?
    ensures Answer(After(Step(w, Invalidate(writer), tenant, gap), run, tenant, gap), Get(reader)).None?
  {
    StaysEmpty(Step(w, Invalidate(writer), tenant, gap), run, tenant, gap);
  }

  // No reader holds a set that it may still store.
  ghost predicate NoneStorable(w: World, gap: nat) {
    forall r :: r in w.readers ==> !Storable(w, r, gap)
  }

  lemma {:induction false} StaysUnstorable(w: World, run: seq<Event>, tenant: string, gap: nat)
    requires Recorded(w) && NoneStorable(w, gap)
    requires Legal(w, run, tenant, gap) && forall e :: e in run ==> StoresNothing(e)
    ensures Recorded(After(w, run, tenant, gap)) && NoneStorable(After(w, run, tenant, gap), gap)
    decreases |run|
  {
    if run != [] {
      assert StoresNothing(run[0]);
      StepKeepsRecord(w, run[0], tenant, gap);
      StepStoresNothing(w, run[0], tenant, gap);
      StaysUnstorable(Step(w, run[0], tenant, gap), run[1..], tenant, gap);
    }
  }

  lemma StepStoresNothing(w: World, e: Event, tenant: string, gap: nat)
    requires Recorded(w) && NoneStorable(w, gap) && Enabled(w, e, gap) && StoresNothing(e)
    ensures NoneStorable(Step(w, e, tenant, gap), gap)
  {
    var w' := Step(w, e, tenant, gap);
    forall r | r in w'.readers ensures !Storable(w', r, gap) {
      if w'.readers[r].Computed? {
        assert r in w.readers && w.readers[r] == w'.readers[r] && !Storable(w, r, gap);
      }
    }
  }

  /** When a write is seen for good: whatever was cached, if nobody holds a set still to be stored when the writer
      invalidates, and nobody queries or stores until it commits, every later answer is true of a moment since. */
  lemma InvalidateThenCommit(w: World, writer: int, between: seq<Event>, tenant: string, gap: nat)
    requires Recorded(w) && NoneStorable(w, gap) && Enabled(w, Invalidate(writer), gap)
    requires var w1 := Step(w, Invalidate(writer), tenant, gap);
             && Legal(w1, between, tenant, gap) && (forall e :: e in between ==> StoresNothing(e))
             && Enabled(After(w1, between, tenant, gap), Commit(writer), gap)
    ensures var w2 := After(Step(w, Invalidate(writer), tenant, gap), between, tenant, gap);
            FreshForGood(Step(w2, Commit(writer), tenant, gap), tenant, gap, |w2.past|)
  {
    var w1 := Step(w, Invalidate(writer), tenant, gap);
    StepKeepsRecord(w, Invalidate(writer), tenant, gap);
    StepStoresNothing(w, Invalidate(writer), tenant, gap);
    forall e | e in between ensures !e.Fill? { assert StoresNothing(e); }
    StaysEmpty(w1, between, tenant, gap);
    StaysUnstorable(w1, between, tenant, gap);
    var w2 := After(w1, between, tenant, gap);
    StepStoresNothing(w2, Commit(writer), tenant, gap);
    FreshIff(w2, Commit(writer), tenant, gap);
  }

  // ------------------------------------------------------------------ what becomes visible

  // The run neither ends the writer's transaction nor begins another of the same writer.
  ghost predicate LeavesWriter(run: seq<Event>, writer: int) {
    forall e :: e in run ==> e != Commit(writer) && e != Rollback(writer) && (e.Flush? ==> e.writer != writer)
  }

  lemma {:induction false} WriterWaits(w: World, run: seq<Event>, writer: int, tenant: string, gap: nat)
    requires Legal(w, run, tenant, gap) && LeavesWriter(run, writer)
    ensures var w' := After(w, run, tenant, gap);
            && (writer in w'.writers <==> writer in w.writers)
            && (writer in w.writers ==> w'.writers[writer].change == w.writers[writer].change)
    decreases |run|
  {
    if run != [] {
      assert run[0] in run;
      WriterWaits(Step(w, run[0], tenant, gap), run[1..], writer, tenant, gap);
    }
  }

  /** A commit publishes exactly the change its transaction flushed, whatever happened in between, and nothing becomes
      visible before it. */
  lemma CommitPublishes(w: World, writer: int, change: Change, run: seq<Event>, tenant: string, gap: nat)
    requires Enabled(w, Flush(writer, change), gap)
    requires Legal(Step(w, Flush(writer, change), tenant, gap), run, tenant, gap) && LeavesWriter(run, writer)
    requires Enabled(After(Step(w, Flush(writer, change), tenant, gap), run, tenant, gap), Commit(writer), gap)
    ensures Step(w, Flush(writer, change), tenant, gap).tables == w.tables
    ensures var w2 := After(Step(w, Flush(writer, change), tenant, gap), run, tenant, gap);
            Step(w2, Commit(writer), tenant, gap).tables == Apply(w2.tables, change)
  {
    WriterWaits(Step(w, Flush(writer, change), tenant, gap), run, writer, tenant, gap);
  }

  /** A change that was rolled back is never committed: the tables stay, and the writer has nothing left to commit
      until it flushes another change. */
  lemma RolledBackIsGone(w: World, writer: int, run: seq<Event>, tenant: string, gap: nat)
    requires Enabled(w, Rollback(writer), gap)
    requires Legal(Step(w, Rollback(writer), tenant, gap), run, tenant, gap) && LeavesWriter(run, writer)
    ensures Step(w, Rollback(writer), tenant, gap).tables == w.tables
    ensures !Enabled(After(Step(w, Rollback(writer), tenant, gap), run, tenant, gap), Commit(writer), gap)
  {
    WriterWaits(Step(w, Rollback(writer), tenant, gap), run, writer, tenant, gap);
  }

  /** Only commits and administration change what others see. */
  lemma {:induction false} TablesStand(w: World, run: seq<Event>, tenant: string, gap: nat)
    requires Legal(w, run, tenant, gap) && forall e :: e in run ==> !e.Commit? && !e.Administer?
    ensures After(w, run, tenant, gap).tables == w.tables
    decreases |run|
  {
    if run != [] {
      assert run[0] in run;
      TablesStand(Step(w, run[0], tenant, gap), run[1..], tenant, gap);
    }
  }

  // A scenario: one module, granted, then switched off.
  const COURSES := Module(1, "COURSES", true)
  const GRANT := Grant("t", 1, true, None, None)
  const GRANTED := Tables({COURSES}, {GRANT})
  const WITHDRAWN := Tables({COURSES}, {GRANT.(enabled := false)})
  const SWITCH_OFF := Change("t", "COURSES", false, 0)
  const RACE := [Get(1), Flush(2, SWITCH_OFF), Query(1), Invalidate(2), Fill(1), Commit(2), Tick(60_000)]

  lemma ScenarioSets(now: nat)
    ensures Unique(GRANTED)
    ensures Compute(GRANTED, GRANTED, "t", now) == {"AUTH", "COURSES"}
    ensures Entitled(WITHDRAWN, "t", now) == {"AUTH"}
  {
    assert Joined(COURSES, GRANT, "t") && "COURSES" in EnabledQuery(GRANTED, "t");
  }

  lemma ScenarioChange()
    ensures Apply(GRANTED, SWITCH_OFF) == WITHDRAWN
  {
    assert COURSES in GRANTED.modules && GRANT in GRANTED.grants;
  }

  ghost predicate Follows(w: World, e: Event, w': World) {
    Enabled(w, e, 0) && Step(w, e, "t", 0) == w'
  }

  // The states of the race, one by one.
  const BOTH := {"AUTH", "COURSES"}
  const EARLY := Moment(0, GRANTED)
  const P1 := World(0, GRANTED, None, map[1 := Missed], map[], [EARLY, EARLY])
  const P2 := P1.(writers := map[2 := Flushed(SWITCH_OFF)], past := P1.past + [EARLY])
  const P3 := P2.(readers := map[1 := Computed(BOTH, 2)], past := P2.past + [EARLY])
  const P4 := P3.(writers := map[2 := Invalidated(SWITCH_OFF)], past := P3.past + [EARLY])
  const P5 := P4.(cache := Some(Entry(BOTH, 60_000, 2)), readers := map[], past := P4.past + [EARLY])
  const P6 := P5.(tables := WITHDRAWN, writers := map[], past := P5.past + [Moment(0, WITHDRAWN)])
  const P7 := P6.(now := 60_000, past := P6.past + [Moment(60_000, WITHDRAWN)])

  lemma RaceUpToTheQuery()
    ensures Follows(Start(0, GRANTED), Get(1), P1) && Follows(P1, Flush(2, SWITCH_OFF), P2) && Follows(P2, Query(1), P3)
  {
    ScenarioSets(0);
  }

  lemma RaceUpToTheFill()
    ensures Follows(P3, Invalidate(2), P4) && Follows(P4, Fill(1), P5)
  {
  }

  lemma RaceToTheEnd()
    ensures Follows(P5, Commit(2), P6) && Follows(P6, Tick(60_000), P7)
  {
    ScenarioChange();
  }

  /** And when it does not: a reader that computed before the commit and stores after the invalidation puts the old
      set back.  Here a module is switched off at time 0, yet the answer given 60 seconds after the commit still
      contains it, although the writer did invalidate the cache. */
  lemma InvalidationCanBeOvertaken()
    ensures Unique(GRANTED) && Legal(Start(0, GRANTED), RACE, "t", 0)
    ensures var w := After(Start(0, GRANTED), RACE, "t", 0);
            && w.now == 60_000 && w.tables == WITHDRAWN && Entitled(w.tables, "t", w.now) == {"AUTH"}
            && (forall k :: 5 < k < |w.past| ==> w.past[k].tables == WITHDRAWN)
            && Enabled(w, Get(3), 0) && Answer(w, Get(3)) == Some({"AUTH", "COURSES"})
  {
    ScenarioSets(0);
    ScenarioSets(60_000);
    RaceUpToTheQuery();
    RaceUpToTheFill();
    RaceToTheEnd();
    Unfold(Start(0, GRANTED), RACE, [P1, P2, P3, P4, P5, P6, P7]);
  }

  // A run given with its successive states.
  lemma {:induction false} Unfold(w: World, run: seq<Event>, states: seq<World>)
    requires |states| == |run|
    requires run != [] ==> Follows(w, run[0], states[0])
    requires forall i :: 0 < i < |run| ==> Follows(states[i - 1], run[i], states[i])
    ensures Legal(w, run, "t", 0)
    ensures After(w, run, "t", 0) == if run == [] then w else states[|run| - 1]
    decreases |run|
  {
    if run != [] {
      Unfold(states[0], run[1..], states[1..]);
    }
  }
}
