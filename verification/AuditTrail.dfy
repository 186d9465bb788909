/**
 Audit rows for published events.

 An action publishes inside its own transaction and the audit consumer writes in another one that commits at once,
 so the row is there however the action's transaction ends.
 */
module AuditTrail {
  import opened Prelude
  import opened EventBus

  datatype Descriptor = Descriptor(action: Option<string>, resource: Option<string>)

  datatype DomainFact = DomainFact(id: int, etype: EventType, tenant: Option<string>, user: Option<string>,
                                   descriptor: Option<Descriptor>)

  datatype AuditRow = AuditRow(event: int, tenant: string, user: Option<string>, action: string, resource: string)

  const AUDIT: Handler := 0

  function Name(t: EventType): string {
    if t.Derived? then t.name else "DomainEvent"
  }

  // audit_domain_event: nothing to write without a descriptor or a tenant.
  function RowFor(f: DomainFact): Option<AuditRow> {
    if f.descriptor.None? || f.tenant.None? then None
    else Some(AuditRow(f.id, f.tenant.value, f.user,
                       if f.descriptor.value.action.Some? then f.descriptor.value.action.value else Name(f.etype),
                       if f.descriptor.value.resource.Some? then f.descriptor.value.resource.value else "unknown"))
  }

  // `open` holds the events published by transactions that have not ended, `committed` those of committed ones.
  datatype World = World(open: map<int, set<int>>, committed: set<int>, rows: seq<AuditRow>)

  datatype Event =
    | Publish(tx: int, fact: DomainFact, failing: set<Handler>)
    | Commit(tx: int)
    | Rollback(tx: int)

  function Pending(w: World, tx: int): set<int> {
    if tx in w.open then w.open[tx] else {}
  }

  function Written(handlers: seq<Handler>, f: DomainFact, failing: set<Handler>): seq<AuditRow> {
    if handlers == [] then []
    else (if handlers[0] == AUDIT && AUDIT !in failing && RowFor(f).Some? then [RowFor(f).value] else [])
         + Written(handlers[1..], f, failing)
  }

  function Step(w: World, e: Event, bus: seq<Registration>): World {
    match e
    case Publish(tx, f, failing) =>
      w.(open := w.open[tx := Pending(w, tx) + {f.id}],
         rows := w.rows + Written(Resolve(Table(bus), f.etype), f, failing))
    case Commit(tx) => w.(open := w.open - {tx}, committed := w.committed + Pending(w, tx))
    case Rollback(tx) => w.(open := w.open - {tx})
  }

  function After(run: seq<Event>, bus: seq<Registration>): World {
    if run == [] then World(map[], {}, []) else Step(After(run[..|run| - 1], bus), run[|run| - 1], bus)
  }

  function CountRows(rows: seq<AuditRow>, id: int): nat {
    if rows == [] then 0 else CountRows(rows[..|rows| - 1], id) + (if rows[|rows| - 1].event == id then 1 else 0)
  }

  lemma {:induction false} CountConcat(a: seq<AuditRow>, b: seq<AuditRow>, id: int)
    ensures CountRows(a + b, id) == CountRows(a, id) + CountRows(b, id)
  {
    if b == [] {
      assert a + b == a;
    } else {
      assert (a + b)[..|a + b| - 1] == a + b[..|b| - 1];
      CountConcat(a, b[..|b| - 1], id);
    }
  }

  lemma {:induction false} WrittenCount(handlers: seq<Handler>, f: DomainFact, failing: set<Handler>, id: int)
    ensures CountRows(Written(handlers, f, failing), id)
         == if f.id == id && AUDIT !in failing && RowFor(f).Some? then multiset(handlers)[AUDIT] else 0
  {
    if handlers != [] {
      WrittenCount(handlers[1..], f, failing, id);
      assert handlers == [handlers[0]] + handlers[1..];
      var first := if handlers[0] == AUDIT && AUDIT !in failing && RowFor(f).Some? then [RowFor(f).value] else [];
      CountConcat(first, Written(handlers[1..], f, failing), id);
      if first != [] { assert first[..0] == []; }
    }
  }

  // Every event has an id of its own.
  ghost predicate FreshIds(run: seq<Event>) {
    forall i, j :: 0 <= i < j < |run| && run[i].Publish? && run[j].Publish? ==> run[i].fact.id != run[j].fact.id
  }

  predicate Audited(e: Event) {
    e.Publish? && AUDIT !in e.failing && e.fact.tenant.Some? && e.fact.descriptor.Some?
  }

  predicate Publishes(e: Event, id: int) {
    e.Publish? && e.fact.id == id
  }

  ghost predicate WasPublished(run: seq<Event>, id: int) {
    exists e :: e in run && Publishes(e, id)
  }

  ghost predicate AsksForRow(run: seq<Event>, id: int) {
    exists e :: e in run && Publishes(e, id) && Audited(e)
  }

  lemma OneMore(run: seq<Event>, e: Event, id: int)
    ensures WasPublished(run + [e], id) <==> WasPublished(run, id) || Publishes(e, id)
    ensures AsksForRow(run + [e], id) <==> AsksForRow(run, id) || (Publishes(e, id) && Audited(e))
    ensures AsksForRow(run, id) ==> WasPublished(run, id)
  {
    assert forall x :: x in run + [e] <==> x in run || x == e;
  }

  lemma RowsAfter(run: seq<Event>, e: Event, bus: seq<Registration>, id: int)
    requires forall t :: Registrations(bus, t, AUDIT) == 1
    ensures CountRows(After(run + [e], bus).rows, id)
         == CountRows(After(run, bus).rows, id) + (if Publishes(e, id) && Audited(e) then 1 else 0)
  {
    assert (run + [e])[..|run|] == run;
    if e.Publish? {
      var handlers := Resolve(Table(bus), e.fact.etype);
      ResolvedOncePerRegistration(bus, e.fact.etype, AUDIT);
      WrittenCount(handlers, e.fact, e.failing, id);
      CountConcat(After(run, bus).rows, Written(handlers, e.fact, e.failing), id);
    }
  }

  /** With the audit consumer subscribed once to the base type, an event that was published has exactly one audit row
      if it names a tenant and a descriptor and the consumer did not fail, and none otherwise - whichever other
      handlers failed, and whether the publishing transaction committed, rolled back or is still open. */
  lemma {:induction false} OneRowPerAuditedEvent(run: seq<Event>, bus: seq<Registration>, id: int)
    requires FreshIds(run) && forall t :: Registrations(bus, t, AUDIT) == 1
    ensures CountRows(After(run, bus).rows, id) == if AsksForRow(run, id) then 1 else 0
  {
    if run != [] {
      var init, e := run[..|run| - 1], run[|run| - 1];
      assert run == init + [e];
      OneRowPerAuditedEvent(init, bus, id);
      RowsAfter(init, e, bus, id);
      OneMore(init, e, id);
      if Publishes(e, id) {
        forall x | x in init ensures !Publishes(x, id) {
          var i :| 0 <= i < |init| && init[i] == x;
          assert run[i] == x;
        }
      }
    }
  }

  // What the row says of the event: its tenant and user, the action and resource of its descriptor, or failing these
  // the name of its type and "unknown".
  ghost predicate Describes(row: AuditRow, f: DomainFact) {
    && row.event == f.id && f.tenant == Some(row.tenant) && row.user == f.user && f.descriptor.Some?
    && var d := f.descriptor.value;
    && (d.action == Some(row.action)
        || (d.action.None? && row.action == if f.etype.Derived? then f.etype.name else "DomainEvent"))
    && (d.resource == Some(row.resource) || (d.resource.None? && row.resource == "unknown"))
  }

  lemma {:induction false} WrittenDescribes(handlers: seq<Handler>, f: DomainFact, failing: set<Handler>, row: AuditRow)
    ensures row in Written(handlers, f, failing) ==> AUDIT !in failing && Describes(row, f)
    ensures AUDIT in handlers && AUDIT !in failing && Describes(row, f) ==> row in Written(handlers, f, failing)
  {
    if handlers != [] {
      WrittenDescribes(handlers[1..], f, failing, row);
    }
  }

  /** The audit trail says what happened: its rows are exactly the descriptions of the published events that the
      consumer could write. */
  lemma {:induction false} TrailDescribes(run: seq<Event>, bus: seq<Registration>, row: AuditRow)
    requires forall t :: Registrations(bus, t, AUDIT) == 1
    ensures row in After(run, bus).rows <==> exists e :: e in run && Audited(e) && Describes(row, e.fact)
  {
    if run != [] {
      var init, e := run[..|run| - 1], run[|run| - 1];
      TrailDescribes(init, bus, row);
      assert run == init + [e] && forall x :: x in run <==> x in init || x == e;
      if e.Publish? {
        var handlers := Resolve(Table(bus), e.fact.etype);
        ResolvedOncePerRegistration(bus, e.fact.etype, AUDIT);
        assert AUDIT in multiset(handlers) && AUDIT in handlers;
        WrittenDescribes(handlers, e.fact, e.failing, row);
      }
    }
  }

  lemma {:induction false} CommittedWasPublished(run: seq<Event>, bus: seq<Registration>, id: int)
    ensures id in After(run, bus).committed ==> WasPublished(run, id)
    ensures forall tx :: id in Pending(After(run, bus), tx) ==> WasPublished(run, id)
  {
    if run != [] {
      var init, e := run[..|run| - 1], run[|run| - 1];
      assert run == init + [e];
      CommittedWasPublished(init, bus, id);
      OneMore(init, e, id);
      forall tx | id in Pending(After(run, bus), tx) ensures WasPublished(run, id) {
        if id in Pending(After(init, bus), tx) { } else { assert Publishes(e, id); }
      }
    }
  }

  // Transaction tx published the event at position i and is still open at the end of the run.
  ghost predicate PublishedAt(run: seq<Event>, tx: int, id: int, i: nat) {
    && i < |run| && Publishes(run[i], id) && run[i].tx == tx
    && forall k :: i < k < |run| ==> run[k] != Commit(tx) && run[k] != Rollback(tx)
  }

  // Some transaction published the event and then committed.
  ghost predicate WasCommitted(run: seq<Event>, id: int) {
    exists i: nat, j: nat, tx :: j < |run| && run[j] == Commit(tx) && PublishedAt(run[..j], tx, id, i)
  }

  lemma PublishedAfter(run: seq<Event>, e: Event, tx: int, id: int, i: nat)
    ensures PublishedAt(run + [e], tx, id, i) <==>
              if i < |run| then PublishedAt(run, tx, id, i) && e != Commit(tx) && e != Rollback(tx)
              else i == |run| && Publishes(e, id) && e.tx == tx
  {
    var next := run + [e];
    if PublishedAt(next, tx, id, i) && i < |run| {
      forall k | i < k < |run| ensures run[k] != Commit(tx) && run[k] != Rollback(tx) { assert next[k] == run[k]; }
      assert next[|run|] == e;
    }
  }

  lemma CommittedAfter(run: seq<Event>, e: Event, id: int)
    ensures WasCommitted(run + [e], id) <==>
              WasCommitted(run, id) || (e.Commit? && exists i: nat :: PublishedAt(run, e.tx, id, i))
  {
    var next := run + [e];
    assert next[..|run|] == run && forall j: nat :: j <= |run| ==> next[..j] == run[..j];
    if WasCommitted(run, id) {
      var i: nat, j: nat, tx :| j < |run| && run[j] == Commit(tx) && PublishedAt(run[..j], tx, id, i);
      assert next[j] == Commit(tx) && PublishedAt(next[..j], tx, id, i);
    }
    if e.Commit? && exists i: nat :: PublishedAt(run, e.tx, id, i) {
      var i: nat :| PublishedAt(run, e.tx, id, i);
      assert next[|run|] == Commit(e.tx) && PublishedAt(next[..|run|], e.tx, id, i);
    }
    if WasCommitted(next, id) {
      var i: nat, j: nat, tx :| j < |next| && next[j] == Commit(tx) && PublishedAt(next[..j], tx, id, i);
      if j < |run| { assert run[j] == Commit(tx) && PublishedAt(run[..j], tx, id, i); }
    }
  }

  lemma PendingAfter(run: seq<Event>, e: Event, bus: seq<Registration>, id: int, tx: int)
    requires id in Pending(After(run, bus), tx) <==> exists i: nat :: PublishedAt(run, tx, id, i)
    ensures id in Pending(After(run + [e], bus), tx) <==> exists i: nat :: PublishedAt(run + [e], tx, id, i)
  {
    var next := run + [e];
    assert next[..|run|] == run;
    var w, w' := After(run, bus), After(next, bus);
    assert w' == Step(w, e, bus);
    if id in Pending(w', tx) {
      if Publishes(e, id) && e.tx == tx {
        PublishedAfter(run, e, tx, id, |run|);
        assert PublishedAt(next, tx, id, |run|);
      } else {
        var i: nat :| PublishedAt(run, tx, id, i);
        PublishedAfter(run, e, tx, id, i);
        assert PublishedAt(next, tx, id, i);
      }
    }
    if i: nat :| PublishedAt(next, tx, id, i) {
      PublishedAfter(run, e, tx, id, i);
      if i < |run| { assert PublishedAt(run, tx, id, i); }
    }
  }

  /** The model's committed events are those that some transaction published and then committed. */
  lemma {:induction false} CommittedIff(run: seq<Event>, bus: seq<Registration>, id: int)
    ensures id in After(run, bus).committed <==> WasCommitted(run, id)
    ensures forall tx :: id in Pending(After(run, bus), tx) <==> exists i: nat :: PublishedAt(run, tx, id, i)
  {
    if run != [] {
      var init, e := run[..|run| - 1], run[|run| - 1];
      assert run == init + [e];
      CommittedIff(init, bus, id);
      CommittedAfter(init, e, id);
      forall tx ensures id in Pending(After(run, bus), tx) <==> exists i: nat :: PublishedAt(run, tx, id, i) {
        PendingAfter(init, e, bus, id, tx);
      }
    }
  }

  /** In particular every committed action whose events ask to be audited, and whose audit write succeeded, left exactly
      one row for each. */
  lemma CommittedActionsAreAudited(run: seq<Event>, bus: seq<Registration>, id: int)
    requires FreshIds(run) && forall t :: Registrations(bus, t, AUDIT) == 1
    requires id in After(run, bus).committed
    requires forall e :: e in run && Publishes(e, id) ==> Audited(e)
    ensures CountRows(After(run, bus).rows, id) == 1
  {
    CommittedWasPublished(run, bus, id);
    OneRowPerAuditedEvent(run, bus, id);
  }

  /** A row proves no commit: a rolled-back action keeps its row. */
  lemma RolledBackActionKeepsItsRow(bus: seq<Registration>, f: DomainFact)
    requires (forall t :: Registrations(bus, t, AUDIT) == 1) && f.tenant.Some? && f.descriptor.Some?
    ensures var w := After([Publish(1, f, {}), Rollback(1)], bus);
            CountRows(w.rows, f.id) == 1 && f.id !in w.committed && w.open == map[]
  {
    var run := [Publish(1, f, {}), Rollback(1)];
    OneRowPerAuditedEvent(run, bus, f.id);
    assert Publishes(run[0], f.id) && Audited(run[0]);
    var start := World(map[], {}, []);
    var published := Step(start, run[0], bus);
    assert run[..1] == [run[0]] && [run[0]][..0] == [];
    assert After([], bus) == start;
    assert After([run[0]], bus) == published;
    assert After(run, bus) == Step(published, run[1], bus);
  }

  /** The subscription the application makes: once, to the base type, before anything else. */
  lemma {:induction false} SubscribedOnce(others: seq<Registration>, t: EventType)
    requires forall r :: r in others ==> r.Subscribe? && r.handler != AUDIT
    ensures Registrations([Subscribe(DomainEvent, AUDIT)] + others, t, AUDIT) == 1
  {
    var all := [Subscribe(DomainEvent, AUDIT)] + others;
    if others == [] {
      EverythingIsADomainEvent(t);
      assert all[..0] == [];
    } else {
      assert all[..|all| - 1] == [Subscribe(DomainEvent, AUDIT)] + others[..|others| - 1];
      assert others[|others| - 1] in others;
      SubscribedOnce(others[..|others| - 1], t);
    }
  }

  lemma {:induction false} EverythingIsADomainEvent(t: EventType)
    ensures IsInstance(t, DomainEvent)
  {
    if t.Derived? {
      EverythingIsADomainEvent(t.parent);
    }
  }
}
