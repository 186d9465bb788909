/** The in-process event bus, and the audit consumer subscribed to the base of every event type. */
module EventBus {
  import opened Prelude

  // Event classes derive from one base.
  datatype EventType = DomainEvent | Derived(name: string, parent: EventType)

  type Handler = int

  predicate IsInstance(t: EventType, ancestor: EventType) {
    t == ancestor || (t.Derived? && IsInstance(t.parent, ancestor))
  }

  // The handlers of one event type, in a dictionary that keeps the order of first subscription.
  datatype Slot = Slot(etype: EventType, handlers: seq<Handler>)

  datatype Registration = Subscribe(etype: EventType, handler: Handler) | Clear

  function Append(table: seq<Slot>, etype: EventType, handler: Handler): seq<Slot> {
    if table == [] then [Slot(etype, [handler])]
    else if table[0].etype == etype then [Slot(etype, table[0].handlers + [handler])] + table[1..]
    else [table[0]] + Append(table[1..], etype, handler)
  }

  function Table(history: seq<Registration>): seq<Slot> {
    if history == [] then []
    else
      match history[|history| - 1]
      case Clear => []
      case Subscribe(etype, handler) => Append(Table(history[..|history| - 1]), etype, handler)
  }

  function Resolve(table: seq<Slot>, t: EventType): seq<Handler> {
    if table == [] then []
    else (if IsInstance(t, table[0].etype) then table[0].handlers else []) + Resolve(table[1..], t)
  }

  // How often a handler was registered for the event's type or an ancestor since the last clear.
  function Registrations(history: seq<Registration>, t: EventType, handler: Handler): nat {
    if history == [] then 0
    else
      match history[|history| - 1]
      case Clear => 0
      case Subscribe(etype, h) =>
        Registrations(history[..|history| - 1], t, handler) + (if h == handler && IsInstance(t, etype) then 1 else 0)
  }

  lemma ResolveCons(slot: Slot, rest: seq<Slot>, t: EventType, handler: Handler)
    ensures multiset(Resolve([slot] + rest, t))[handler]
         == (if IsInstance(t, slot.etype) then multiset(slot.handlers)[handler] else 0)
            + multiset(Resolve(rest, t))[handler]
  {
    assert ([slot] + rest)[1..] == rest;
  }

  lemma {:induction false} AppendResolves(table: seq<Slot>, etype: EventType, added: Handler,
                                         t: EventType, handler: Handler)
    ensures multiset(Resolve(Append(table, etype, added), t))[handler]
         == multiset(Resolve(table, t))[handler] + (if added == handler && IsInstance(t, etype) then 1 else 0)
  {
    if table == [] {
      ResolveCons(Slot(etype, [added]), [], t, handler);
      assert [Slot(etype, [added])] + [] == Append(table, etype, added);
    } else {
      var rest := table[1..];
      assert [table[0]] + rest == table;
      ResolveCons(table[0], rest, t, handler);
      if table[0].etype == etype {
        ResolveCons(Slot(etype, table[0].handlers + [added]), rest, t, handler);
      } else {
        ResolveCons(table[0], Append(rest, etype, added), t, handler);
        AppendResolves(rest, etype, added, t, handler);
      }
    }
  }

  // Where a subscription goes: into its type's slot, or into a new one at the end.
  lemma {:induction false} AppendInPlace(table: seq<Slot>, etype: EventType, handler: Handler, i: nat)
    requires i <= |table| && forall k :: 0 <= k < i ==> table[k].etype != etype
    requires i < |table| ==> table[i].etype == etype
    ensures Append(table, etype, handler)
         == if i < |table| then table[i := Slot(etype, table[i].handlers + [handler])]
            else table + [Slot(etype, [handler])]
  {
    if i > 0 {
      var rest := table[1..];
      AppendInPlace(rest, etype, handler, i - 1);
      assert Append(table, etype, handler) == [table[0]] + Append(rest, etype, handler);
    }
  }

  /** Publishing reaches each handler exactly once per registration under the event's type or an ancestor of it,
      whatever the order of the subscriptions. */
  lemma {:induction false} ResolvedOncePerRegistration(history: seq<Registration>, t: EventType, handler: Handler)
    ensures multiset(Resolve(Table(history), t))[handler] == Registrations(history, t, handler)
  {
    if history != [] && history[|history| - 1].Subscribe? {
      var init, last := history[..|history| - 1], history[|history| - 1];
      ResolvedOncePerRegistration(init, t, handler);
      AppendResolves(Table(init), last.etype, last.handler, t, handler);
    }
  }

  lemma {:induction false} ResolveSnoc(table: seq<Slot>, slot: Slot, t: EventType)
    ensures Resolve(table + [slot], t)
         == Resolve(table, t) + (if IsInstance(t, slot.etype) then slot.handlers else [])
  {
    if table != [] {
      assert (table + [slot])[1..] == table[1..] + [slot];
      ResolveSnoc(table[1..], slot, t);
    }
  }

  function Failing(handlers: seq<Handler>, fails: Handler -> bool): seq<Handler> {
    if handlers == [] then []
    else Failing(handlers[..|handlers| - 1], fails)
         + (if fails(handlers[|handlers| - 1]) then [handlers[|handlers| - 1]] else [])
  }

  // ------------------------------------------------------------------ who runs

  // The event's type, its parent, its parent's parent, up to the base.
  ghost function Chain(t: EventType): seq<EventType> {
    match t
    case DomainEvent => [DomainEvent]
    case Derived(_, parent) => [t] + Chain(parent)
  }

  lemma {:induction false} InstanceOfChain(t: EventType, ancestor: EventType)
    ensures IsInstance(t, ancestor) <==> ancestor in Chain(t)
  {
    if t.Derived? {
      InstanceOfChain(t.parent, ancestor);
    }
  }

  // The handler is subscribed under a type of the chain, and nothing was cleared since.
  ghost predicate SubscribedFor(history: seq<Registration>, t: EventType, handler: Handler) {
    exists i :: 0 <= i < |history| && history[i].Subscribe? && history[i].handler == handler
      && history[i].etype in Chain(t) && forall k :: i < k < |history| ==> !history[k].Clear?
  }

  lemma {:induction false} RegisteredIff(history: seq<Registration>, t: EventType, handler: Handler)
    ensures Registrations(history, t, handler) > 0 <==> SubscribedFor(history, t, handler)
  {
    if history != [] {
      var init, last := history[..|history| - 1], history[|history| - 1];
      RegisteredIff(init, t, handler);
      if SubscribedFor(init, t, handler) && last.Subscribe? {
        var i :| 0 <= i < |init| && init[i].Subscribe? && init[i].handler == handler && init[i].etype in Chain(t)
                 && forall k :: i < k < |init| ==> !init[k].Clear?;
        assert history[i] == init[i];
        assert SubscribedFor(history, t, handler);
      }
      if SubscribedFor(history, t, handler) {
        var i :| 0 <= i < |history| && history[i].Subscribe? && history[i].handler == handler
                 && history[i].etype in Chain(t) && forall k :: i < k < |history| ==> !history[k].Clear?;
        if i < |init| {
          assert init[i] == history[i] && forall k :: i < k < |init| ==> init[k] == history[k];
          assert SubscribedFor(init, t, handler);
        }
      }
      if last.Subscribe? { InstanceOfChain(t, last.etype); }
    }
  }

  /** An event reaches a handler exactly when the handler is subscribed to the event's own type or to a type it derives
      from: a subscription to any other type, a derived or an unrelated one, never runs. */
  lemma ReachedIff(history: seq<Registration>, t: EventType, handler: Handler)
    ensures handler in Resolve(Table(history), t) <==> SubscribedFor(history, t, handler)
  {
    ResolvedOncePerRegistration(history, t, handler);
    RegisteredIff(history, t, handler);
    assert handler in Resolve(Table(history), t) <==> handler in multiset(Resolve(Table(history), t));
  }

  /** Exactly the runs that fail are logged. */
  lemma {:induction false} FailuresLogged(handlers: seq<Handler>, fails: Handler -> bool, handler: Handler)
    ensures multiset(Failing(handlers, fails))[handler] == if fails(handler) then multiset(handlers)[handler] else 0
  {
    if handlers != [] {
      var init, last := handlers[..|handlers| - 1], handlers[|handlers| - 1];
      FailuresLogged(init, fails, handler);
      assert handlers == init + [last];
    }
  }

  /** The bus, whose dictionary subscriptions change in place. */
  class Bus {
    var table: seq<Slot>
    ghost var history: seq<Registration>

    ghost predicate Valid()
      reads this
    {
      table == Table(history)
    }

    constructor ()
      ensures Valid() && history == []
    {
      table, history := [], [];
    }

    method SubscribeTo(etype: EventType, handler: Handler)
      requires Valid()
      modifies this
      ensures Valid() && history == old(history) + [Subscribe(etype, handler)]
    {
      var i := 0;
      while i < |table| && table[i].etype != etype
        invariant 0 <= i <= |table|
        invariant forall k :: 0 <= k < i ==> table[k].etype != etype
      {
        i := i + 1;
      }
      AppendInPlace(table, etype, handler, i);
      if i < |table| {
        table := table[i := Slot(etype, table[i].handlers + [handler])];
      } else {
        table := table + [Slot(etype, [handler])];
      }
      history := history + [Subscribe(etype, handler)];
      assert history[..|history| - 1] == old(history);
    }

    method ClearAll()
      modifies this
      ensures Valid() && history == old(history) + [Clear]
    {
      table := [];
      history := history + [Clear];
    }

    method ResolveFor(t: EventType) returns (handlers: seq<Handler>)
      ensures handlers == Resolve(table, t)
    {
      handlers := [];
      for i := 0 to |table|
        invariant handlers == Resolve(table[..i], t)
      {
        ResolveSnoc(table[..i], table[i], t);
        assert table[..i] + [table[i]] == table[..i + 1];
        if IsInstance(t, table[i].etype) {
          handlers := handlers + table[i].handlers;
        }
      }
      assert table[..|table|] == table;
    }

    /** Every resolved handler runs, whichever of them fail; the failures are logged and never raised. */
    method Publish(t: EventType, fails: Handler -> bool) returns (ran: seq<Handler>, logged: seq<Handler>)
      requires Valid()
      ensures ran == Resolve(table, t) && logged == Failing(ran, fails)
      ensures forall h :: multiset(ran)[h] == Registrations(history, t, h)
      ensures forall h :: h in ran <==> SubscribedFor(history, t, h)
      ensures forall h :: multiset(logged)[h] == if fails(h) then multiset(ran)[h] else 0
    {
      var handlers := ResolveFor(t);
      ran, logged := [], [];
      for i := 0 to |handlers|
        invariant ran == handlers[..i]
        invariant logged == Failing(handlers[..i], fails)
      {
        assert handlers[..i + 1][..i] == handlers[..i];
        ran := ran + [handlers[i]];
        if fails(handlers[i]) {
          logged := logged + [handlers[i]];
        }
      }
      assert handlers[..|handlers|] == handlers;
      forall h { ResolvedOncePerRegistration(history, t, h); }
      forall h { ReachedIff(history, t, h); }
      forall h { FailuresLogged(handlers, fails, h); }
    }
  }
}
