/**
 The in-memory store of password-reset tokens.  Entries past their time are deleted only when somebody asks
 for them; to every sequence of callers this looks like a map whose entries vanish on time.
 */
module ResetStore {
  import opened Prelude

  datatype Entry = Entry(value: string, expires: nat)
  type Store = map<string, Entry>

  function Put(s: Store, token: string, value: string, ttl: nat, now: nat): Store {
    s[token := Entry(value, now + ttl)]
  }

  // Reading also deletes the entry when it turns out to be too old.
  function Get(s: Store, token: string, now: nat): (Store, Option<string>) {
    if token !in s then (s, None)
    else if now > s[token].expires then (s - {token}, None)
    else (s, Some(s[token].value))
  }

  function Drop(s: Store, token: string): Store {
    s - {token}
  }

  // ------------------------------------------------------------------ the eager map it stands for

  datatype Call =
    | StoreCall(token: string, value: string, ttl: nat, now: nat)
    | GetCall(token: string, now: nat)
    | DeleteCall(token: string, now: nat)

  function LazyStep(s: Store, c: Call): (Store, Option<string>) {
    match c
    case StoreCall(token, value, ttl, now) => (Put(s, token, value, ttl, now), None)
    case GetCall(token, now) => Get(s, token, now)
    case DeleteCall(token, now) => (Drop(s, token), None)
  }

  function Purge(s: Store, now: nat): Store {
    map k | k in s && now <= s[k].expires :: s[k]
  }

  // The reference: entries leave the map by themselves, and reading is a plain look-up.
  function EagerStep(s: Store, c: Call): (Store, Option<string>) {
    var live := Purge(s, c.now);
    match c
    case StoreCall(token, value, ttl, now) => (live[token := Entry(value, now + ttl)], None)
    case GetCall(token, now) => (live, if token in live then Some(live[token].value) else None)
    case DeleteCall(token, now) => (live - {token}, None)
  }

  function LazyRun(s: Store, calls: seq<Call>): seq<Option<string>>
    decreases |calls|
  {
    if calls == [] then []
    else [LazyStep(s, calls[0]).1] + LazyRun(LazyStep(s, calls[0]).0, calls[1..])
  }

  function EagerRun(s: Store, calls: seq<Call>): seq<Option<string>>
    decreases |calls|
  {
    if calls == [] then []
    else [EagerStep(s, calls[0]).1] + EagerRun(EagerStep(s, calls[0]).0, calls[1..])
  }

  // The clock never runs backwards.
  predicate InOrder(clock: nat, calls: seq<Call>)
    decreases |calls|
  {
    calls == [] || (clock <= calls[0].now && InOrder(calls[0].now, calls[1..]))
  }

  lemma StepsAgree(lazy: Store, eager: Store, clock: nat, c: Call)
    requires eager == Purge(lazy, clock) && clock <= c.now
    ensures LazyStep(lazy, c).1 == EagerStep(eager, c).1
    ensures EagerStep(eager, c).0 == Purge(LazyStep(lazy, c).0, c.now)
  {
    assert Purge(eager, c.now) == Purge(lazy, c.now);
  }

  /** Every sequence of calls is answered alike by the lazy store and by the eagerly expiring map. */
  lemma {:induction false} LazyIsEager(lazy: Store, eager: Store, clock: nat, calls: seq<Call>)
    requires eager == Purge(lazy, clock) && InOrder(clock, calls)
    ensures LazyRun(lazy, calls) == EagerRun(eager, calls)
    decreases |calls|
  {
    if calls != [] {
      StepsAgree(lazy, eager, clock, calls[0]);
      LazyIsEager(LazyStep(lazy, calls[0]).0, EagerStep(eager, calls[0]).0, calls[0].now, calls[1..]);
    }
  }

  // ------------------------------------------------------------------ the stored value

  function Join(tenant: string, user: string): string {
    tenant + ":" + user
  }

  // raw.partition(":"): the text before and after the first colon.
  function Partition(raw: string): (string, string) {
    if raw == "" then ("", "")
    else if raw[0] == ':' then ("", raw[1..])
    else var rest := Partition(raw[1..]); ([raw[0]] + rest.0, rest.1)
  }

  /** The stored text splits back into the two ids exactly when the tenant part holds no colon. */
  lemma {:induction false} PartitionJoin(tenant: string, user: string)
    ensures Partition(Join(tenant, user)) == (tenant, user) <==> ':' !in tenant
  {
    PartitionHead(Join(tenant, user));
    if ':' !in tenant {
      PartitionRestores(tenant, user);
    }
  }

  lemma {:induction false} PartitionHead(raw: string)
    ensures ':' !in Partition(raw).0
  {
    if raw != "" && raw[0] != ':' {
      PartitionHead(raw[1..]);
    }
  }

  lemma {:induction false} PartitionRestores(tenant: string, user: string)
    requires ':' !in tenant
    ensures Partition(Join(tenant, user)) == (tenant, user)
  {
    if tenant != "" {
      assert Join(tenant, user)[1..] == Join(tenant[1..], user);
      assert Join(tenant, user)[0] == tenant[0] && tenant[0] in tenant;
      PartitionRestores(tenant[1..], user);
      assert [tenant[0]] + tenant[1..] == tenant;
    } else {
      assert Join(tenant, user)[1..] == user;
    }
  }

  /** The module-level dictionary, changed in place. */
  class ResetTokens {
    var entries: Store

    constructor ()
      ensures entries == map[]
    {
      entries := map[];
    }

    method StoreReset(token: string, value: string, ttl: nat, now: nat)
      modifies this
      ensures (entries, None) == LazyStep(old(entries), StoreCall(token, value, ttl, now))
    {
      entries := entries[token := Entry(value, now + ttl)];
    }

    method GetReset(token: string, now: nat) returns (value: Option<string>)
      modifies this
      ensures (entries, value) == LazyStep(old(entries), GetCall(token, now))
    {
      if token !in entries {
        return None;
      }
      var entry := entries[token];
      if now > entry.expires {
        entries := entries - {token};
        return None;
      }
      value := Some(entry.value);
    }

    method DeleteReset(token: string, now: nat)
      modifies this
      ensures (entries, None) == LazyStep(old(entries), DeleteCall(token, now))
    {
      entries := entries - {token};
    }
  }
}
