/** Per-tenant module entitlements: the catalog, the grants, and the two queries that combine them. */
module Licensing {
  import opened Prelude

  datatype Module = Module(id: int, code: string, isActive: bool)

  datatype Grant = Grant(tenant: string, moduleId: int, enabled: bool, enabledAt: Option<nat>, expiresAt: Option<nat>)

  datatype Tables = Tables(modules: set<Module>, grants: set<Grant>)

  datatype Change = Change(tenant: string, code: string, enabled: bool, at: nat)

  const CORE: set<string> := {"AUTH"}

  // The unique constraints: module id, module code, and (tenant, module).
  ghost predicate Unique(t: Tables) {
    && (forall m1, m2 :: m1 in t.modules && m2 in t.modules && (m1.id == m2.id || m1.code == m2.code) ==> m1 == m2)
    && (forall g1, g2 :: g1 in t.grants && g2 in t.grants && g1.tenant == g2.tenant && g1.moduleId == g2.moduleId
          ==> g1 == g2)
  }

  predicate Joined(m: Module, g: Grant, tenant: string) {
    g.moduleId == m.id && g.tenant == tenant
  }

  predicate Lapsed(g: Grant, now: nat) {
    g.expiresAt.Some? && g.expiresAt.value < now
  }

  // ------------------------------------------------------------------ what the service computes

  function EnabledQuery(t: Tables, tenant: string): set<string> {
    set m, g | m in t.modules && g in t.grants && Joined(m, g, tenant) && g.enabled && m.isActive :: m.code
  }

  function ExpiredQuery(t: Tables, tenant: string, now: nat): set<string> {
    set m, g | m in t.modules && g in t.grants && Joined(m, g, tenant) && Lapsed(g, now) :: m.code
  }

  // _compute_enabled, whose two queries may see two states of the tables.
  function Compute(first: Tables, second: Tables, tenant: string, now: nat): set<string> {
    EnabledQuery(first, tenant) - ExpiredQuery(second, tenant, now) + CORE
  }

  // set_module, once its transaction is visible to others.
  ghost function SetModule(t: Tables, c: Change): Result<Tables, string> {
    if m :| m in t.modules && m.code == c.code then
      if g :| g in t.grants && g.tenant == c.tenant && g.moduleId == m.id then
        Ok(t.(grants := t.grants - {g}
            + {g.(enabled := c.enabled, enabledAt := if c.enabled then Some(c.at) else g.enabledAt)}))
      else
        Ok(t.(grants := t.grants + {Grant(c.tenant, m.id, c.enabled, if c.enabled then Some(c.at) else None, None)}))
    else Err("not in catalog")
  }

  ghost function Apply(t: Tables, c: Change): Tables {
    var r := SetModule(t, c);
    if r.Ok? then r.value else t
  }

  ghost function ApplyAll(t: Tables, changes: seq<Change>): Tables
    decreases |changes|
  {
    if changes == [] then t else ApplyAll(Apply(t, changes[0]), changes[1..])
  }

  // ------------------------------------------------------------------ what it is meant to be

  predicate Live(m: Module, g: Grant, tenant: string, now: nat) {
    Joined(m, g, tenant) && g.enabled && m.isActive && !Lapsed(g, now)
  }

  // The entitlement set at an instant: one condition per grant, and the core modules.
  function Entitled(t: Tables, tenant: string, now: nat): set<string> {
    (set m, g | m in t.modules && g in t.grants && Live(m, g, tenant, now) :: m.code) + CORE
  }

  /** In plain terms: the core module, and each module of the catalog that is active and for which the tenant has an
      enabled grant whose expiry date, if any, has not passed. */
  lemma EntitledMeans(t: Tables, tenant: string, code: string, now: nat)
    ensures code in Entitled(t, tenant, now) <==>
              || code == "AUTH"
              || exists m, g :: m in t.modules && g in t.grants && m.code == code && m.isActive
                   && g.tenant == tenant && g.moduleId == m.id && g.enabled
                   && (g.expiresAt.Some? ==> now <= g.expiresAt.value)
  {
    if m, g :| m in t.modules && g in t.grants && m.code == code && m.isActive && g.tenant == tenant
               && g.moduleId == m.id && g.enabled && (g.expiresAt.Some? ==> now <= g.expiresAt.value) {
      assert Live(m, g, tenant, now);
    }
    if code in Entitled(t, tenant, now) && code != "AUTH" {
      var m, g :| m in t.modules && g in t.grants && Live(m, g, tenant, now) && m.code == code;
      assert m.isActive && g.enabled && (g.expiresAt.Some? ==> now <= g.expiresAt.value);
    }
  }

  /** Two queries and a set difference equal one filter per row, given the unique constraints. */
  lemma ComputeIsEntitled(t: Tables, tenant: string, now: nat)
    requires Unique(t)
    ensures Compute(t, t, tenant, now) == Entitled(t, tenant, now)
  {
  }

  /** Without the constraints they differ: here one code has a live and a lapsed grant. */
  lemma UniquenessIsNeeded()
    ensures exists t: Tables :: Compute(t, t, "t", 5) != Entitled(t, "t", 5)
  {
    var m := Module(1, "COURSES", true);
    var live, lapsed := Grant("t", 1, true, None, None), Grant("t", 1, true, None, Some(0));
    var t := Tables({m}, {live, lapsed});
    assert Live(m, live, "t", 5) && "COURSES" in Entitled(t, "t", 5);
    assert Joined(m, lapsed, "t") && Lapsed(lapsed, 5) && "COURSES" in ExpiredQuery(t, "t", 5);
    assert "COURSES" !in Compute(t, t, "t", 5);
  }

  /** The constraints survive `set_module`, which only ever rewrites the one grant it found or adds the first. */
  lemma SetModuleKeepsUnique(t: Tables, c: Change)
    requires Unique(t)
    ensures Unique(Apply(t, c))
    ensures Apply(t, c).modules == t.modules
  {
  }

  // With unique rows there is only one module and at most one grant to find.
  lemma SetModuleFinds(t: Tables, c: Change, m: Module)
    requires Unique(t) && m in t.modules && m.code == c.code
    ensures forall g :: g in t.grants && g.tenant == c.tenant && g.moduleId == m.id ==>
              SetModule(t, c) == Ok(t.(grants := t.grants - {g}
                + {g.(enabled := c.enabled, enabledAt := if c.enabled then Some(c.at) else g.enabledAt)}))
    ensures (forall g :: g in t.grants ==> !(g.tenant == c.tenant && g.moduleId == m.id)) ==>
              SetModule(t, c) == Ok(t.(grants := t.grants
                + {Grant(c.tenant, m.id, c.enabled, if c.enabled then Some(c.at) else None, None)}))
  {
  }

  /** What `set_module` decides: afterwards the module is granted to that tenant iff it was asked to be enabled,
      is active and has not lapsed, and no other tenant's or other module's entitlement moved. */
  lemma SetModuleDecides(t: Tables, c: Change, tenant: string, code: string, now: nat)
    requires Unique(t)
    ensures SetModule(t, c).Ok? <==> exists m :: m in t.modules && m.code == c.code
    ensures (tenant != c.tenant || code != c.code) ==>
              (code in Entitled(Apply(t, c), tenant, now) <==> code in Entitled(t, tenant, now))
    ensures forall m :: m in t.modules && m.code == c.code && c.code !in CORE ==>
              (c.code in Entitled(Apply(t, c), c.tenant, now) <==>
               (c.enabled && m.isActive && c.code !in ExpiredQuery(t, c.tenant, now)))
  {
    if m :| m in t.modules && m.code == c.code {
      var t' := Apply(t, c);
      SetModuleKeepsUnique(t, c);
      SameExpired(t, c, c.tenant, now);
      ComputeIsEntitled(t, tenant, now);
      ComputeIsEntitled(t', tenant, now);
      ComputeIsEntitled(t', c.tenant, now);
      SameExpired(t, c, tenant, now);
      EnabledAfter(t, c, m);
      if tenant != c.tenant || code != c.code {
        OthersEnabled(t, c, tenant, code);
      }
    }
  }

  lemma EnabledAfter(t: Tables, c: Change, m: Module)
    requires Unique(t) && m in t.modules && m.code == c.code
    ensures c.code in EnabledQuery(Apply(t, c), c.tenant) <==> c.enabled && m.isActive
  {
    var t' := Apply(t, c);
    SetModuleKeepsUnique(t, c);
    var g :| g in t'.grants && Joined(m, g, c.tenant) && g.enabled == c.enabled;
  }

  lemma OthersEnabled(t: Tables, c: Change, tenant: string, code: string)
    requires Unique(t) && (tenant != c.tenant || code != c.code)
    ensures code in EnabledQuery(Apply(t, c), tenant) <==> code in EnabledQuery(t, tenant)
  {
    var t' := Apply(t, c);
    if code in EnabledQuery(t, tenant) {
      var m, g :| m in t.modules && g in t.grants && Joined(m, g, tenant) && g.enabled && m.isActive && m.code == code;
      assert g in t'.grants;
    }
    if code in EnabledQuery(t', tenant) {
      var m, g :| m in t'.modules && g in t'.grants && Joined(m, g, tenant)
        && g.enabled && m.isActive && m.code == code;
      assert g in t.grants;
    }
  }

  // `set_module` never touches an expiry date.
  lemma SameExpired(t: Tables, c: Change, tenant: string, now: nat)
    ensures ExpiredQuery(Apply(t, c), tenant, now) == ExpiredQuery(t, tenant, now)
  {
    var t' := Apply(t, c);
    forall code
      ensures code in ExpiredQuery(t', tenant, now) <==> code in ExpiredQuery(t, tenant, now)
    {
      if code in ExpiredQuery(t, tenant, now) {
        var m, g :| m in t.modules && g in t.grants && Joined(m, g, tenant) && Lapsed(g, now) && m.code == code;
        if g !in t'.grants {
          var g' :| g' in t'.grants && g'.tenant == g.tenant
            && g'.moduleId == g.moduleId && g'.expiresAt == g.expiresAt;
          assert Joined(m, g', tenant) && Lapsed(g', now);
        }
      }
      if code in ExpiredQuery(t', tenant, now) {
        var m, g :| m in t'.modules && g in t'.grants && Joined(m, g, tenant) && Lapsed(g, now) && m.code == code;
        if g !in t.grants {
          var g' :| g' in t.grants && g'.tenant == g.tenant && g'.moduleId == g.moduleId && g'.expiresAt == g.expiresAt;
          assert Joined(m, g', tenant) && Lapsed(g', now);
        }
      }
    }
  }

  /** Any number of `set_module` commits between the two queries leaves the result what it was at the first. */
  lemma {:induction false} BetweenTheQueries(t: Tables, changes: seq<Change>, tenant: string, now: nat)
    requires Unique(t)
    ensures Compute(t, ApplyAll(t, changes), tenant, now) == Entitled(t, tenant, now)
    decreases |changes|
  {
    SameExpiredAll(t, changes, tenant, now);
    ComputeIsEntitled(t, tenant, now);
  }

  lemma {:induction false} SameExpiredAll(t: Tables, changes: seq<Change>, tenant: string, now: nat)
    ensures ExpiredQuery(ApplyAll(t, changes), tenant, now) == ExpiredQuery(t, tenant, now)
    decreases |changes|
  {
    if changes != [] {
      SameExpired(t, changes[0], tenant, now);
      SameExpiredAll(Apply(t, changes[0]), changes[1..], tenant, now);
    }
  }

  // A live grant of a licensed module whose expiry date the clock passes between two instants.
  ghost predicate ExpiresBetween(t: Tables, tenant: string, earlier: nat, later: nat) {
    exists m, g :: m in t.modules && g in t.grants && Live(m, g, tenant, earlier) && Lapsed(g, later) && m.code !in CORE
  }

  // Each grant that has an expiry date has the same one in both.
  ghost predicate SameExpiries(a: Tables, b: Tables, tenant: string) {
    forall now: nat :: ExpiredQuery(a, tenant, now) == ExpiredQuery(b, tenant, now)
  }

  // Between tables `a` judged at `early` and tables `b` judged at `late` no live grant lapsed, and every licensed
  // module that has not lapsed by then is switched the same way.
  ghost predicate NothingHappened(a: Tables, early: nat, b: Tables, late: nat, tenant: string) {
    && !ExpiresBetween(a, tenant, early, late)
    && forall code :: code !in CORE && code !in ExpiredQuery(b, tenant, late) ==>
         (code in EnabledQuery(a, tenant) <==> code in EnabledQuery(b, tenant))
  }

  // The same, whichever of the two instants is the earlier.
  ghost predicate Reflects(a: Tables, clock: nat, b: Tables, now: nat, tenant: string) {
    if clock <= now then NothingHappened(a, clock, b, now, tenant) else NothingHappened(b, now, a, clock, tenant)
  }

  lemma LiveIsEnabled(t: Tables, tenant: string, code: string, now: nat)
    requires Unique(t) && code !in CORE
    ensures code in Entitled(t, tenant, now) <==>
              code in EnabledQuery(t, tenant) && code !in ExpiredQuery(t, tenant, now)
  {
    ComputeIsEntitled(t, tenant, now);
  }

  lemma LapsedForGood(t: Tables, tenant: string, code: string, early: nat, late: nat)
    requires early <= late && code in ExpiredQuery(t, tenant, early)
    ensures code in ExpiredQuery(t, tenant, late)
  {
    var m, g :| m in t.modules && g in t.grants && Joined(m, g, tenant) && Lapsed(g, early) && m.code == code;
    assert Lapsed(g, late);
  }

  // A licensed module lapses between two instants iff it is entitled at the first and lapsed at the second.
  lemma ExpiresBetweenIff(t: Tables, tenant: string, early: nat, late: nat)
    requires Unique(t)
    ensures ExpiresBetween(t, tenant, early, late) <==>
              exists code :: code !in CORE && code in Entitled(t, tenant, early)
                             && code in ExpiredQuery(t, tenant, late)
  {
    if ExpiresBetween(t, tenant, early, late) {
      var m, g :| m in t.modules && g in t.grants && Live(m, g, tenant, early) && Lapsed(g, late) && m.code !in CORE;
      assert m.code in Entitled(t, tenant, early) && m.code in ExpiredQuery(t, tenant, late);
    }
    if code :| code !in CORE && code in Entitled(t, tenant, early) && code in ExpiredQuery(t, tenant, late) {
      var m, g :| m in t.modules && g in t.grants && Live(m, g, tenant, early) && m.code == code;
      var m', g' :| m' in t.modules && g' in t.grants && Joined(m', g', tenant) && Lapsed(g', late) && m'.code == code;
      assert m == m' && g == g';
    }
  }

  lemma EntitledAlikeInOrder(a: Tables, early: nat, b: Tables, late: nat, tenant: string)
    requires Unique(a) && Unique(b) && SameExpiries(a, b, tenant) && early <= late
    ensures Entitled(a, tenant, early) == Entitled(b, tenant, late) <==> NothingHappened(a, early, b, late, tenant)
  {
    assert ExpiredQuery(a, tenant, early) == ExpiredQuery(b, tenant, early);
    assert ExpiredQuery(a, tenant, late) == ExpiredQuery(b, tenant, late);
    ExpiresBetweenIff(a, tenant, early, late);
    forall code | code !in CORE
      ensures code in Entitled(a, tenant, early) <==>
                code in EnabledQuery(a, tenant) && code !in ExpiredQuery(b, tenant, early)
      ensures code in Entitled(b, tenant, late) <==>
                code in EnabledQuery(b, tenant) && code !in ExpiredQuery(b, tenant, late)
      ensures code in ExpiredQuery(b, tenant, early) ==> code in ExpiredQuery(b, tenant, late)
    {
      LiveIsEnabled(a, tenant, code, early);
      LiveIsEnabled(b, tenant, code, late);
      if code in ExpiredQuery(b, tenant, early) { LapsedForGood(b, tenant, code, early, late); }
    }
    if NothingHappened(a, early, b, late, tenant) {
      forall code ensures code in Entitled(a, tenant, early) <==> code in Entitled(b, tenant, late) {
        if code !in CORE && code in ExpiredQuery(b, tenant, late) {
          assert code !in Entitled(a, tenant, early);
        }
      }
    }
  }

  /** When tables judged at one instant say the same as tables judged at another, given that nobody rewrote an expiry
      date: exactly when no live grant lapsed in between and no module that still counts was switched. */
  lemma EntitledAlikeIff(a: Tables, clock: nat, b: Tables, now: nat, tenant: string)
    requires Unique(a) && Unique(b) && SameExpiries(a, b, tenant)
    ensures Entitled(a, tenant, clock) == Entitled(b, tenant, now) <==> Reflects(a, clock, b, now, tenant)
  {
    if clock <= now {
      EntitledAlikeInOrder(a, clock, b, now, tenant);
    } else {
      EntitledAlikeInOrder(b, now, a, clock, tenant);
    }
  }

  /** The clock is read before the first query runs.  The result is the entitlement set of the instant of the
      query exactly when no live grant expires between the two. */
  lemma ClockReadEarly(t: Tables, tenant: string, earlier: nat, later: nat)
    requires Unique(t) && earlier <= later
    ensures Compute(t, t, tenant, earlier) == Entitled(t, tenant, later) <==> !ExpiresBetween(t, tenant, earlier, later)
  {
    ComputeIsEntitled(t, tenant, earlier);
    if ExpiresBetween(t, tenant, earlier, later) {
      var m, g :| m in t.modules && g in t.grants && Live(m, g, tenant, earlier) && Lapsed(g, later) && m.code !in CORE;
      assert m.code in Entitled(t, tenant, earlier) && m.code !in Entitled(t, tenant, later);
    } else {
      forall code ensures code in Entitled(t, tenant, earlier) <==> code in Entitled(t, tenant, later) {
        if code in Entitled(t, tenant, earlier) && code !in CORE {
          var m, g :| m in t.modules && g in t.grants && Live(m, g, tenant, earlier) && m.code == code;
          assert Live(m, g, tenant, later);
        }
        if code in Entitled(t, tenant, later) && code !in CORE {
          var m, g :| m in t.modules && g in t.grants && Live(m, g, tenant, later) && m.code == code;
          assert Live(m, g, tenant, earlier);
        }
      }
    }
  }

  /** And one may: a grant live when the clock is read and lapsed when the query runs is still reported. */
  lemma ClockReadTooEarly()
    ensures exists t, earlier, later :: Unique(t) && earlier <= later && ExpiresBetween(t, "t", earlier, later)
              && Compute(t, t, "t", earlier) != Entitled(t, "t", later)
  {
    var m, g := Module(1, "COURSES", true), Grant("t", 1, true, None, Some(5));
    var t := Tables({m}, {g});
    assert Live(m, g, "t", 5) && Lapsed(g, 6);
    ClockReadEarly(t, "t", 5, 6);
    assert ExpiresBetween(t, "t", 5, 6);
  }
}
