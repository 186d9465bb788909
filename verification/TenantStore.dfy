/**
 Tenant isolation over whole runs: pooled connections, interleaved transactions, row-level security
 on every statement, and the repository's own filter on top.
 */
module TenantStore {
  import opened Prelude
  import opened RowSecurity

  // A row is identified by its tenant and its id, so uniqueness checks never relate two tenants.
  datatype Key = Key(tenant: TenantId, id: int)
  datatype Row = Row(deletedAt: Option<int>, columns: map<string, string>)
  type Rows = map<Key, Row>

  // A condition or an assignment may look at the row at hand and, through sub-selects, at whatever rows are visible.
  type Condition = (Rows, Key, Row) -> bool
  type Assignment = (Rows, Key, Row) -> (TenantId, Row)

  datatype Statement =
    | Select(where: Condition)
    | Insert(key: Key, row: Row)
    | Update(where: Condition, assign: Assignment)
    | Delete(where: Condition)

  // `Denied`: the row policy refused a written row.  `Aborted`: an earlier statement failed.
  datatype Output = Found(rows: Rows) | Affected(count: nat) | Denied | Aborted | Begun | Ended(committed: bool)

  // The writes a transaction has not committed yet; `None` marks a deleted row.
  datatype Tx = Tx(writes: map<Key, Option<Row>>, failed: bool)

  // A request's unit of work with the scope that get_db binds for it.
  datatype Request = Request(n: nat, tenant: Option<TenantId>, bypass: bool)

  datatype Event =
    | Begin(req: Request, conn: nat)
    | Exec(req: Request, stmt: Statement)
    | Commit(req: Request)
    | Rollback(req: Request)

  datatype OpenTx = OpenTx(conn: nat, tx: Tx)

  datatype World = World(enabled: bool, committed: Rows, pool: map<nat, Settings>, open: map<Request, OpenTx>)

  function Overlay(base: Rows, writes: map<Key, Option<Row>>): Rows {
    map k | k in base.Keys + writes.Keys && (k in writes ==> writes[k].Some?)
      :: if k in writes then writes[k].value else base[k]
  }

  function VisibleRows(s: Settings, rows: Rows): Rows {
    map k | k in rows && Visible(s, k.tenant) :: rows[k]
  }

  function Matching(vis: Rows, where: Condition): set<Key> {
    set k | k in vis && where(vis, k, vis[k])
  }

  ghost function Target(vis: Rows, assign: Assignment, k: Key): Key
    requires k in vis
  {
    Key(assign(vis, k, vis[k]).0, k.id)
  }

  ghost function Targets(vis: Rows, hit: set<Key>, assign: Assignment): set<Key>
    requires hit <= vis.Keys
  {
    set k | k in hit :: Target(vis, assign, k)
  }

  // The new versions an UPDATE writes, under the tenant each row then carries.
  ghost function Rewritten(vis: Rows, hit: set<Key>, assign: Assignment): map<Key, Option<Row>>
    requires hit <= vis.Keys
  {
    map k' | k' in Targets(vis, hit, assign) ::
      var k :| k in hit && Target(vis, assign, k) == k';
      Some(assign(vis, k, vis[k]).1)
  }

  ghost function Erased(hit: set<Key>): map<Key, Option<Row>> {
    map k | k in hit :: None
  }

  // One statement.  `vis` is what the policy's USING clause leaves of the transaction's view.
  ghost function Execute(s: Settings, vis: Rows, tx: Tx, stmt: Statement): (Output, Tx)
  {
    if tx.failed then (Aborted, tx) else
    match stmt
    case Select(where) =>
      (Found(map k | k in Matching(vis, where) :: vis[k]), tx)
    case Insert(key, row) =>
      if Visible(s, key.tenant) then (Affected(1), tx.(writes := tx.writes + map[key := Some(row)]))
      else (Denied, tx.(failed := true))
    case Delete(where) =>
      var hit := Matching(vis, where);
      (Affected(|hit|), tx.(writes := tx.writes + Erased(hit)))
    case Update(where, assign) =>
      var hit := Matching(vis, where);
      if forall k :: k in hit ==> Visible(s, Target(vis, assign, k).tenant)
      then (Affected(|hit|), tx.(writes := tx.writes + (Erased(hit) + Rewritten(vis, hit, assign))))
      else (Denied, tx.(failed := true))
  }

  function SettingsOf(w: World, conn: nat): Settings {
    if conn in w.pool then w.pool[conn] else FRESH
  }

  ghost predicate Busy(w: World, conn: nat) {
    exists r :: r in w.open && w.open[r].conn == conn
  }

  // Which events can happen: a new request takes a connection nobody uses, the others continue an open one.
  ghost predicate Enabled(w: World, e: Event) {
    if e.Begin? then e.req !in w.open && !Busy(w, e.conn) else e.req in w.open
  }

  ghost function Step(w: World, e: Event): (World, Output)
    requires Enabled(w, e)
  {
    match e
    case Begin(req, conn) =>
      var bound := BindRls(SettingsOf(w, conn), w.enabled, req.tenant, req.bypass);
      (w.(pool := w.pool[conn := bound], open := w.open[req := OpenTx(conn, Tx(map[], false))]), Begun)
    case Exec(req, stmt) =>
      var o := w.open[req];
      var s := SettingsOf(w, o.conn);
      var (out, tx) := Execute(s, VisibleRows(s, Overlay(w.committed, o.tx.writes)), o.tx, stmt);
      (w.(open := w.open[req := o.(tx := tx)]), out)
    case Commit(req) =>
      var o := w.open[req];
      // Committing a transaction in which a statement failed rolls it back.
      (Released(w, req).(committed := if o.tx.failed then w.committed else Overlay(w.committed, o.tx.writes)),
       Ended(!o.tx.failed))
    case Rollback(req) =>
      (Released(w, req), Ended(false))
  }

  function Released(w: World, req: Request): World
    requires req in w.open
  {
    var conn := w.open[req].conn;
    w.(pool := w.pool[conn := EndTransaction(SettingsOf(w, conn))], open := w.open - {req})
  }

  // ------------------------------------------------------------------ invariant

  ghost predicate OpenOk(w: World, r: Request)
    requires r in w.open
  {
    && Scoped(SettingsOf(w, w.open[r].conn), w.enabled, r.tenant, r.bypass)
    && Idle(EndTransaction(SettingsOf(w, w.open[r].conn)))
    && (!r.bypass ==> forall k :: k in w.open[r].tx.writes ==> r.tenant == Some(k.tenant))
  }

  // Between transactions no connection remembers a tenant or a bypass; inside one, it is scoped to its request,
  // whose pending writes, unless it bypasses the policy, are all its own tenant's; no two requests share a connection.
  ghost predicate Inv(w: World) {
    && (forall c: nat :: Busy(w, c) || Idle(SettingsOf(w, c)))
    && (forall r :: r in w.open ==> OpenOk(w, r))
    && (forall r1, r2 :: r1 in w.open && r2 in w.open && w.open[r1].conn == w.open[r2].conn ==> r1 == r2)
  }

  lemma UpdateStaysHome(s: Settings, vis: Rows, hit: set<Key>, assign: Assignment,
                        enabled: bool, t: Option<TenantId>)
    requires Scoped(s, enabled, t, false)
    requires hit <= vis.Keys
    requires forall k :: k in hit ==> Visible(s, Target(vis, assign, k).tenant)
    ensures forall k :: k in Rewritten(vis, hit, assign) ==> t == Some(k.tenant)
  {
  }

  lemma ExecuteWritesOwn(s: Settings, rows: Rows, tx: Tx, stmt: Statement, enabled: bool, t: Option<TenantId>)
    requires Scoped(s, enabled, t, false)
    requires forall k :: k in tx.writes ==> t == Some(k.tenant)
    ensures forall k :: k in Execute(s, VisibleRows(s, rows), tx, stmt).1.writes ==> t == Some(k.tenant)
  {
    var vis := VisibleRows(s, rows);
    if stmt.Update? {
      var hit := Matching(vis, stmt.where);
      if forall k :: k in hit ==> Visible(s, Target(vis, stmt.assign, k).tenant) {
        UpdateStaysHome(s, vis, hit, stmt.assign, enabled, t);
      }
    }
  }

  lemma BeginKeepsInv(w: World, e: Event)
    requires Inv(w) && Enabled(w, e) && e.Begin?
    ensures Inv(Step(w, e).0)
  {
    var w' := Step(w, e).0;
    BindScopes(SettingsOf(w, e.conn), w.enabled, e.req.tenant, e.req.bypass);
    forall r | r in w'.open ensures OpenOk(w', r) {
      if r != e.req { assert OpenOk(w, r); }
    }
    forall c: nat ensures Busy(w', c) || Idle(SettingsOf(w', c)) {
      if c == e.conn { assert w'.open[e.req].conn == c; }
      else if Busy(w, c) {
        var r :| r in w.open && w.open[r].conn == c;
        assert w'.open[r].conn == c;
      }
    }
  }

  lemma ExecKeepsInv(w: World, e: Event)
    requires Inv(w) && Enabled(w, e) && e.Exec?
    ensures Inv(Step(w, e).0)
  {
    var w', o := Step(w, e).0, w.open[e.req];
    assert OpenOk(w, e.req);
    if !e.req.bypass {
      ExecuteWritesOwn(SettingsOf(w, o.conn), Overlay(w.committed, o.tx.writes), o.tx, e.stmt, w.enabled, e.req.tenant);
    }
    forall r | r in w'.open ensures OpenOk(w', r) {
      assert OpenOk(w, r);
    }
    forall c: nat ensures Busy(w', c) || Idle(SettingsOf(w', c)) {
      if Busy(w, c) {
        var r :| r in w.open && w.open[r].conn == c;
        assert w'.open[r].conn == c;
      }
    }
  }

  lemma StepKeepsInv(w: World, e: Event)
    requires Inv(w) && Enabled(w, e)
    ensures Inv(Step(w, e).0)
  {
    match e
    case Begin(_, _) => BeginKeepsInv(w, e);
    case Exec(_, _) => ExecKeepsInv(w, e);
    case _ => ReleaseKeepsInv(w, e.req, Step(w, e).0.committed);
  }

  lemma ReleaseKeepsInv(w: World, req: Request, rows: Rows)
    requires Inv(w) && req in w.open
    ensures Inv(Released(w, req).(committed := rows))
  {
    var w' := Released(w, req).(committed := rows);
    assert OpenOk(w, req);
    forall r | r in w'.open ensures OpenOk(w', r) {
      assert OpenOk(w, r);
    }
    forall c: nat ensures Busy(w', c) || Idle(SettingsOf(w', c)) {
      if Busy(w, c) && c != w.open[req].conn {
        var r :| r in w.open && w.open[r].conn == c;
        assert w'.open[r].conn == c;
      }
    }
  }

  // ------------------------------------------------------------------ what one tenant can observe

  predicate Owns(t: TenantId, r: Request) {
    r.tenant == Some(t) && !r.bypass
  }

  // No bypassing transaction has pending writes on t's rows.
  ghost predicate Spared(t: TenantId, w: World) {
    forall r :: r in w.open && r.bypass ==> forall k :: k in w.open[r].tx.writes ==> k.tenant != t
  }

  // The event is not a bypassing transaction's write on a row of t.  What such a transaction reads does not matter.
  ghost predicate Spares(t: TenantId, w: World, e: Event)
    requires Enabled(w, e)
  {
    e.Exec? && e.req.bypass ==> forall k :: k in Step(w, e).0.open[e.req].tx.writes ==> k.tenant != t
  }

  // t's committed rows.
  function Slice(t: TenantId, rows: Rows): Rows {
    map k | k in rows && k.tenant == t :: rows[k]
  }

  // The two worlds hold the same rows of t, and t's open transactions have the same pending writes.
  // Nothing is said of other tenants' rows and requests, or of which connection serves whom.
  ghost predicate Agree(t: TenantId, w1: World, w2: World) {
    && w1.enabled == w2.enabled
    && Slice(t, w1.committed) == Slice(t, w2.committed)
    && (forall r :: Owns(t, r) ==> (r in w1.open <==> r in w2.open))
    && (forall r :: Owns(t, r) && r in w1.open ==> w1.open[r].tx == w2.open[r].tx)
  }

  lemma SliceOverlay(t: TenantId, base: Rows, writes: map<Key, Option<Row>>)
    ensures Slice(t, Overlay(base, writes))
       == Overlay(Slice(t, base), map k | k in writes && k.tenant == t :: writes[k])
  {
  }

  lemma ForeignOverlay(t: TenantId, base: Rows, writes: map<Key, Option<Row>>)
    requires forall k :: k in writes ==> k.tenant != t
    ensures Slice(t, Overlay(base, writes)) == Slice(t, base)
  {
  }

  lemma StepKeepsSpared(t: TenantId, w: World, e: Event)
    requires Spared(t, w) && Enabled(w, e) && Spares(t, w, e)
    ensures Spared(t, Step(w, e).0)
  {
  }

  /** An event of another tenant, or of a transaction that bypasses the policy without writing on t's rows, leaves
      everything t can observe as it was. */
  lemma ForeignStep(t: TenantId, w: World, e: Event)
    requires Inv(w) && Spared(t, w) && Enabled(w, e) && !Owns(t, e.req)
    ensures Agree(t, w, Step(w, e).0)
  {
    if e.Commit? {
      assert OpenOk(w, e.req);
      ForeignOverlay(t, w.committed, w.open[e.req].tx.writes);
    }
  }

  lemma SameView(t: TenantId, s1: Settings, s2: Settings, enabled: bool,
                 c1: Rows, c2: Rows, writes: map<Key, Option<Row>>)
    requires Scoped(s1, enabled, Some(t), false) && Scoped(s2, enabled, Some(t), false)
    requires Slice(t, c1) == Slice(t, c2)
    ensures VisibleRows(s1, Overlay(c1, writes)) == VisibleRows(s2, Overlay(c2, writes))
  {
    var v1, v2 := VisibleRows(s1, Overlay(c1, writes)), VisibleRows(s2, Overlay(c2, writes));
    forall k ensures k in v1 <==> k in v2
      ensures k in v1 ==> v1[k] == v2[k]
    {
      assert k in Slice(t, c1) <==> k in Slice(t, c2);
      if k in Slice(t, c1) { assert Slice(t, c1)[k] == Slice(t, c2)[k]; }
    }
  }

  lemma SameExecution(s1: Settings, s2: Settings, vis: Rows, tx: Tx, stmt: Statement)
    requires forall row: TenantId :: Visible(s1, row) <==> Visible(s2, row)
    ensures Execute(s1, vis, tx, stmt) == Execute(s2, vis, tx, stmt)
  {
  }

  // An event without the connection the pool happened to hand out.
  function Anonymous(e: Event): Event {
    if e.Begin? then e.(conn := 0) else e
  }

  /** The same event of t, in two worlds t cannot tell apart, returns the same and leaves them indistinguishable. */
  lemma OwnStep(t: TenantId, w1: World, e1: Event, w2: World, e2: Event)
    requires Inv(w1) && Inv(w2) && Agree(t, w1, w2)
    requires Enabled(w1, e1) && Enabled(w2, e2) && Anonymous(e1) == Anonymous(e2) && Owns(t, e1.req)
    ensures Step(w1, e1).1 == Step(w2, e2).1
    ensures Agree(t, Step(w1, e1).0, Step(w2, e2).0)
  {
    match e1
    case Begin(req, conn) =>
    case Rollback(req) =>
    case Commit(req) =>
      var writes := w1.open[req].tx.writes;
      SliceOverlay(t, w1.committed, writes);
      SliceOverlay(t, w2.committed, writes);
    case Exec(req, stmt) =>
      assert OpenOk(w1, req) && OpenOk(w2, req);
      var o1, o2 := w1.open[req], w2.open[req];
      var s1, s2 := SettingsOf(w1, o1.conn), SettingsOf(w2, o2.conn);
      SameView(t, s1, s2, w1.enabled, w1.committed, w2.committed, o1.tx.writes);
      SameExecution(s1, s2, VisibleRows(s1, Overlay(w1.committed, o1.tx.writes)), o1.tx, stmt);
  }

  // ------------------------------------------------------------------ whole runs

  ghost predicate Legal(w: World, run: seq<Event>)
    decreases |run|
  {
    run == [] || (Enabled(w, run[0]) && Legal(Step(w, run[0]).0, run[1..]))
  }

  // No bypassing transaction of the run writes on t's rows.
  ghost predicate Sparing(t: TenantId, w: World, run: seq<Event>)
    requires Legal(w, run)
    decreases |run|
  {
    run == [] || (Spares(t, w, run[0]) && Sparing(t, Step(w, run[0]).0, run[1..]))
  }

  ghost function Final(w: World, run: seq<Event>): World
    requires Legal(w, run)
    decreases |run|
  {
    if run == [] then w else Final(Step(w, run[0]).0, run[1..])
  }

  // Everything t's requests are answered during a run.
  ghost function Answers(t: TenantId, w: World, run: seq<Event>): seq<Output>
    requires Legal(w, run)
    decreases |run|
  {
    if run == [] then [] else
    (if Owns(t, run[0].req) then [Step(w, run[0]).1] else []) + Answers(t, Step(w, run[0]).0, run[1..])
  }

  // What t itself does during a run.
  ghost function Actions(t: TenantId, run: seq<Event>): seq<Event>
    decreases |run|
  {
    if run == [] then [] else
    (if Owns(t, run[0].req) then [Anonymous(run[0])] else []) + Actions(t, run[1..])
  }

  lemma AgreeSymmetric(t: TenantId, w1: World, w2: World)
    requires Agree(t, w1, w2)
    ensures Agree(t, w2, w1)
  {
  }

  lemma AgreeTransitive(t: TenantId, w1: World, w2: World, w3: World)
    requires Agree(t, w1, w2) && Agree(t, w2, w3)
    ensures Agree(t, w1, w3)
  {
  }

  // A run whose first event is another tenant's looks to t like the rest of the run from a world that agrees.
  lemma SkipForeign(t: TenantId, w: World, run: seq<Event>) returns (w': World)
    requires Inv(w) && Spared(t, w) && run != [] && Legal(w, run) && Sparing(t, w, run) && !Owns(t, run[0].req)
    ensures Inv(w') && Spared(t, w') && Agree(t, w, w') && Legal(w', run[1..]) && Sparing(t, w', run[1..])
    ensures Answers(t, w, run) == Answers(t, w', run[1..])
    ensures Actions(t, run) == Actions(t, run[1..])
    ensures Final(w, run) == Final(w', run[1..])
  {
    w' := Step(w, run[0]).0;
    ForeignStep(t, w, run[0]);
    StepKeepsInv(w, run[0]);
    StepKeepsSpared(t, w, run[0]);
  }

  lemma TakeOwn(t: TenantId, w: World, run: seq<Event>) returns (w': World, out: Output)
    requires Inv(w) && Spared(t, w) && run != [] && Legal(w, run) && Sparing(t, w, run) && Owns(t, run[0].req)
    ensures Enabled(w, run[0]) && Step(w, run[0]) == (w', out)
    ensures Inv(w') && Spared(t, w') && Legal(w', run[1..]) && Sparing(t, w', run[1..])
    ensures Answers(t, w, run) == [out] + Answers(t, w', run[1..])
    ensures Actions(t, run) == [Anonymous(run[0])] + Actions(t, run[1..])
    ensures Final(w, run) == Final(w', run[1..])
  {
    w', out := Step(w, run[0]).0, Step(w, run[0]).1;
    StepKeepsInv(w, run[0]);
    StepKeepsSpared(t, w, run[0]);
  }

  lemma ConsEqual<T>(a: T, s: seq<T>, b: T, u: seq<T>)
    requires [a] + s == [b] + u
    ensures a == b && s == u
  {
    assert s == ([a] + s)[1..] == ([b] + u)[1..] == u;
  }

  /** Isolation.  Take any two runs in which tenant t does the same things, starting from worlds that agree
      on t's rows.  The other tenants' data, what they do, when they do it, which pooled connection serves which
      request, and what transactions that bypass the policy read and write, short of writing t's rows, may all
      differ.  Then t is answered the same, and the worlds agree on t's rows at the end. */
  lemma {:induction false} Noninterference(t: TenantId, w1: World, run1: seq<Event>, w2: World, run2: seq<Event>)
    requires Inv(w1) && Inv(w2) && Legal(w1, run1) && Legal(w2, run2)
    requires Spared(t, w1) && Spared(t, w2) && Sparing(t, w1, run1) && Sparing(t, w2, run2)
    requires Agree(t, w1, w2)
    requires Actions(t, run1) == Actions(t, run2)
    ensures Answers(t, w1, run1) == Answers(t, w2, run2)
    ensures Agree(t, Final(w1, run1), Final(w2, run2))
    decreases |run1| + |run2|
  {
    if run1 != [] && !Owns(t, run1[0].req) {
      var w1' := SkipForeign(t, w1, run1);
      AgreeSymmetric(t, w1, w1');
      AgreeTransitive(t, w1', w1, w2);
      Noninterference(t, w1', run1[1..], w2, run2);
    } else if run2 != [] && !Owns(t, run2[0].req) {
      var w2' := SkipForeign(t, w2, run2);
      AgreeTransitive(t, w1, w2, w2');
      Noninterference(t, w1, run1, w2', run2[1..]);
    } else if run1 != [] && run2 != [] {
      var w1', out1 := TakeOwn(t, w1, run1);
      var w2', out2 := TakeOwn(t, w2, run2);
      ConsEqual(Anonymous(run1[0]), Actions(t, run1[1..]), Anonymous(run2[0]), Actions(t, run2[1..]));
      OwnStep(t, w1, run1[0], w2, run2[0]);
      Noninterference(t, w1', run1[1..], w2', run2[1..]);
    }
  }

  lemma {:induction false} NothingDone(u: TenantId, run: seq<Event>)
    requires forall e :: e in run ==> !Owns(u, e.req)
    ensures Actions(u, run) == []
  {
    if run != [] {
      NothingDone(u, run[1..]);
    }
  }

  /** No run of other tenants' requests, whatever statements they send, changes a row of tenant u; nor does one in
      which the policy is bypassed, unless that transaction writes on those very rows. */
  lemma RowsUntouched(u: TenantId, w: World, run: seq<Event>)
    requires Inv(w) && Spared(u, w) && Legal(w, run) && Sparing(u, w, run)
    requires forall e :: e in run ==> !Owns(u, e.req)
    ensures Slice(u, Final(w, run).committed) == Slice(u, w.committed)
  {
    NothingDone(u, run);
    Noninterference(u, w, run, w, []);
  }

  /** The run starts from an empty pool, with any committed data. */
  lemma InitialWorld(enabled: bool, rows: Rows)
    ensures Inv(World(enabled, rows, map[], map[]))
    ensures forall t :: Spared(t, World(enabled, rows, map[], map[]))
  {
  }

  // What the look-up of a tenant's slug does while it bypasses the policy.
  ghost predicate BypassOnlyReads(run: seq<Event>) {
    forall e :: e in run && e.req.bypass && e.Exec? ==> e.stmt.Select?
  }

  /** Bypassing transactions that only read spare every tenant. */
  lemma {:induction false} ReadingSpares(t: TenantId, w: World, run: seq<Event>)
    requires Spared(t, w) && Legal(w, run) && BypassOnlyReads(run)
    ensures Sparing(t, w, run)
    decreases |run|
  {
    if run != [] {
      assert run[0] in run;
      StepKeepsSpared(t, w, run[0]);
      ReadingSpares(t, Step(w, run[0]).0, run[1..]);
    }
  }

  function Only(k: Key): Condition {
    (rows: Rows, key: Key, row: Row) => key == k
  }

  // The committed rows after a job of one statement has run on an idle connection.
  ghost function Job(w: World, req: Request, conn: nat, stmt: Statement): Rows
    requires Enabled(w, Begin(req, conn))
  {
    Step(Step(Step(w, Begin(req, conn)).0, Exec(req, stmt)).0, Commit(req)).0.committed
  }

  lemma DeleteJob(w: World, req: Request, conn: nat, where: Condition)
    requires Enabled(w, Begin(req, conn))
    ensures var bound := BindRls(SettingsOf(w, conn), w.enabled, req.tenant, req.bypass);
            Job(w, req, conn, Delete(where))
              == Overlay(w.committed, Erased(Matching(VisibleRows(bound, w.committed), where)))
  {
    var bound := BindRls(SettingsOf(w, conn), w.enabled, req.tenant, req.bypass);
    var hit := Matching(VisibleRows(bound, w.committed), where);
    assert Overlay(w.committed, map[]) == w.committed && map[] + Erased(hit) == Erased(hit);
  }

  lemma OneErased(s: Settings, rows: Rows, k: Key, bypass: bool)
    requires Scoped(s, true, None, bypass) && k in rows
    ensures Overlay(rows, Erased(Matching(VisibleRows(s, rows), Only(k)))) == if bypass then rows - {k} else rows
  {
    var hit := Matching(VisibleRows(s, rows), Only(k));
    assert hit == if bypass then {k} else {};
  }

  /** And nothing else confines them: a job that bypasses the policy can delete any row of any tenant, while the same
      job without the bypass, bound to no tenant, deletes nothing. */
  lemma BypassReachesEveryRow(w: World, conn: nat, k: Key, n: nat, bypass: bool)
    requires Inv(w) && w.enabled && k in w.committed && Enabled(w, Begin(Request(n, None, bypass), conn))
    ensures Job(w, Request(n, None, bypass), conn, Delete(Only(k)))
         == if bypass then w.committed - {k} else w.committed
  {
    DeleteJob(w, Request(n, None, bypass), conn, Only(k));
    BindScopes(SettingsOf(w, conn), true, None, bypass);
    OneErased(BindRls(SettingsOf(w, conn), true, None, bypass), w.committed, k, bypass);
  }

  // ------------------------------------------------------------------ what a transaction of t reads and writes

  // t's rows as its open transaction sees them: committed ones under its own pending writes.
  function Mine(t: TenantId, committed: Rows, tx: Tx): Rows {
    Slice(t, Overlay(committed, tx.writes))
  }

  lemma VisibleIsMine(s: Settings, t: TenantId, committed: Rows, tx: Tx)
    requires Scoped(s, true, Some(t), false)
    ensures VisibleRows(s, Overlay(committed, tx.writes)) == Mine(t, committed, tx)
  {
  }

  // More of t's own writes lie on top of what the transaction saw.
  lemma MineAfterWrites(t: TenantId, committed: Rows, tx: Tx, more: map<Key, Option<Row>>)
    requires forall k :: k in more ==> k.tenant == t
    ensures Mine(t, committed, tx.(writes := tx.writes + more)) == Overlay(Mine(t, committed, tx), more)
  {
    var now, was := Mine(t, committed, tx.(writes := tx.writes + more)), Mine(t, committed, tx);
    forall k ensures k in now <==> k in Overlay(was, more) { }
  }

  lemma InsertEffect(s: Settings, t: TenantId, committed: Rows, tx: Tx, key: Key, row: Row)
    requires Scoped(s, true, Some(t), false) && !tx.failed
    ensures var (out, tx') := Execute(s, Mine(t, committed, tx), tx, Insert(key, row));
            if key.tenant == t
            then out == Affected(1) && !tx'.failed && Mine(t, committed, tx') == Mine(t, committed, tx)[key := row]
            else out == Denied && tx'.failed && tx'.writes == tx.writes
  {
    if key.tenant == t {
      MineAfterWrites(t, committed, tx, map[key := Some(row)]);
    }
  }

  lemma DeleteEffect(s: Settings, t: TenantId, committed: Rows, tx: Tx, where: Condition)
    requires Scoped(s, true, Some(t), false) && !tx.failed
    ensures var vis := Mine(t, committed, tx);
            var (out, tx') := Execute(s, vis, tx, Delete(where));
            && out == Affected(|Matching(vis, where)|) && !tx'.failed
            && Mine(t, committed, tx') == map k | k in vis && !where(vis, k, vis[k]) :: vis[k]
  {
    MineAfterWrites(t, committed, tx, Erased(Matching(Mine(t, committed, tx), where)));
  }

  function Assigned(vis: Rows, where: Condition, assign: Assignment): Rows {
    map k | k in vis :: if where(vis, k, vis[k]) then assign(vis, k, vis[k]).1 else vis[k]
  }

  // An update that leaves every row its tenant rewrites each matching row in its place.
  lemma RewrittenInPlace(vis: Rows, where: Condition, assign: Assignment)
    requires forall k :: k in Matching(vis, where) ==> Target(vis, assign, k) == k
    ensures var hit := Matching(vis, where);
            && Rewritten(vis, hit, assign).Keys == hit
            && Overlay(vis, Erased(hit) + Rewritten(vis, hit, assign)) == Assigned(vis, where, assign)
  {
    var hit := Matching(vis, where);
    forall k ensures k in Targets(vis, hit, assign) <==> k in hit {
      if k in hit { assert Target(vis, assign, k) == k; }
    }
  }

  // Every row the update hits keeps its tenant.
  ghost predicate StaysHome(t: TenantId, vis: Rows, where: Condition, assign: Assignment) {
    forall k :: k in Matching(vis, where) ==> Target(vis, assign, k).tenant == t
  }

  lemma UpdateAccepted(s: Settings, t: TenantId, committed: Rows, tx: Tx,
                       where: Condition, assign: Assignment)
    requires Scoped(s, true, Some(t), false) && !tx.failed && StaysHome(t, Mine(t, committed, tx), where, assign)
    ensures var vis := Mine(t, committed, tx);
            var (out, tx') := Execute(s, vis, tx, Update(where, assign));
            && out == Affected(|Matching(vis, where)|) && !tx'.failed
            && Mine(t, committed, tx') == Assigned(vis, where, assign)
  {
    var vis := Mine(t, committed, tx);
    var hit := Matching(vis, where);
    forall k | k in hit ensures Target(vis, assign, k) == k && Visible(s, Target(vis, assign, k).tenant) { }
    RewrittenInPlace(vis, where, assign);
    MineAfterWrites(t, committed, tx, Erased(hit) + Rewritten(vis, hit, assign));
  }

  lemma UpdateRefused(s: Settings, t: TenantId, vis: Rows, tx: Tx,
                      where: Condition, assign: Assignment)
    requires Scoped(s, true, Some(t), false) && !tx.failed && !StaysHome(t, vis, where, assign)
    ensures Execute(s, vis, tx, Update(where, assign)) == (Denied, tx.(failed := true))
  {
    var k :| k in Matching(vis, where) && Target(vis, assign, k).tenant != t;
    assert !Visible(s, Target(vis, assign, k).tenant);
  }

  // The row is the new version of one that the update hit and that belongs at k' now.
  ghost predicate NewVersion(vis: Rows, hit: set<Key>, assign: Assignment, k': Key, row: Row)
    requires hit <= vis.Keys
  {
    exists k :: k in hit && Target(vis, assign, k) == k' && row == assign(vis, k, vis[k]).1
  }

  lemma RewrittenAre(vis: Rows, hit: set<Key>, assign: Assignment)
    requires hit <= vis.Keys
    ensures Rewritten(vis, hit, assign).Keys == Targets(vis, hit, assign)
    ensures forall k' :: k' in Rewritten(vis, hit, assign) ==>
              && Rewritten(vis, hit, assign)[k'].Some?
              && NewVersion(vis, hit, assign, k', Rewritten(vis, hit, assign)[k'].value)
  {
  }

  lemma Overwritten(rows: Rows, writes: map<Key, Option<Row>>, hit: set<Key>, written: map<Key, Option<Row>>, k: Key)
    requires k in written ==> written[k].Some?
    ensures var was, now := Overlay(rows, writes), Overlay(rows, writes + (Erased(hit) + written));
            && (k in written ==> k in now && now[k] == written[k].value)
            && (k in hit && k !in written ==> k !in now)
            && (k !in hit && k !in written ==> (k in now <==> k in was) && (k in now ==> now[k] == was[k]))
  {
  }

  /** Whatever the scope, an accepted update replaces each row it hits: the row is gone from where it was, unless some
      row was moved there, each target holds the new version of a row moved to it, and every other row stays. */
  lemma UpdateMoves(s: Settings, rows: Rows, tx: Tx, where: Condition, assign: Assignment, k: Key)
    requires !tx.failed
    requires Execute(s, VisibleRows(s, Overlay(rows, tx.writes)), tx, Update(where, assign)).0.Affected?
    ensures var was := Overlay(rows, tx.writes);
            var vis := VisibleRows(s, was);
            var hit := Matching(vis, where);
            var now := Overlay(rows, Execute(s, vis, tx, Update(where, assign)).1.writes);
            if k in Targets(vis, hit, assign) then k in now && NewVersion(vis, hit, assign, k, now[k])
            else if k in hit then k !in now
            else (k in now <==> k in was) && (k in now ==> now[k] == was[k])
  {
    var vis := VisibleRows(s, Overlay(rows, tx.writes));
    var hit := Matching(vis, where);
    RewrittenAre(vis, hit, assign);
    Overwritten(rows, tx.writes, hit, Rewritten(vis, hit, assign), k);
  }

  /** In any reachable state a query of t's request returns exactly t's matching rows, its own uncommitted writes
      included; a commit publishes exactly those writes, and a rollback, or a commit after a refused statement, none. */
  lemma OwnTransaction(w: World, req: Request, t: TenantId, where: Condition)
    requires Inv(w) && w.enabled && req in w.open && Owns(t, req)
    ensures var tx := w.open[req].tx;
            var mine := Mine(t, w.committed, tx);
            && Step(w, Exec(req, Select(where))).1
                 == (if tx.failed then Aborted else Found(map k | k in mine && where(mine, k, mine[k]) :: mine[k]))
            && Step(w, Commit(req)).1 == Ended(!tx.failed)
            && Slice(t, Step(w, Commit(req)).0.committed) == (if tx.failed then Slice(t, w.committed) else mine)
            && Step(w, Rollback(req)).0.committed == w.committed
  {
    assert OpenOk(w, req);
    VisibleIsMine(SettingsOf(w, w.open[req].conn), t, w.committed, w.open[req].tx);
  }

  /** A request's transaction starts from what is committed and with nothing of its own. */
  lemma BeginsClean(w: World, req: Request, conn: nat, t: TenantId)
    requires Enabled(w, Begin(req, conn))
    ensures var w' := Step(w, Begin(req, conn)).0;
            && w'.committed == w.committed && w'.open.Keys == w.open.Keys + {req} && w'.open[req].conn == conn
            && !w'.open[req].tx.failed && Mine(t, w.committed, w'.open[req].tx) == Slice(t, w.committed)
  {
  }

  /** No event touches another request's transaction or the settings of its connection. */
  lemma OthersStand(w: World, e: Event, r: Request)
    requires Inv(w) && Enabled(w, e) && r != e.req && r in w.open
    ensures var w' := Step(w, e).0;
            r in w'.open && w'.open[r] == w.open[r] && SettingsOf(w', w.open[r].conn) == SettingsOf(w, w.open[r].conn)
    ensures r !in w.open || e.Commit? || Step(w, e).0.committed == w.committed
  {
  }

  /** What the statements of t's open transaction do in any reachable state, to t's rows as that transaction sees them:
      an insert of another tenant's row and an update that moves a row away are refused and fail the transaction; else
      an insert adds its row, a delete removes the matching rows, and an update rewrites them; nothing is committed. */
  lemma OwnWrites(w: World, req: Request, t: TenantId, stmt: Statement)
    requires Inv(w) && w.enabled && req in w.open && Owns(t, req) && !w.open[req].tx.failed && !stmt.Select?
    ensures var (w', out) := Step(w, Exec(req, stmt));
            var mine, tx := Mine(t, w.committed, w.open[req].tx), w'.open[req].tx;
            var accepted := (stmt.Insert? && stmt.key.tenant == t) || stmt.Delete?
                            || (stmt.Update? && StaysHome(t, mine, stmt.where, stmt.assign));
            && w'.committed == w.committed
            && tx.failed == !accepted && (out == Denied <==> !accepted)
            && Mine(t, w.committed, tx) ==
                 if !accepted then mine else match stmt
                   case Insert(key, row) => mine[key := row]
                   case Delete(where) => map k | k in mine && !where(mine, k, mine[k]) :: mine[k]
                   case Update(where, assign) => Assigned(mine, where, assign)
                   case Select(_) => mine
  {
    var o := w.open[req];
    var s, mine := SettingsOf(w, o.conn), Mine(t, w.committed, o.tx);
    assert OpenOk(w, req);
    VisibleIsMine(s, t, w.committed, o.tx);
    match stmt
    case Insert(key, row) => InsertEffect(s, t, w.committed, o.tx, key, row);
    case Delete(where) => DeleteEffect(s, t, w.committed, o.tx, where);
    case Update(where, assign) =>
      if StaysHome(t, mine, where, assign) {
        UpdateAccepted(s, t, w.committed, o.tx, where, assign);
      } else {
        UpdateRefused(s, t, mine, o.tx, where, assign);
      }
    case Select(_) =>
  }

  // ------------------------------------------------------------------ the repository's layer

  // TenantRepository._select: hide soft-deleted rows, and filter by the context's tenant when there is one.
  function RepositoryWhere(context: Option<TenantId>, where: Condition): Condition {
    (vis: Rows, k: Key, r: Row) =>
      r.deletedAt.None? && (context.Some? ==> k.tenant == context.value) && where(vis, k, r)
  }

  // TenantRepository.create: stamp the context's tenant unless the caller names one.
  function CreateStamp(context: Option<TenantId>, given: Option<TenantId>): Result<TenantId, string> {
    if given.Some? then Ok(given.value)
    else if context.Some? then Ok(context.value)
    else Err("No tenant in context")
  }

  /** The two layers agree.  In a transaction bound to the context's tenant the repository's filter removes
      nothing the policy let through, so a forgotten filter cannot leak; and where the policy is bypassed
      the repository's filter alone still confines reads to the context's tenant. */
  lemma RepositoryAddsNothing(s: Settings, context: Option<TenantId>, bypass: bool,
                              rows: Rows, where: Condition)
    requires Scoped(s, true, context, bypass)
    ensures !bypass ==>
      Matching(VisibleRows(s, rows), RepositoryWhere(context, where))
        == set k | k in VisibleRows(s, rows) && rows[k].deletedAt.None? && where(VisibleRows(s, rows), k, rows[k])
    ensures context.Some? ==>
      forall k :: k in Matching(VisibleRows(s, rows), RepositoryWhere(context, where)) ==> k.tenant == context.value
    ensures context.Some? ==>
      Matching(VisibleRows(s, rows), RepositoryWhere(context, where))
        == set k | k in rows && k.tenant == context.value && rows[k].deletedAt.None?
                   && where(VisibleRows(s, rows), k, rows[k])
  {
  }

  /** An insert through the repository is accepted iff no foreign tenant was named for it. */
  lemma CreateAccepted(s: Settings, context: TenantId, given: Option<TenantId>, id: int, row: Row, vis: Rows, tx: Tx)
    requires Scoped(s, true, Some(context), false) && !tx.failed
    ensures CreateStamp(Some(context), given).Ok?
    ensures Execute(s, vis, tx, Insert(Key(CreateStamp(Some(context), given).value, id), row)).0 == Affected(1)
      <==> given in {None, Some(context)}
  {
  }
}
