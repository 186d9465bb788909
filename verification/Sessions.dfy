/**
 Refresh-token sessions and password reset, one request at a time.

 `sessions` is the user_sessions table in insertion order; the position of the row whose token was redeemed
 for a row is kept with it as `parent`, which the table itself does not store.  `issued` is every refresh token
 signed so far.  Access tokens open no session and are refused here by their type, so they are not recorded.
 */
module Sessions {
  import opened Prelude
  import opened Jwt
  import opened Lineage
  import ResetStore

  datatype Account = Account(tenant: Id, password: string, active: bool, deleted: bool, lastLogin: Option<nat>)

  datatype SessionRow = SessionRow(jti: Id, user: Id, tenant: Id, expiresAt: nat, revokedAt: Option<nat>,
                                   parent: Option<nat>)

  datatype State = State(accounts: map<Id, Account>, sessions: seq<SessionRow>, issued: set<Claims>,
                         resets: ResetStore.Store)

  // One request reads the clock up to five times.
  datatype Readings = Readings(first: nat, second: nat, third: nat, fourth: nat, fifth: nat)
  type Clock = c: Readings | c.first <= c.second <= c.third <= c.fourth <= c.fifth witness Readings(0, 0, 0, 0, 0)

  datatype Error = NoTenant | BadCredentials | Disabled | BadToken(error: TokenError) | SessionRevoked
                 | SessionExpired | NotFound | BadReset | DuplicateKey | PolicyViolation

  datatype Reply = Tokens(refresh: Claims) | ResetToken(token: string) | Done | Refused(error: Error)

  // `context` is the tenant the request's transaction is bound to; `jti` and `token` are the request's random draws.
  // A user is named by the id that the e-mail look-up would find, None when there is none.
  datatype Event =
    | Login(context: Option<Id>, user: Option<Id>, password: string, jti: Id, clock: Clock)
    | Refresh(context: Option<Id>, token: Claims, jti: Id, clock: Clock)
    | Logout(context: Option<Id>, presented: Option<Claims>, clock: Clock)
    | ForgotPassword(context: Option<Id>, user: Option<Id>, mint: string, clock: Clock)
    | ResetPassword(context: Option<Id>, mint: string, password: string, clock: Clock)
    | Administer(accounts: map<Id, Account>)

  const RESET_TTL: nat := 3_600

  // ------------------------------------------------------------------ queries

  // UserRepository look-ups: this tenant's rows that are not soft-deleted.
  predicate Present(accounts: map<Id, Account>, context: Option<Id>, user: Id) {
    user in accounts && context == Some(accounts[user].tenant) && !accounts[user].deleted
  }

  function Find(ss: seq<SessionRow>, jti: Id): (found: Option<nat>)
    ensures found.Some? ==> found.value < |ss| && ss[found.value].jti == jti
    ensures found.None? ==> forall i :: 0 <= i < |ss| ==> ss[i].jti != jti
  {
    FindLast(ss, (row: SessionRow) => row.jti == jti)
  }

  // SessionRepository.get_by_jti filters by jti only; the row policy confines it to the bound tenant.
  function GetByJti(ss: seq<SessionRow>, context: Option<Id>, jti: Id): (found: Option<nat>)
    ensures found.Some? ==> found.value < |ss| && ss[found.value].jti == jti && context == Some(ss[found.value].tenant)
  {
    var i := Find(ss, jti);
    if i.Some? && context == Some(ss[i.value].tenant) then i else None
  }

  function Revoked(row: SessionRow, now: nat): SessionRow {
    row.(revokedAt := Some(now))
  }

  // SessionRepository.revoke_all_for_user.
  function RevokeAll(ss: seq<SessionRow>, context: Option<Id>, user: Id, now: nat): (r: seq<SessionRow>)
    ensures |r| == |ss|
  {
    seq(|ss|, i requires 0 <= i < |ss| =>
      if ss[i].user == user && context == Some(ss[i].tenant) && ss[i].revokedAt.None?
      then Revoked(ss[i], now) else ss[i])
  }

  // ------------------------------------------------------------------ steps

  // _issue_tokens: sign a refresh token, then insert the row for its jti.
  function Issue(s: State, context: Option<Id>, user: Id, tenant: Id, jti: Id, parent: Option<nat>,
                 signedAt: nat, storedAt: nat): Result<(State, Claims), Error>
  {
    if context != Some(tenant) then Err(PolicyViolation)
    else if Find(s.sessions, jti).Some? then Err(DuplicateKey)
    else
      var token := Encode(user, tenant, Kind.Refresh, REFRESH_TTL, jti, signedAt);
      var row := SessionRow(jti, user, tenant, storedAt + REFRESH_TTL * SECOND, None, parent);
      Ok((s.(sessions := s.sessions + [row], issued := s.issued + {token}), token))
  }

  function LoginStep(s: State, context: Option<Id>, user: Option<Id>, password: string, jti: Id,
                     clock: Clock): (State, Reply)
  {
    if context.None? then (s, Refused(NoTenant))
    else if user.None? || !Present(s.accounts, context, user.value)
      || s.accounts[user.value].password != password then (s, Refused(BadCredentials))
    else if !s.accounts[user.value].active then (s, Refused(Disabled))
    else
      match Issue(s, context, user.value, context.value, jti, None, clock.first, clock.second)
      case Err(e) => (s, Refused(e))
      case Ok((s', token)) =>
        (s'.(accounts := s.accounts[user.value := s.accounts[user.value].(lastLogin := Some(clock.third))]),
         Tokens(token))
  }

  // The record under a presented token's signature: only what this issuer signed verifies.
  function Signed(s: State, token: Claims): Option<Claims> {
    if token in s.issued then Some(token) else None
  }

  function RefreshStep(s: State, context: Option<Id>, token: Claims, jti: Id, clock: Clock): (State, Reply)
  {
    match Decode(Signed(s, token), Some(Kind.Refresh), clock.first)
    case Err(e) => (s, Refused(BadToken(e)))
    case Ok(c) =>
      var i := GetByJti(s.sessions, context, c.jti);
      if i.None? || s.sessions[i.value].revokedAt.Some? then (s, Refused(SessionRevoked))
      else if s.sessions[i.value].expiresAt < clock.second then (s, Refused(SessionExpired))
      else if !Present(s.accounts, context, c.sub) then (s, Refused(NotFound))
      else
        var s1 := s.(sessions := s.sessions[i.value := Revoked(s.sessions[i.value], clock.third)]);
        match Issue(s1, context, c.sub, c.tid, jti, i, clock.fourth, clock.fifth)
        case Err(e) => (s, Refused(e))
        case Ok((s2, next)) => (s2, Tokens(next))
  }

  function LogoutStep(s: State, context: Option<Id>, presented: Option<Claims>, clock: Clock): (State, Reply)
  {
    if presented.None? then (s, Done) else
    match Decode(Signed(s, presented.value), Some(Kind.Refresh), clock.first)
    case Err(e) => (s, Done)
    case Ok(c) =>
      var i := GetByJti(s.sessions, context, c.jti);
      if i.Some? && s.sessions[i.value].revokedAt.None?
      then (s.(sessions := s.sessions[i.value := Revoked(s.sessions[i.value], clock.second)]), Done)
      else (s, Done)
  }

  function ForgotStep(s: State, context: Option<Id>, user: Option<Id>, mint: string, clock: Clock): (State, Reply)
  {
    if context.None? then (s, Refused(NoTenant))
    else if user.None? || !Present(s.accounts, context, user.value) then (s, Done)
    else (s.(resets := ResetStore.Put(s.resets, mint, ResetStore.Join(context.value, user.value),
                                      RESET_TTL * SECOND, clock.first)),
          ResetToken(mint))
  }

  // Reading the store may delete a stale entry, and that stays deleted however the request ends.
  function ResetStep(s: State, context: Option<Id>, mint: string, password: string, clock: Clock): (State, Reply)
  {
    var (resets, raw) := ResetStore.Get(s.resets, mint, clock.first);
    var s1 := s.(resets := resets);
    if raw.None? || raw.value == "" then (s1, Refused(BadReset)) else
    var (tenant, user) := ResetStore.Partition(raw.value);
    if context.None? then (s1, Refused(NoTenant))
    else if context.value != tenant then (s1, Refused(BadReset))
    else if user == "" || ':' in user || !Present(s.accounts, context, user) then (s1, Refused(NotFound))
    else
      (s1.(accounts := s.accounts[user := s.accounts[user].(password := password)],
           sessions := RevokeAll(s.sessions, context, user, clock.second),
           resets := ResetStore.Drop(resets, mint)),
       Done)
  }

  // Administration may add accounts and change any of their columns but the tenant; rows are never removed.
  ghost predicate Grows(before: map<Id, Account>, after: map<Id, Account>) {
    forall u :: u in before ==> u in after && after[u].tenant == before[u].tenant
  }

  ghost function Step(s: State, e: Event): (State, Reply) {
    match e
    case Login(context, user, password, jti, clock) => LoginStep(s, context, user, password, jti, clock)
    case Refresh(context, token, jti, clock) => RefreshStep(s, context, token, jti, clock)
    case Logout(context, presented, clock) => LogoutStep(s, context, presented, clock)
    case ForgotPassword(context, user, mint, clock) => ForgotStep(s, context, user, mint, clock)
    case ResetPassword(context, mint, password, clock) => ResetStep(s, context, mint, password, clock)
    case Administer(accounts) =>
      if Grows(s.accounts, accounts) then (s.(accounts := accounts), Done) else (s, Refused(NotFound))
  }

  ghost function After(s: State, run: seq<Event>): State
    decreases |run|
  {
    if run == [] then s else After(Step(s, run[0]).0, run[1..])
  }

  // ------------------------------------------------------------------ what every step keeps

  function ParentsOf(ss: seq<SessionRow>): Parents {
    seq(|ss|, i requires 0 <= i < |ss| => ss[i].parent)
  }

  function Closed(ss: seq<SessionRow>): seq<bool> {
    seq(|ss|, i requires 0 <= i < |ss| => ss[i].revokedAt.Some?)
  }

  ghost predicate UniqueJti(ss: seq<SessionRow>) {
    forall i, j :: 0 <= i < |ss| && 0 <= j < |ss| && ss[i].jti == ss[j].jti ==> i == j
  }

  // Row i is the session of token c, and outlives it.
  predicate RowOf(ss: seq<SessionRow>, c: Claims, i: nat)
    requires i < |ss|
  {
    ss[i].jti == c.jti && ss[i].user == c.sub && ss[i].tenant == c.tid && c.exp * SECOND <= ss[i].expiresAt
  }

  ghost predicate HasRow(ss: seq<SessionRow>, c: Claims) {
    c.kind == Kind.Refresh && exists i: nat :: i < |ss| && RowOf(ss, c, i)
  }

  ghost predicate RowsOk(s: State) {
    forall i :: 0 <= i < |s.sessions| ==>
      && s.sessions[i].user in s.accounts && s.accounts[s.sessions[i].user].tenant == s.sessions[i].tenant
      && (s.sessions[i].parent.Some? ==> s.sessions[i].parent.value < i)
  }

  ghost predicate Inv(s: State) {
    && UniqueJti(s.sessions)
    && RowsOk(s)
    && (forall c :: c in s.issued ==> HasRow(s.sessions, c))
    && Chain(ParentsOf(s.sessions), Closed(s.sessions))
  }

  // The only change a row ever sees is its first revocation.
  ghost predicate Evolves(a: seq<SessionRow>, b: seq<SessionRow>) {
    && |a| <= |b|
    && forall i :: 0 <= i < |a| ==>
         b[i].(revokedAt := a[i].revokedAt) == a[i] && (a[i].revokedAt.Some? ==> b[i] == a[i])
  }

  lemma EvolvesKeepsRows(a: seq<SessionRow>, b: seq<SessionRow>, c: Claims)
    requires Evolves(a, b) && HasRow(a, c)
    ensures HasRow(b, c)
  {
    var i: nat :| i < |a| && RowOf(a, c, i);
    assert RowOf(b, c, i);
  }

  // Revoking rows in place, by logout or reset.
  lemma RevokeKeepsInv(s: State, ss: seq<SessionRow>)
    requires Inv(s) && Evolves(s.sessions, ss) && |ss| == |s.sessions|
    ensures Inv(s.(sessions := ss))
  {
    forall c | c in s.issued ensures HasRow(ss, c) {
      EvolvesKeepsRows(s.sessions, ss, c);
    }
    assert ParentsOf(ss) == ParentsOf(s.sessions);
    CloseKeepsChain(ParentsOf(ss), Closed(s.sessions), Closed(ss));
  }

  lemma IssueExpiry(token: Claims, user: Id, tenant: Id, jti: Id, signedAt: nat, storedAt: nat)
    requires signedAt <= storedAt && token == Encode(user, tenant, Kind.Refresh, REFRESH_TTL, jti, signedAt)
    ensures token.exp * SECOND <= storedAt + REFRESH_TTL * SECOND
  {
  }

  // Adding the row of a freshly signed token to a table that is already chained up to it.
  lemma IssueKeepsRows(s: State, context: Option<Id>, user: Id, tenant: Id, jti: Id, parent: Option<nat>,
                       signedAt: nat, storedAt: nat)
    requires UniqueJti(s.sessions) && RowsOk(s) && (forall c :: c in s.issued ==> HasRow(s.sessions, c))
    requires user in s.accounts && s.accounts[user].tenant == tenant && signedAt <= storedAt
    requires parent.Some? ==> parent.value < |s.sessions|
    ensures var r := Issue(s, context, user, tenant, jti, parent, signedAt, storedAt);
            r.Ok? ==>
              var s' := r.value.0;
              && UniqueJti(s'.sessions) && RowsOk(s') && Evolves(s.sessions, s'.sessions)
              && (forall c :: c in s'.issued ==> HasRow(s'.sessions, c))
              && |s'.sessions| == |s.sessions| + 1
              && ParentsOf(s'.sessions) == ParentsOf(s.sessions) + [parent]
              && Closed(s'.sessions) == Closed(s.sessions) + [false]
  {
    var r := Issue(s, context, user, tenant, jti, parent, signedAt, storedAt);
    if r.Ok? {
      var ss := r.value.0.sessions;
      IssueExpiry(r.value.1, user, tenant, jti, signedAt, storedAt);
      assert RowOf(ss, r.value.1, |s.sessions|);
      forall c | c in r.value.0.issued ensures HasRow(ss, c) {
        if c in s.issued { EvolvesKeepsRows(s.sessions, ss, c); }
      }
    }
  }

  lemma LoginKeepsInv(s: State, e: Event)
    requires Inv(s) && e.Login?
    ensures Inv(Step(s, e).0) && Evolves(s.sessions, Step(s, e).0.sessions)
  {
    if Step(s, e).1.Tokens? {
      IssueKeepsRows(s, e.context, e.user.value, e.context.value, e.jti, None, e.clock.first, e.clock.second);
      NewRootKeepsChain(ParentsOf(s.sessions), Closed(s.sessions));
    }
  }

  // The table right after the redeemed session is revoked.
  lemma RevokeRedeemed(s: State, i: nat, now: nat)
    requires Inv(s) && i < |s.sessions| && s.sessions[i].revokedAt.None?
    ensures var ss := s.sessions[i := Revoked(s.sessions[i], now)];
            && Inv(s.(sessions := ss)) && Evolves(s.sessions, ss)
            && ParentsOf(ss) == ParentsOf(s.sessions) && Closed(ss) == Closed(s.sessions)[i := true]
  {
    RevokeKeepsInv(s, s.sessions[i := Revoked(s.sessions[i], now)]);
  }

  lemma TokenOwner(s: State, token: Claims)
    requires Inv(s) && token in s.issued
    ensures token.sub in s.accounts && s.accounts[token.sub].tenant == token.tid
  {
    assert HasRow(s.sessions, token);
    var i: nat :| i < |s.sessions| && RowOf(s.sessions, token, i);
  }

  lemma RefreshKeepsInv(s: State, e: Event)
    requires Inv(s) && e.Refresh?
    ensures Inv(Step(s, e).0) && Evolves(s.sessions, Step(s, e).0.sessions)
  {
    if Step(s, e).1.Tokens? {
      var i := GetByJti(s.sessions, e.context, e.token.jti).value;
      var s1 := s.(sessions := s.sessions[i := Revoked(s.sessions[i], e.clock.third)]);
      RevokeRedeemed(s, i, e.clock.third);
      TokenOwner(s, e.token);
      IssueKeepsRows(s1, e.context, e.token.sub, e.token.tid, e.jti, Some(i), e.clock.fourth, e.clock.fifth);
      RotateKeepsChain(ParentsOf(s.sessions), Closed(s.sessions), i);
      assert Step(s, e).0 == Issue(s1, e.context, e.token.sub, e.token.tid, e.jti, Some(i),
                                   e.clock.fourth, e.clock.fifth).value.0;
    }
  }

  lemma LogoutKeepsInv(s: State, e: Event)
    requires Inv(s) && e.Logout?
    ensures Inv(Step(s, e).0) && Evolves(s.sessions, Step(s, e).0.sessions)
  {
    if Step(s, e).0 != s {
      RevokeRedeemed(s, GetByJti(s.sessions, e.context, e.presented.value.jti).value, e.clock.second);
    }
  }

  lemma RevokeAllEvolves(ss: seq<SessionRow>, context: Option<Id>, user: Id, now: nat)
    ensures Evolves(ss, RevokeAll(ss, context, user, now))
  {
  }

  // The session table does not depend on passwords or on the reset store.
  lemma AccountsKeepInv(s: State, accounts: map<Id, Account>, resets: ResetStore.Store)
    requires Inv(s) && Grows(s.accounts, accounts)
    ensures Inv(s.(accounts := accounts, resets := resets))
  {
  }

  lemma ResetKeepsInv(s: State, e: Event)
    requires Inv(s) && e.ResetPassword?
    ensures Inv(Step(s, e).0) && Evolves(s.sessions, Step(s, e).0.sessions)
  {
    var s' := Step(s, e).0;
    if Step(s, e).1 == Done {
      var user := ResetStore.Partition(s.resets[e.mint].value).1;
      var ss := RevokeAll(s.sessions, e.context, user, e.clock.second);
      RevokeAllEvolves(s.sessions, e.context, user, e.clock.second);
      RevokeKeepsInv(s, ss);
      AccountsKeepInv(s.(sessions := ss), s'.accounts, s'.resets);
    } else {
      AccountsKeepInv(s, s.accounts, s'.resets);
    }
  }

  lemma StepKeepsInv(s: State, e: Event)
    requires Inv(s)
    ensures Inv(Step(s, e).0) && Evolves(s.sessions, Step(s, e).0.sessions)
  {
    match e
    case Login(_, _, _, _, _) => LoginKeepsInv(s, e);
    case Refresh(_, _, _, _) => RefreshKeepsInv(s, e);
    case Logout(_, _, _) => LogoutKeepsInv(s, e);
    case ResetPassword(_, _, _, _) => ResetKeepsInv(s, e);
    case _ =>
  }
}
