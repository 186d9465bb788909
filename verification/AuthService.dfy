/** The authentication service over its tables, which each request updates in place. */
module AuthService {
  import opened Prelude
  import opened Jwt
  import opened Sessions
  import ResetStore

  class Service {
    var accounts: map<Id, Account>
    var sessions: seq<SessionRow>
    var issued: set<Claims>
    const resets: ResetStore.ResetTokens

    ghost function Value(): (s: State)
      reads this, resets
    {
      State(accounts, sessions, issued, resets.entries)
    }

    constructor (accounts: map<Id, Account>)
      ensures Value() == State(accounts, [], {}, map[]) && fresh(resets)
    {
      this.accounts, sessions, issued := accounts, [], {};
      resets := new ResetStore.ResetTokens();
    }

    method IssueTokens(context: Option<Id>, user: Id, tenant: Id, jti: Id, parent: Option<nat>,
                       signedAt: nat, storedAt: nat) returns (r: Result<Claims, Error>)
      modifies this
      ensures var spec := Issue(old(Value()), context, user, tenant, jti, parent, signedAt, storedAt);
              && (spec.Ok? ==> r == Ok(spec.value.1) && Value() == spec.value.0)
              && (spec.Err? ==> r == Err(spec.error) && Value() == old(Value()))
    {
      if context != Some(tenant) {
        return Err(PolicyViolation);
      }
      if Find(sessions, jti).Some? {
        return Err(DuplicateKey);
      }
      var token := Encode(user, tenant, Kind.Refresh, REFRESH_TTL, jti, signedAt);
      sessions := sessions + [SessionRow(jti, user, tenant, storedAt + REFRESH_TTL * SECOND, None, parent)];
      issued := issued + {token};
      r := Ok(token);
    }

    method Login(context: Option<Id>, user: Option<Id>, password: string, jti: Id, clock: Clock) returns (r: Reply)
      modifies this
      ensures (Value(), r) == Step(old(Value()), Event.Login(context, user, password, jti, clock))
    {
      if context.None? {
        return Refused(NoTenant);
      }
      if user.None? || !Present(accounts, context, user.value) || accounts[user.value].password != password {
        return Refused(BadCredentials);
      }
      if !accounts[user.value].active {
        return Refused(Disabled);
      }
      var tokens := IssueTokens(context, user.value, context.value, jti, None, clock.first, clock.second);
      if tokens.Err? {
        return Refused(tokens.error);
      }
      accounts := accounts[user.value := accounts[user.value].(lastLogin := Some(clock.third))];
      r := Tokens(tokens.value);
    }

    /** Revokes before it issues; a failed insert rolls the whole request back. */
    method Refresh(context: Option<Id>, token: Claims, jti: Id, clock: Clock) returns (r: Reply)
      modifies this
      ensures (Value(), r) == Step(old(Value()), Event.Refresh(context, token, jti, clock))
    {
      var payload := Decode(if token in issued then Some(token) else None, Some(Kind.Refresh), clock.first);
      if payload.Err? {
        return Refused(BadToken(payload.error));
      }
      var i := GetByJti(sessions, context, payload.value.jti);
      if i.None? || sessions[i.value].revokedAt.Some? {
        return Refused(SessionRevoked);
      }
      if sessions[i.value].expiresAt < clock.second {
        return Refused(SessionExpired);
      }
      if !Present(accounts, context, payload.value.sub) {
        return Refused(NotFound);
      }
      var before := sessions;
      sessions := sessions[i.value := Revoked(sessions[i.value], clock.third)];
      var tokens := IssueTokens(context, payload.value.sub, payload.value.tid, jti, i, clock.fourth, clock.fifth);
      if tokens.Err? {
        sessions := before;
        return Refused(tokens.error);
      }
      r := Tokens(tokens.value);
    }

    method Logout(context: Option<Id>, presented: Option<Claims>, clock: Clock) returns (r: Reply)
      modifies this
      ensures (Value(), r) == Step(old(Value()), Event.Logout(context, presented, clock))
    {
      r := Done;
      if presented.None? {
        return;
      }
      var payload := Decode(if presented.value in issued then Some(presented.value) else None,
                            Some(Kind.Refresh), clock.first);
      if payload.Err? {
        return;
      }
      var i := GetByJti(sessions, context, payload.value.jti);
      if i.Some? && sessions[i.value].revokedAt.None? {
        sessions := sessions[i.value := Revoked(sessions[i.value], clock.second)];
      }
    }

    method ForgotPassword(context: Option<Id>, user: Option<Id>, mint: string, clock: Clock) returns (r: Reply)
      modifies resets
      ensures (Value(), r) == Step(old(Value()), Event.ForgotPassword(context, user, mint, clock))
    {
      if context.None? {
        return Refused(NoTenant);
      }
      if user.None? || !Present(accounts, context, user.value) {
        return Done;
      }
      resets.StoreReset(mint, ResetStore.Join(context.value, user.value), RESET_TTL * SECOND, clock.first);
      r := ResetToken(mint);
    }

    /** Revokes the user's sessions one row at a time, as the bulk update visits them. */
    method RevokeAllForUser(context: Option<Id>, user: Id, now: nat)
      modifies `sessions
      ensures sessions == RevokeAll(old(sessions), context, user, now)
    {
      var done := [];
      for i := 0 to |sessions|
        invariant sessions == old(sessions)
        invariant done == RevokeAll(sessions, context, user, now)[..i]
      {
        var row := sessions[i];
        if row.user == user && context == Some(row.tenant) && row.revokedAt.None? {
          row := Revoked(row, now);
        }
        done := done + [row];
      }
      sessions := done;
    }

    method ResetPassword(context: Option<Id>, mint: string, password: string, clock: Clock) returns (r: Reply)
      modifies this, resets
      ensures (Value(), r) == Step(old(Value()), Event.ResetPassword(context, mint, password, clock))
    {
      var raw := resets.GetReset(mint, clock.first);
      if raw.None? || raw.value == "" {
        return Refused(BadReset);
      }
      var (tenant, user) := ResetStore.Partition(raw.value);
      if context.None? {
        return Refused(NoTenant);
      }
      if context.value != tenant {
        return Refused(BadReset);
      }
      if user == "" || ':' in user || !Present(accounts, context, user) {
        return Refused(NotFound);
      }
      accounts := accounts[user := accounts[user].(password := password)];
      RevokeAllForUser(context, user, clock.second);
      resets.DeleteReset(mint, clock.third);
      r := Done;
    }
  }
}
