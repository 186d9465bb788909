/** What each authentication request changes and what it leaves alone, in terms of rows, claims and clock readings. */
module SessionEffects {
  import opened Prelude
  import opened Jwt
  import opened Sessions
  import opened SessionTheorems
  import ResetStore

  const THIRTY_DAYS := 2_592_000
  const MICROS := 1_000_000

  // The token was signed here for the bound tenant and is valid when the request first reads the clock.
  ghost predicate Shown(s: State, token: Claims, context: Option<Id>, first: nat) {
    && token in s.issued && token.iat * MICROS <= first < token.exp * MICROS && context == Some(token.tid)
  }

  // Row i is the session that this logout ends.
  ghost predicate LogsOut(s: State, e: Event, i: nat)
    requires e.Logout?
  {
    && e.presented.Some? && Shown(s, e.presented.value, e.context, e.clock.first)
    && i < |s.sessions| && s.sessions[i].jti == e.presented.value.jti && s.sessions[i].revokedAt.None?
  }

  /** A logout revokes the session of the token it was shown, and no other; it touches no account, token or reset, and
      any other logout changes nothing at all.  It never says which. */
  lemma LogoutEffect(s: State, e: Event, i: nat)
    requires Inv(s) && e.Logout?
    ensures LogsOut(s, e, i) ==>
              Step(s, e).0 == s.(sessions := s.sessions[i := s.sessions[i].(revokedAt := Some(e.clock.second))])
    ensures (forall k: nat :: !LogsOut(s, e, k)) ==> Step(s, e).0 == s
    ensures Step(s, e).1 == Done
  {
    if LogsOut(s, e, i) {
      var token := e.presented.value;
      assert HasRow(s.sessions, token);
      var k: nat :| k < |s.sessions| && RowOf(s.sessions, token, k);
      FoundRow(s.sessions, token.jti, i);
      FoundRow(s.sessions, token.jti, k);
    }
    if Step(s, e).0 != s {
      var k := Find(s.sessions, e.presented.value.jti).value;
      assert HasRow(s.sessions, e.presented.value);
      var j: nat :| j < |s.sessions| && RowOf(s.sessions, e.presented.value, j);
      FoundRow(s.sessions, e.presented.value.jti, j);
      assert LogsOut(s, e, k);
    }
  }

  /** A login writes the time into its user's account, opens one session of thirty days, and signs one refresh token of
      as long; it changes no other account, session or reset. */
  lemma LoginEffect(s: State, e: Event)
    requires e.Login? && Step(s, e).1.Tokens?
    ensures var s', u, t := Step(s, e).0, e.user.value, e.context.value;
            && s'.accounts == s.accounts[u := s.accounts[u].(lastLogin := Some(e.clock.third))]
            && s'.sessions
                 == s.sessions + [SessionRow(e.jti, u, t, e.clock.second + THIRTY_DAYS * MICROS, None, None)]
            && s'.resets == s.resets
            && s'.issued == s.issued + {Step(s, e).1.refresh}
            && Step(s, e).1.refresh == Claims(u, t, Kind.Refresh, e.jti, e.clock.first / MICROS,
                                              e.clock.first / MICROS + THIRTY_DAYS)
  {
    WholeSeconds(e.clock.first);
  }

  lemma WholeSeconds(now: nat)
    ensures (now + THIRTY_DAYS * MICROS) / MICROS == now / MICROS + THIRTY_DAYS
  {
  }

  /** What a login answers: only bad credentials are reported for an unknown user, a user of another tenant, a deleted
      one and a wrong password alike, and a disabled account is reported only to who knows its password. */
  lemma LoginRefusals(s: State, e: Event)
    requires e.Login?
    ensures var known := e.user.Some? && e.user.value in s.accounts && !s.accounts[e.user.value].deleted
                         && e.context == Some(s.accounts[e.user.value].tenant)
                         && s.accounts[e.user.value].password == e.password;
            && (Step(s, e).1 == Refused(NoTenant) <==> e.context.None?)
            && (Step(s, e).1 == Refused(BadCredentials) <==> e.context.Some? && !known)
            && (Step(s, e).1 == Refused(Disabled) <==> known && !s.accounts[e.user.value].active)
    ensures !Step(s, e).1.Tokens? ==> Step(s, e).1.Refused? && Step(s, e).0 == s
  {
  }

  /** A refresh opens one session of thirty days and signs one refresh token of as long for the redeemed token's user
      and tenant, and changes no account and no reset; a refused one changes nothing. */
  lemma RefreshEffect(s: State, e: Event)
    requires e.Refresh?
    ensures Step(s, e).1.Tokens? ==>
              var s', n := Step(s, e).0, |s.sessions|;
              && s'.accounts == s.accounts && s'.resets == s.resets && s'.issued == s.issued + {Step(s, e).1.refresh}
              && |s'.sessions| == n + 1 && s'.sessions[n].(parent := None)
                   == SessionRow(e.jti, e.token.sub, e.token.tid, e.clock.fifth + THIRTY_DAYS * MICROS, None, None)
              && Step(s, e).1.refresh == Claims(e.token.sub, e.token.tid, Kind.Refresh, e.jti, e.clock.fourth / MICROS,
                                                e.clock.fourth / MICROS + THIRTY_DAYS)
    ensures !Step(s, e).1.Tokens? ==> Step(s, e).1.Refused? && Step(s, e).0 == s
  {
    WholeSeconds(e.clock.fourth);
  }

  /** What a refresh answers about the session of a valid token. */
  lemma RefreshRefusals(s: State, e: Event, i: nat)
    requires Inv(s) && e.Refresh? && i < |s.sessions| && s.sessions[i].jti == e.token.jti
    requires Shown(s, e.token, e.context, e.clock.first)
    ensures Step(s, e).1 == Refused(SessionRevoked) <==> s.sessions[i].revokedAt.Some?
    ensures Step(s, e).1 == Refused(SessionExpired) <==>
              s.sessions[i].revokedAt.None? && s.sessions[i].expiresAt < e.clock.second
  {
    assert HasRow(s.sessions, e.token);
    var k: nat :| k < |s.sessions| && RowOf(s.sessions, e.token, k);
    FoundRow(s.sessions, e.token.jti, i);
    FoundRow(s.sessions, e.token.jti, k);
  }

  /** Asking for a reset token stores one entry, for an hour, exactly when the bound tenant has that user, and changes
      no account, session or refresh token. */
  lemma ForgotEffect(s: State, e: Event)
    requires e.ForgotPassword?
    ensures var known := e.context.Some? && e.user.Some? && e.user.value in s.accounts
                         && !s.accounts[e.user.value].deleted && e.context == Some(s.accounts[e.user.value].tenant);
            && Step(s, e).1 == (if e.context.None? then Refused(NoTenant)
                                else if known then ResetToken(e.mint) else Done)
            && Step(s, e).0 == (if !known then s else s.(resets := s.resets[e.mint := ResetStore.Entry(
                 e.context.value + ":" + e.user.value, e.clock.first + 3_600 * MICROS)]))
  {
  }

  /** A successful reset stamps every active session of its user with the second clock reading and leaves every other
      session, and every refresh token, as it was; it changes the one password and uses the token up. */
  lemma ResetEffect(s: State, e: Event)
    requires Inv(s) && e.ResetPassword? && Step(s, e).1 == Done
    ensures var s', u := Step(s, e).0, Beneficiary(s, e.mint);
            && u in s.accounts && e.context == Some(s.accounts[u].tenant)
            && s'.accounts == s.accounts[u := s.accounts[u].(password := e.password)]
            && s'.issued == s.issued && s'.resets == s.resets - {e.mint}
            && |s'.sessions| == |s.sessions|
            && (forall i :: 0 <= i < |s.sessions| ==>
                  s'.sessions[i] == if s.sessions[i].user == u && s.sessions[i].revokedAt.None?
                                    then s.sessions[i].(revokedAt := Some(e.clock.second)) else s.sessions[i])
  {
    var u := Beneficiary(s, e.mint);
    forall i | 0 <= i < |s.sessions| && s.sessions[i].user == u
      ensures s.sessions[i].tenant == s.accounts[u].tenant
    {
    }
  }

  /** A refused reset changes no account, session or token; all it may do is drop the entry it found stale.  A token
      unknown or stale is bad, and so is one of another tenant; a user gone or deleted is not found. */
  lemma ResetRefusals(s: State, e: Event, tenant: Id, user: Id)
    requires e.ResetPassword? && Step(s, e).1 != Done
    ensures Step(s, e).1.Refused?
    ensures e.mint !in s.resets || s.resets[e.mint].expires < e.clock.first ==> Step(s, e).1 == Refused(BadReset)
    ensures e.mint in s.resets && e.clock.first <= s.resets[e.mint].expires
            && s.resets[e.mint].value == tenant + ":" + user ==>
              Step(s, e).1 == (if e.context.None? then Refused(NoTenant)
                               else if e.context != Some(tenant) then Refused(BadReset) else Refused(NotFound))
    ensures Step(s, e).0 == s.(resets := if e.mint in s.resets && s.resets[e.mint].expires < e.clock.first
                                         then s.resets - {e.mint} else s.resets)
  {
    ResetStore.PartitionJoin(tenant, user);
    assert ResetStore.Join(tenant, user) == tenant + ":" + user;
  }
}
