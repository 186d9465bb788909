/** What holds of every run of authentication requests. */
module SessionTheorems {
  import opened Prelude
  import opened Jwt
  import opened Lineage
  import opened Sessions
  import ResetStore

  ghost function Start(accounts: map<Id, Account>): State {
    State(accounts, [], {}, map[])
  }

  lemma EvolvesTransitive(a: seq<SessionRow>, b: seq<SessionRow>, c: seq<SessionRow>)
    requires Evolves(a, b) && Evolves(b, c)
    ensures Evolves(a, c)
  {
    forall i | 0 <= i < |a|
      ensures c[i].(revokedAt := a[i].revokedAt) == a[i] && (a[i].revokedAt.Some? ==> c[i] == a[i])
    {
      assert b[i].(revokedAt := a[i].revokedAt) == a[i] && c[i].(revokedAt := b[i].revokedAt) == b[i];
      assert c[i].(revokedAt := a[i].revokedAt) == c[i].(revokedAt := b[i].revokedAt).(revokedAt := a[i].revokedAt);
    }
  }

  /** `revoked_at` is written at most once per session: over every run a row never changes otherwise,
      and once it carries a revocation time it never changes again. */
  lemma {:induction false} RunKeepsInv(s: State, run: seq<Event>)
    requires Inv(s)
    ensures Inv(After(s, run)) && Evolves(s.sessions, After(s, run).sessions)
    decreases |run|
  {
    if run != [] {
      var s1 := Step(s, run[0]).0;
      StepKeepsInv(s, run[0]);
      RunKeepsInv(s1, run[1..]);
      EvolvesTransitive(s.sessions, s1.sessions, After(s1, run[1..]).sessions);
    }
  }

  lemma StartIsOk(accounts: map<Id, Account>)
    ensures Inv(Start(accounts))
  {
  }

  // ------------------------------------------------------------------ lineages

  /** In every reachable state the sessions descending from one login form a single line: of any two the earlier
      is revoked and an ancestor of the later, no session was rotated twice, and so at most one - the newest -
      is active. */
  lemma LineageIsALine(accounts: map<Id, Account>, run: seq<Event>, i: nat, j: nat)
    requires var ss := After(Start(accounts), run).sessions;
             i < j < |ss| && Root(ParentsOf(ss), i) == Root(ParentsOf(ss), j)
    ensures var ss := After(Start(accounts), run).sessions;
            && ss[i].revokedAt.Some?
            && Ancestor(ParentsOf(ss), i, j)
            && (ss[i].parent.Some? ==> ss[i].parent != ss[j].parent)
  {
    StartIsOk(accounts);
    RunKeepsInv(Start(accounts), run);
    var ss := After(Start(accounts), run).sessions;
    assert Closed(ss)[i] && Ancestor(ParentsOf(ss), i, j);
    if ss[i].parent.Some? {
      assert ParentsOf(ss)[i] == ss[i].parent && ParentsOf(ss)[j] == ss[j].parent;
      ChainHasNoForks(ParentsOf(ss), Closed(ss), i, j);
    }
  }

  // ------------------------------------------------------------------ redeeming a token

  lemma FoundRow(ss: seq<SessionRow>, jti: Id, i: nat)
    requires UniqueJti(ss) && i < |ss| && ss[i].jti == jti
    ensures Find(ss, jti) == Some(i)
  {
  }

  /** The session row of an issued token: it exists, it is the only one with that jti, it names the same user and
      tenant, and it expires no earlier than the token.  So at any single instant at which the token passes the
      `exp` check its session passes the expiry check, and the second check never decides. */
  lemma TokenHasItsSession(accounts: map<Id, Account>, run: seq<Event>, token: Claims) returns (i: nat)
    requires token in After(Start(accounts), run).issued
    ensures var ss := After(Start(accounts), run).sessions;
            && i < |ss| && RowOf(ss, token, i)
            && (forall k: nat :: k < |ss| && ss[k].jti == token.jti ==> k == i)
            && (forall now: nat :: Unexpired(token, now) ==> now < ss[i].expiresAt)
  {
    StartIsOk(accounts);
    RunKeepsInv(Start(accounts), run);
    var s := After(Start(accounts), run);
    assert HasRow(s.sessions, token);
    i :| i < |s.sessions| && RowOf(s.sessions, token, i);
  }

  /** Exactly when a refresh succeeds, in terms of what is stored before the request. */
  lemma RefreshSucceedsIff(s: State, e: Event, i: nat)
    requires Inv(s) && e.Refresh? && e.token in s.issued
    requires i < |s.sessions| && RowOf(s.sessions, e.token, i)
    ensures Step(s, e).1.Tokens? <==>
      && Mature(e.token, e.clock.first) && Unexpired(e.token, e.clock.first)
      && e.context == Some(e.token.tid)
      && s.sessions[i].revokedAt.None?
      && e.clock.second <= s.sessions[i].expiresAt
      && !s.accounts[e.token.sub].deleted
      && (forall k :: 0 <= k < |s.sessions| ==> s.sessions[k].jti != e.jti)
    ensures Step(s, e).1 == Refused(SessionExpired) ==> e.clock.first < e.clock.second
  {
    FoundRow(s.sessions, e.token.jti, i);
    assert HasRow(s.sessions, e.token);
    if GetByJti(s.sessions, e.context, e.token.jti).Some? {
      var ss := s.sessions[i := Revoked(s.sessions[i], e.clock.third)];
      assert forall k :: 0 <= k < |ss| ==> ss[k].jti == s.sessions[k].jti;
    }
  }

  /** A successful refresh revokes the redeemed session and opens exactly one, its child. */
  lemma RefreshRotates(s: State, e: Event, i: nat)
    requires Inv(s) && e.Refresh? && Step(s, e).1.Tokens?
    requires i < |s.sessions| && s.sessions[i].jti == e.token.jti
    ensures var s' := Step(s, e).0;
            && |s'.sessions| == |s.sessions| + 1
            && s'.sessions[i] == Revoked(s.sessions[i], e.clock.third)
            && (forall k :: 0 <= k < |s.sessions| && k != i ==> s'.sessions[k] == s.sessions[k])
            && RowOf(s'.sessions, Step(s, e).1.refresh, |s.sessions|)
            && s'.sessions[|s.sessions|].parent == Some(i)
            && s'.sessions[|s.sessions|].revokedAt.None?
            && Step(s, e).1.refresh.sub == e.token.sub && Step(s, e).1.refresh.tid == e.token.tid
  {
    FoundRow(s.sessions, e.token.jti, i);
    IssueExpiry(Step(s, e).1.refresh, e.token.sub, e.token.tid, e.jti, e.clock.fourth, e.clock.fifth);
  }

  /** Exactly when a login succeeds; it opens one session, the start of a new lineage, and changes no other. */
  lemma LoginSucceedsIff(s: State, e: Event)
    requires Inv(s) && e.Login?
    ensures Step(s, e).1.Tokens? <==>
      && e.context.Some? && e.user.Some? && e.user.value in s.accounts
      && var a := s.accounts[e.user.value];
      && a.tenant == e.context.value && !a.deleted && a.active && a.password == e.password
      && (forall k :: 0 <= k < |s.sessions| ==> s.sessions[k].jti != e.jti)
    ensures Step(s, e).1.Tokens? ==>
      var s', token := Step(s, e).0, Step(s, e).1.refresh;
      && |s'.sessions| == |s.sessions| + 1 && s.sessions <= s'.sessions
      && RowOf(s'.sessions, token, |s.sessions|) && token.sub == e.user.value
      && s'.sessions[|s.sessions|].parent.None? && s'.sessions[|s.sessions|].revokedAt.None?
      && Mature(token, e.clock.first) && Unexpired(token, e.clock.first)
    ensures !Step(s, e).1.Tokens? ==> Step(s, e).0 == s
  {
    if Step(s, e).1.Tokens? {
      IssueExpiry(Step(s, e).1.refresh, e.user.value, e.context.value, e.jti, e.clock.first, e.clock.second);
    }
  }

  // A revoked session stays revoked, so no token for it is ever redeemed again.
  lemma RevokedForGood(s: State, i: nat, run: seq<Event>, e: Event)
    requires Inv(s) && i < |s.sessions| && s.sessions[i].revokedAt.Some?
    requires e.Refresh? && e.token.jti == s.sessions[i].jti
    ensures Step(After(s, run), e).1.Refused?
  {
    RunKeepsInv(s, run);
    FoundRow(After(s, run).sessions, e.token.jti, i);
  }

  /** Each refresh token is redeemed at most once, however many requests lie in between. */
  lemma RedeemedOnce(s: State, first: Event, run: seq<Event>, second: Event)
    requires Inv(s) && first.Refresh? && Step(s, first).1.Tokens?
    requires second.Refresh? && second.token.jti == first.token.jti
    ensures Step(After(Step(s, first).0, run), second).1.Refused?
  {
    var i := Find(s.sessions, first.token.jti).value;
    RefreshRotates(s, first, i);
    StepKeepsInv(s, first);
    RevokedForGood(Step(s, first).0, i, run, second);
  }

  /** After a logout that was shown a token this issuer signed for the bound tenant and that has not expired,
      that token is never redeemed. */
  lemma LogoutIsFinal(s: State, e: Event, run: seq<Event>, later: Event)
    requires Inv(s) && e.Logout? && e.presented.Some? && e.presented.value in s.issued
    requires Mature(e.presented.value, e.clock.first) && Unexpired(e.presented.value, e.clock.first)
    requires e.context == Some(e.presented.value.tid)
    requires later.Refresh? && later.token.jti == e.presented.value.jti
    ensures Step(After(Step(s, e).0, run), later).1.Refused?
  {
    assert HasRow(s.sessions, e.presented.value);
    var i: nat :| i < |s.sessions| && RowOf(s.sessions, e.presented.value, i);
    FoundRow(s.sessions, e.presented.value.jti, i);
    StepKeepsInv(s, e);
    RevokedForGood(Step(s, e).0, i, run, later);
  }

  // ------------------------------------------------------------------ password reset

  // The user named by a stored reset value.
  function Beneficiary(s: State, mint: string): string {
    if mint in s.resets then ResetStore.Partition(s.resets[mint].value).1 else ""
  }

  /** After a successful reset every session the user had opened before is dead in every continuation. */
  lemma ResetEndsEarlierSessions(s: State, e: Event, i: nat, run: seq<Event>, later: Event)
    requires Inv(s) && e.ResetPassword? && Step(s, e).1 == Done
    requires i < |s.sessions| && s.sessions[i].user == Beneficiary(s, e.mint)
    requires later.Refresh? && later.token.jti == s.sessions[i].jti
    ensures Step(After(Step(s, e).0, run), later).1.Refused?
  {
    StepKeepsInv(s, e);
    var s1 := Step(s, e).0;
    assert s1.sessions[i].revokedAt.Some?;
    RevokedForGood(s1, i, run, later);
  }

  /** And it ends nobody else's: only the named user's password and sessions change. */
  lemma ResetTouchesOnlyItsUser(s: State, e: Event)
    requires Inv(s) && e.ResetPassword?
    ensures var s' := Step(s, e).0;
            && (forall u :: u in s.accounts && u != Beneficiary(s, e.mint) ==>
                  u in s'.accounts && s'.accounts[u] == s.accounts[u])
            && |s'.sessions| == |s.sessions|
            && (forall i :: 0 <= i < |s.sessions| && s.sessions[i].user != Beneficiary(s, e.mint) ==>
                  s'.sessions[i] == s.sessions[i])
            && (Step(s, e).1 != Done ==> s'.accounts == s.accounts && s'.sessions == s.sessions)
            && (forall k :: k in s.resets && k != e.mint ==> k in s'.resets && s'.resets[k] == s.resets[k])
  {
  }

  ghost predicate NeverMinted(mint: string, run: seq<Event>) {
    forall e :: e in run ==> e.ForgotPassword? ==> e.mint != mint
  }

  lemma {:induction false} StaysAbsent(s: State, mint: string, run: seq<Event>)
    requires mint !in s.resets && NeverMinted(mint, run)
    ensures mint !in After(s, run).resets
    decreases |run|
  {
    if run != [] {
      assert run[0] in run;
      StaysAbsent(Step(s, run[0]).0, mint, run[1..]);
    }
  }

  /** A reset token works once: after it succeeded it is refused in every continuation that does not draw the
      same random token again. */
  lemma ResetTokenWorksOnce(s: State, e: Event, run: seq<Event>, again: Event)
    requires e.ResetPassword? && Step(s, e).1 == Done
    requires again.ResetPassword? && again.mint == e.mint && NeverMinted(e.mint, run)
    ensures Step(After(Step(s, e).0, run), again).1 == Refused(BadReset)
  {
    StaysAbsent(Step(s, e).0, e.mint, run);
  }

  // Nobody draws or shows the token during the run.
  ghost predicate Undisturbed(mint: string, run: seq<Event>) {
    NeverMinted(mint, run) && forall e :: e in run ==> e.ResetPassword? ==> e.mint != mint
  }

  lemma {:induction false} ResetStands(s: State, mint: string, user: Id, run: seq<Event>)
    requires mint in s.resets && user in s.accounts && Undisturbed(mint, run)
    ensures var s' := After(s, run);
            && mint in s'.resets && s'.resets[mint] == s.resets[mint]
            && user in s'.accounts && s'.accounts[user].tenant == s.accounts[user].tenant
    decreases |run|
  {
    if run != [] {
      assert run[0] in run;
      ResetStands(Step(s, run[0]).0, mint, user, run[1..]);
    }
  }

  /** A token handed out resets exactly its user's password, in exactly its tenant, for exactly its hour, whatever
      other requests come first, and unless the user is deleted meanwhile. */
  lemma ForgotThenReset(s: State, forgot: Event, run: seq<Event>, reset: Event)
    requires forgot.ForgotPassword? && Step(s, forgot).1 == ResetToken(forgot.mint)
    requires Undisturbed(forgot.mint, run)
    requires reset.ResetPassword? && reset.mint == forgot.mint
    ensures var user := forgot.user.value;
            var s2 := After(Step(s, forgot).0, run);
            && user in s2.accounts
            && (Step(s2, reset).1 == Done <==>
                  && reset.clock.first <= forgot.clock.first + RESET_TTL * SECOND
                  && reset.context == forgot.context
                  && !s2.accounts[user].deleted)
            && (Step(s2, reset).1 == Done ==>
                  Step(s2, reset).0.accounts == s2.accounts[user := s2.accounts[user].(password := reset.password)])
  {
    ResetStore.PartitionJoin(forgot.context.value, forgot.user.value);
    ResetStands(Step(s, forgot).0, forgot.mint, forgot.user.value, run);
  }
}
