/**
 From the request's headers to the scope of its database transaction.

 The middleware decodes the bearer token and fills the context, `get_db` binds the transaction from the
 context, and `get_current_user` later decodes the same header again.
 */
module RequestBinding {
  import opened Prelude
  import opened Jwt
  import RowSecurity
  import TenantStore

  datatype User = User(tenant: Id, active: bool, deleted: bool, superuser: bool)

  datatype AuthError = MissingBearer | BadToken(error: TokenError) | NoSuchUser

  datatype Context = Context(tenant: Option<Id>, user: Option<Id>, superadmin: bool)

  const BEARER := "bearer "

  function Lower(c: char): char {
    if 'A' <= c <= 'Z' then ((c as int) + 32) as char else c
  }

  // auth.lower().startswith("bearer ")
  predicate HasBearerPrefix(auth: string) {
    |auth| >= 7 && LowerAll(auth[..7]) == BEARER
  }

  function LowerAll(s: string): string {
    seq(|s|, i requires 0 <= i < |s| => Lower(s[i]))
  }

  // The middleware's reading of the Authorization header.
  function MiddlewareToken(auth: string): Option<string> {
    if HasBearerPrefix(auth) then Some(auth[7..]) else None
  }

  function IndexOf(s: string, c: char): nat {
    if s == [] then 0 else if s[0] == c then 0 else 1 + IndexOf(s[1..], c)
  }

  // The security dependency's reading: scheme and credentials are split at the first space.
  function DependencyToken(auth: string): Option<string> {
    var i := IndexOf(auth, ' ');
    if i >= |auth| then None
    else if LowerAll(auth[..i]) != "bearer" || auth[i + 1..] == "" then None
    else Some(auth[i + 1..])
  }

  lemma {:induction false} IndexOfFirst(s: string, c: char, i: nat)
    requires i < |s| && s[i] == c && forall j :: 0 <= j < i ==> s[j] != c
    ensures IndexOf(s, c) == i
  {
    if i > 0 {
      assert s[1..][i - 1] == c;
      IndexOfFirst(s[1..], c, i - 1);
    }
  }

  lemma {:induction false} IndexOfHit(s: string, c: char)
    ensures IndexOf(s, c) <= |s|
    ensures IndexOf(s, c) < |s| ==> s[IndexOf(s, c)] == c
  {
    if s != [] && s[0] != c {
      IndexOfHit(s[1..], c);
    }
  }

  lemma SchemeMakesPrefix(auth: string, i: nat)
    requires i < |auth| && auth[i] == ' ' && LowerAll(auth[..i]) == "bearer"
    ensures HasBearerPrefix(auth) && i == 6
  {
    assert |LowerAll(auth[..i])| == i;
    assert auth[..7] == auth[..i] + [' '];
    assert LowerAll(auth[..7]) == LowerAll(auth[..i]) + [' '];
  }

  lemma LowerSpace(c: char)
    ensures Lower(c) == ' ' <==> c == ' '
  {
  }

  lemma PrefixMakesScheme(auth: string)
    requires HasBearerPrefix(auth)
    ensures IndexOf(auth, ' ') == 6 && LowerAll(auth[..6]) == "bearer"
  {
    forall i | 0 <= i < 7 ensures auth[i] == ' ' <==> i == 6 {
      assert LowerAll(auth[..7])[i] == BEARER[i];
      LowerSpace(auth[i]);
    }
    IndexOfFirst(auth, ' ', 6);
    assert LowerAll(auth[..6]) == LowerAll(auth[..7])[..6];
  }

  /** Both readers of the header see the same token, except that only the middleware accepts an empty one. */
  lemma SameToken(auth: string)
    ensures DependencyToken(auth) == if MiddlewareToken(auth) == Some("") then None else MiddlewareToken(auth)
  {
    if HasBearerPrefix(auth) {
      PrefixMakesScheme(auth);
    }
    IndexOfHit(auth, ' ');
    var i := IndexOf(auth, ' ');
    if i < |auth| && LowerAll(auth[..i]) == "bearer" {
      SchemeMakesPrefix(auth, i);
    }
  }

  // "bearer" and a space, each letter in either case.
  ghost predicate StartsWithBearer(auth: string) {
    |auth| >= 7 && auth[6] == ' ' && forall i :: 0 <= i < 6 ==> auth[i] in ["bearer"[i], "BEARER"[i]]
  }

  lemma BearerPrefixIff(auth: string)
    ensures HasBearerPrefix(auth) <==> StartsWithBearer(auth)
  {
    if |auth| >= 7 {
      assert |LowerAll(auth[..7])| == 7;
      forall i | 0 <= i < 7 ensures LowerAll(auth[..7])[i] == Lower(auth[i]) { }
      assert LowerAll(auth[..7]) == BEARER <==> forall i :: 0 <= i < 7 ==> LowerAll(auth[..7])[i] == BEARER[i];
      LowerLetters(auth);
    }
  }

  lemma LowerLetters(auth: string)
    requires |auth| >= 7
    ensures (forall i :: 0 <= i < 7 ==> LowerAll(auth[..7])[i] == BEARER[i]) <==> StartsWithBearer(auth)
  {
    forall i | 0 <= i < 6 ensures LowerAll(auth[..7])[i] == BEARER[i] <==> auth[i] in ["bearer"[i], "BEARER"[i]] {
      assert BEARER[i] == "bearer"[i] && "bearer"[i] in "bear" && "BEARER"[i] == Upper("bearer"[i]);
      LowerIs(auth[i], "bearer"[i]);
    }
    LowerSpace(auth[6]);
    assert LowerAll(auth[..7])[6] == BEARER[6] <==> auth[6] == ' ';
  }

  function Upper(c: char): char
    requires 'a' <= c <= 'z'
  {
    ((c as int) - 32) as char
  }

  lemma LowerIs(c: char, letter: char)
    requires 'a' <= letter <= 'z'
    ensures Lower(c) == letter <==> c == letter || c == Upper(letter)
  {
  }

  /** Which headers are read, and what is read from them: those that begin with the word bearer, in whatever case, and a
      space; the token is all that follows, and only the middleware takes an empty one. */
  lemma HeadersRead(auth: string)
    ensures MiddlewareToken(auth) == if StartsWithBearer(auth) then Some(auth[7..]) else None
    ensures DependencyToken(auth) == if StartsWithBearer(auth) && |auth| > 7 then Some(auth[7..]) else None
  {
    BearerPrefixIff(auth);
    SameToken(auth);
  }

  // The header carries an access token that is valid at the instant.
  ghost predicate Bears(auth: string, verify: string -> Option<Claims>, now: nat) {
    && StartsWithBearer(auth) && verify(auth[7..]).Some?
    && var c := verify(auth[7..]).value; c.kind == Access && c.iat * 1_000_000 <= now < c.exp * 1_000_000
  }

  // RequestContextMiddleware._resolve_identity; `header` is what the tenant header resolves to.
  function ResolveIdentity(auth: string, header: Option<Id>, verify: string -> Option<Claims>, now: nat): Context {
    var token := MiddlewareToken(auth);
    if token.Some? && Decode(verify(token.value), Some(Access), now).Ok? then
      var c := Decode(verify(token.value), Some(Access), now).value;
      Context(Some(c.tid), Some(c.sub), false)
    else
      Context(header, None, false)
  }

  // get_db: the unit of work that the request's transaction is bound to.
  function UnitOfWork(n: nat, rc: Context): TenantStore.Request {
    TenantStore.Request(n, if rc.tenant.Some? then Some(rc.tenant.value) else None, rc.superadmin)
  }

  // UserRepository.get inside that transaction: the row policy, which is in force whether or not the application binds
  // its transactions (`enabled`), then the repository's own filters.
  function FindUser(enabled: bool, users: map<Id, User>, work: TenantStore.Request, rc: Context, id: Id): Option<User> {
    if && id in users
       && RowSecurity.Sees(enabled, work.tenant, work.bypass, users[id].tenant)
       && !users[id].deleted
       && (rc.tenant.Some? ==> users[id].tenant == rc.tenant.value)
    then Some(users[id]) else None
  }

  // get_current_user: the caller's row and the enriched context, or the error raised.
  function CurrentUser(enabled: bool, auth: string, verify: string -> Option<Claims>, users: map<Id, User>,
                       work: TenantStore.Request, rc: Context, now: nat): Result<(User, Context), AuthError>
  {
    var token := DependencyToken(auth);
    if token.None? then Err(MissingBearer) else
    match Decode(verify(token.value), Some(Access), now)
    case Err(e) => Err(BadToken(e))
    case Ok(c) =>
      var user := FindUser(enabled, users, work, rc, c.sub);
      if user.None? || !user.value.active then Err(NoSuchUser)
      else Ok((user.value,
               Context(if rc.tenant.Some? then rc.tenant else Some(c.tid), Some(c.sub), user.value.superuser)))
  }

  // The tenant a request's transaction is bound to when its token is valid at the later decode: the token's, unless
  // the middleware's earlier reading of the clock still lay before the token's `iat`.
  function Bound(c: Claims, header: Option<Id>, earlier: nat): Option<Id> {
    if Mature(c, earlier) then Some(c.tid) else header
  }

  /** Every request that passes `get_current_user` ran in a transaction bound to its token's tenant, whatever the
      tenant header said, because a token valid at the later decode was valid at the middleware's earlier one if it
      had been issued by then.  The user found is the bound tenant's, the context still names that tenant, and the
      row policy was not bypassed - not even for a superuser, whose flag reaches the context only after the
      transaction is bound. */
  lemma AuthenticatedIsBound(enabled: bool, n: nat, auth: string, header: Option<Id>,
                             verify: string -> Option<Claims>, users: map<Id, User>, earlier: nat, now: nat)
    requires earlier <= now
    ensures var rc := ResolveIdentity(auth, header, verify, earlier);
            var work := UnitOfWork(n, rc);
            var result := CurrentUser(enabled, auth, verify, users, work, rc, now);
            result.Ok? ==>
              && DependencyToken(auth).Some?
              && var c := verify(DependencyToken(auth).value);
              && c.Some?
              && var bound := Bound(c.value, header, earlier);
              && work == TenantStore.Request(n, bound, false)
              && c.value.sub in users && result.value.0 == users[c.value.sub]
              && bound == Some(result.value.0.tenant)
              && TenantStore.Owns(bound.value, work)
              && result.value.1 == Context(bound, Some(c.value.sub), result.value.0.superuser)
  {
    SameToken(auth);
    var token := DependencyToken(auth);
    if token.Some? && Decode(verify(token.value), Some(Access), now).Ok? {
      DecodeBackwards(verify(token.value), Some(Access), earlier, now);
    }
  }

  // Tokens are signed only for a user and that user's own tenant, which never changes.
  ghost predicate SignedForOwnTenant(verify: string -> Option<Claims>, users: map<Id, User>) {
    forall t :: verify(t).Some? && verify(t).value.sub in users ==>
      users[verify(t).value.sub].tenant == verify(t).value.tid
  }

  /** So, tokens being signed as they are, every passing request is bound to its token's tenant, even when the clock
      passes the token's `iat` while the request is under way. */
  lemma PassingIsBoundToToken(enabled: bool, n: nat, auth: string, header: Option<Id>,
                              verify: string -> Option<Claims>, users: map<Id, User>, earlier: nat, now: nat)
    requires earlier <= now && SignedForOwnTenant(verify, users)
    ensures var rc := ResolveIdentity(auth, header, verify, earlier);
            var work := UnitOfWork(n, rc);
            CurrentUser(enabled, auth, verify, users, work, rc, now).Ok? ==>
              && DependencyToken(auth).Some? && verify(DependencyToken(auth).value).Some?
              && work == TenantStore.Request(n, Some(verify(DependencyToken(auth).value).value.tid), false)
  {
    AuthenticatedIsBound(enabled, n, auth, header, verify, users, earlier, now);
  }

  /** And exactly the right requests pass: those that bear a valid access token whose user is the bound tenant's, active
      and not deleted - none when the application does not bind its transactions.  The bound tenant is the token's, or
      the header's when the token had not been issued at the middleware's reading of the clock. */
  lemma AuthenticationSucceedsIff(enabled: bool, n: nat, auth: string, header: Option<Id>,
                                  verify: string -> Option<Claims>, users: map<Id, User>, earlier: nat, now: nat)
    requires earlier <= now
    ensures var rc := ResolveIdentity(auth, header, verify, earlier);
            CurrentUser(enabled, auth, verify, users, UnitOfWork(n, rc), rc, now).Ok? <==>
              && enabled && |auth| > 7 && Bears(auth, verify, now)
              && var c := verify(auth[7..]).value;
              && c.sub in users && users[c.sub].active && !users[c.sub].deleted
              && Some(users[c.sub].tenant) == (if c.iat * 1_000_000 <= earlier then Some(c.tid) else header)
  {
    HeadersRead(auth);
    var token := DependencyToken(auth);
    if token.Some? && Decode(verify(token.value), Some(Access), now).Ok? {
      DecodeBackwards(verify(token.value), Some(Access), earlier, now);
    }
  }

  /** What a refused request is told. */
  lemma AuthenticationRefusals(enabled: bool, auth: string, verify: string -> Option<Claims>, users: map<Id, User>,
                               work: TenantStore.Request, rc: Context, now: nat)
    ensures var r := CurrentUser(enabled, auth, verify, users, work, rc, now);
            && (r == Err(MissingBearer) <==> !StartsWithBearer(auth) || |auth| == 7)
            && (r.Err? && r.error.BadToken? <==> StartsWithBearer(auth) && |auth| > 7 && !Bears(auth, verify, now))
  {
    HeadersRead(auth);
  }

  /** The identity a request starts with: the tenant and user of the valid access token it bears, or else the tenant its
      header names and no user; it is never a superuser's. */
  lemma IdentityMeans(auth: string, header: Option<Id>, verify: string -> Option<Claims>, now: nat)
    ensures ResolveIdentity(auth, header, verify, now)
         == if Bears(auth, verify, now)
            then Context(Some(verify(auth[7..]).value.tid), Some(verify(auth[7..]).value.sub), false)
            else Context(header, None, false)
  {
    HeadersRead(auth);
  }

  /** No request transaction bypasses the row policy, authenticated or not. */
  lemma RequestsNeverBypass(n: nat, auth: string, header: Option<Id>, verify: string -> Option<Claims>, now: nat)
    ensures !UnitOfWork(n, ResolveIdentity(auth, header, verify, now)).bypass
  {
  }

  /** The request context, whose fields `get_current_user` overwrites in place. */
  class RequestContext {
    var tenantId: Option<Id>
    var userId: Option<Id>
    var isSuperadmin: bool

    ghost function Value(): (rc: Context)
      reads this
    {
      Context(tenantId, userId, isSuperadmin)
    }

    constructor (auth: string, header: Option<Id>, verify: string -> Option<Claims>, now: nat)
      ensures Value() == ResolveIdentity(auth, header, verify, now)
    {
      tenantId, userId, isSuperadmin := header, None, false;
      if HasBearerPrefix(auth) {
        var payload := Decode(verify(auth[7..]), Some(Access), now);
        if payload.Ok? {
          tenantId, userId := Some(payload.value.tid), Some(payload.value.sub);
        }
      }
    }

    method GetCurrentUser(enabled: bool, auth: string, verify: string -> Option<Claims>, users: map<Id, User>,
                          work: TenantStore.Request, now: nat) returns (result: Result<User, AuthError>)
      modifies this
      ensures var spec := CurrentUser(enabled, auth, verify, users, work, old(Value()), now);
              && (spec.Ok? ==> result == Ok(spec.value.0) && Value() == spec.value.1)
              && (spec.Err? ==> result == Err(spec.error) && Value() == old(Value()))
    {
      var creds := DependencyToken(auth);
      if creds.None? {
        return Err(MissingBearer);
      }
      var payload := Decode(verify(creds.value), Some(Access), now);
      if payload.Err? {
        return Err(BadToken(payload.error));
      }
      var user := FindUser(enabled, users, work, Context(tenantId, userId, isSuperadmin), payload.value.sub);
      if user.None? || !user.value.active {
        return Err(NoSuchUser);
      }
      if tenantId.None? {
        tenantId := Some(payload.value.tid);
      }
      userId := Some(payload.value.sub);
      isSuperadmin := user.value.superuser;
      result := Ok(user.value);
    }
  }
}
