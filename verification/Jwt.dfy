/** Token claims and their expiry.  A token is the record it was signed from; checking the signature is the
    question whether this issuer signed that record. */
module Jwt {
  import opened Prelude

  // The text of a UUID.
  type Id = s: string | s != "" && ':' !in s witness "0"

  datatype Kind = Access | Refresh

  datatype Claims = Claims(sub: Id, tid: Id, kind: Kind, jti: Id, iat: int, exp: int)

  datatype TokenError = Invalid | Expired | WrongType

  // Clock readings count microseconds; the `iat` and `exp` claims count whole seconds.
  const SECOND: nat := 1_000_000
  const REFRESH_TTL: nat := 2_592_000

  function Encode(user: Id, tenant: Id, kind: Kind, ttl: nat, jti: Id, now: nat): Claims {
    Claims(user, tenant, kind, jti, now / SECOND, (now + ttl * SECOND) / SECOND)
  }

  // `exp` (RFC 7519, section 4.1.4): not to be accepted on or after that instant.
  predicate Unexpired(c: Claims, now: nat) {
    now < c.exp * SECOND
  }

  // `iat` (RFC 7519, section 4.1.6): the library refuses a token from the future.
  predicate Mature(c: Claims, now: nat) {
    c.iat * SECOND <= now
  }

  // `signed` is the record under the token's signature, None when the signature does not verify.
  function Decode(signed: Option<Claims>, expected: Option<Kind>, now: nat): Result<Claims, TokenError> {
    if signed.None? || !Mature(signed.value, now) then Err(Invalid)
    else if !Unexpired(signed.value, now) then Err(Expired)
    else if expected.Some? && signed.value.kind != expected.value then Err(WrongType)
    else Ok(signed.value)
  }

  /** A token is accepted exactly when its signature verifies, its kind is the one asked for, and the clock has reached
      its `iat` and not its `exp`; what is returned is what was signed. */
  lemma DecodeAcceptsIff(signed: Option<Claims>, expected: Option<Kind>, now: nat)
    ensures Decode(signed, expected, now).Ok? <==>
              && signed.Some? && signed.value.iat * 1_000_000 <= now < signed.value.exp * 1_000_000
              && (expected.Some? ==> signed.value.kind == expected.value)
    ensures Decode(signed, expected, now).Ok? ==> Decode(signed, expected, now).value == signed.value
    ensures signed.None? ==> Decode(signed, expected, now) == Err(Invalid)
    ensures signed.Some? && signed.value.iat * 1_000_000 <= now && signed.value.exp * 1_000_000 <= now ==>
              Decode(signed, expected, now) == Err(Expired)
  {
  }

  /** A token accepted now was accepted at an earlier instant, with the same claims, iff it had been issued by then. */
  lemma DecodeBackwards(signed: Option<Claims>, expected: Option<Kind>, earlier: nat, now: nat)
    requires earlier <= now && Decode(signed, expected, now).Ok?
    ensures Decode(signed, expected, earlier) == Decode(signed, expected, now) <==> Mature(signed.value, earlier)
    ensures !Mature(signed.value, earlier) ==> Decode(signed, expected, earlier) == Err(Invalid)
  {
  }

  /** A fresh token decodes to what it was made from during exactly the window from `iat` to `exp`. */
  lemma EncodeDecodes(user: Id, tenant: Id, kind: Kind, ttl: nat, jti: Id, issued: nat, now: nat)
    ensures var c := Encode(user, tenant, kind, ttl, jti, issued);
            Decode(Some(c), Some(kind), now) ==
              if now / SECOND < issued / SECOND then Err(Invalid)
              else if now / SECOND < issued / SECOND + ttl then Ok(c)
              else Err(Expired)
  {
    assert (issued + ttl * SECOND) / SECOND == issued / SECOND + ttl;
  }
}
