/** Password hashing and the claim set of the access token. The digest
    (SHA-256 in hex) is an opaque deterministic function `hash`; signing and
    decoding a token are external, so a token is represented by its claims and
    decoding by its outcome. */
module Credentials {
  import opened Common
  import Decimal

  /** The stored credential for a password. */
  function PasswordHash(hash: string -> string, password: string): string {
    hash(password)
  }

  /** `verify_password`: the password's digest equals the stored one. */
  predicate VerifyPassword(hash: string -> string, plain: string, hashed: string) {
    hash(plain) == hashed
  }

  /** A password always verifies against its own credential, and a password
      verifies against another's credential exactly when their digests agree. */
  lemma HashThenVerify(hash: string -> string, p: string, q: string)
    ensures VerifyPassword(hash, p, PasswordHash(hash, p))
    ensures VerifyPassword(hash, p, PasswordHash(hash, q)) <==> hash(p) == hash(q)
  {
  }

  /** A value in the claim dictionary. Times are whole seconds since the epoch,
      as the token encoder writes datetimes. */
  datatype Claim = Str(s: string) | Int(i: int) | Null

  type Claims = map<string, Claim>

  const Issuer: string := "mentor-mentee-app"
  const Audience: string := "mentor-mentee-frontend"

  /** `ACCESS_TOKEN_EXPIRE_MINUTES`. */
  const AccessTokenExpireMinutes: int := 60

  /** The seven registered claim names of section 4.1 of RFC 7519. */
  const RegisteredClaims: set<string> := {"iss", "sub", "aud", "exp", "nbf", "iat", "jti"}

  /** The private claims copied from the input. */
  const ProfileClaims: set<string> := {"name", "email", "role"}

  /** `data.get(k)`: the value or None. */
  function Get(data: Claims, k: string): Claim {
    if k in data then data[k] else Null
  }

  /** Python's `str(v)`. */
  function PyStr(v: Claim): string {
    match v
    case Str(s) => s
    case Int(i) => Decimal.IntToString(i)
    case Null => "None"
  }

  /** The `exp` time: `now + delta` for a truthy delta (a zero delta is falsy),
      otherwise the configured default lifetime. */
  function Expiry(now: int, delta: Option<int>): (exp: int)
    ensures delta.Some? && delta.value != 0 ==> exp - now == delta.value
    ensures delta.None? || delta.value == 0 ==> exp - now == AccessTokenExpireMinutes * 60
  {
    if delta.Some? && delta.value != 0 then now + delta.value
    else now + AccessTokenExpireMinutes * 60
  }

  /** `create_access_token` up to signing: a copy of `data` updated with the
      registered claims (section 4.1 of RFC 7519: iss 4.1.1, sub 4.1.2, aud 4.1.3,
      exp 4.1.4, nbf 4.1.5, iat 4.1.6, jti 4.1.7) and the profile claims.
      `now` is the clock reading and `jti` the fresh UUID text. */
  function CreateAccessToken(data: Claims, delta: Option<int>, now: int, jti: string): (c: Claims)
    ensures c.Keys == data.Keys + RegisteredClaims + ProfileClaims
    ensures forall k | k in data && k !in RegisteredClaims && k !in ProfileClaims :: c[k] == data[k]
    ensures c["iss"] == Str(Issuer) && c["aud"] == Str(Audience) && c["jti"] == Str(jti)
    ensures c["sub"] == Str(PyStr(Get(data, "user_id")))
    ensures c["iat"] == Int(now) && c["nbf"] == Int(now)
    ensures c["exp"].Int? && c["exp"].i == Expiry(now, delta)
    ensures c["name"] == Get(data, "name") && c["email"] == Get(data, "email") && c["role"] == Get(data, "role")
  {
    data + AddedClaims(data, delta, now, jti)
  }

  /** The dictionary passed to `update`. */
  function AddedClaims(data: Claims, delta: Option<int>, now: int, jti: string): (m: Claims)
    ensures m.Keys == RegisteredClaims + ProfileClaims
  {
    var m := map[
      "iss" := Str(Issuer),
      "sub" := Str(PyStr(Get(data, "user_id"))),
      "aud" := Str(Audience),
      "exp" := Int(Expiry(now, delta)),
      "nbf" := Int(now),
      "iat" := Int(now),
      "jti" := Str(jti),
      "name" := Get(data, "name"),
      "email" := Get(data, "email"),
      "role" := Get(data, "role")
    ];
    assert m.Keys == {"iss", "sub", "aud", "exp", "nbf", "iat", "jti", "name", "email", "role"};
    m
  }

  /** A token is never issued already expired when the lifetime is not negative:
      issued-at and not-before both equal the clock reading, and expiry is no
      earlier. */
  lemma IssuedNotAfterExpiry(data: Claims, delta: Option<int>, now: int, jti: string)
    requires delta.None? || delta.value >= 0
    ensures var c := CreateAccessToken(data, delta, now, jti);
      c["iat"].i == c["nbf"].i <= c["exp"].i
  {
  }

  /** What the token library's decoder did with a token: the payload, or a
      JWTError (bad signature, expired, malformed). */
  datatype DecodeOutcome = Decoded(payload: Claims) | JwtError(reason: string)

  /** `verify_token`: the payload, or None on any JWTError. The audience claim
      is not checked, so the outcome is taken as the decoder gives it. */
  function VerifyToken(outcome: DecodeOutcome): (r: Option<Claims>)
    ensures r.None? <==> outcome.JwtError?
    ensures r.Some? ==> r.value == outcome.payload
  {
    match outcome
    case Decoded(p) => Some(p)
    case JwtError(_) => None
  }
}
