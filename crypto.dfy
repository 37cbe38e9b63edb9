/**
 * bcryptjs and jsonwebtoken, seen from the routes: opaque functions passed in
 * as values. Nothing here is computed; properties of the libraries that a
 * proof relies on are stated as the `requires` of that proof.
 */
module Crypto {
  import opened Form
  import opened UserModel

  /** The random salt `bcrypt.hash` draws. */
  type Salt = nat

  /** The cost factor routes/users.js passes to `bcrypt.hash`. */
  const SaltRounds: nat := 10

  /** `bcrypt.hash(plain, rounds)` with its salt made explicit, and `bcrypt.compare(plain, hashed)`. */
  datatype Bcrypt = Bcrypt(hash: (string, nat, Salt) -> string, compare: (string, string) -> bool)

  /** The claims the login route signs. */
  datatype Claims = Claims(id: UserId, name: string, email: string, role: Role)

  /** What `jwt.verify` returns: the claims plus the issue and expiry times (seconds). */
  datatype Payload = Payload(claims: Claims, iat: nat, exp: nat)

  /**
   * `jwt.sign(claims, key, { expiresIn }, now)` and `jwt.verify(token, key, now)`;
   * the clock is a parameter. `verify` answers None for a malformed token, a bad
   * signature or an expired token.
   */
  datatype Jwt = Jwt(sign: (Claims, string, nat, nat) -> string, verify: (string, string, nat) -> Option<Payload>)

  /** The fixed key used both to sign (routes/users.js) and to verify (server.js). */
  const SecretKey: string := "bezkoder-secret-key"

  /** `expiresIn: "1h"`, in seconds. */
  const TokenLifetime: nat := 3600

  /** A token signed with `key` at `iat` verifies with the same key, before it expires, to its claims. */
  ghost predicate SignVerifies(jwt: Jwt, c: Claims, key: string, iat: nat, now: nat)
  {
    now < iat + TokenLifetime ==>
      jwt.verify(jwt.sign(c, key, TokenLifetime, iat), key, now) == Some(Payload(c, iat, iat + TokenLifetime))
  }

  /** A compact JWT is non-empty and has no space in it (three base64url segments joined by dots). */
  ghost predicate Compact(token: string)
  {
    token != [] && ' ' !in token
  }
}
