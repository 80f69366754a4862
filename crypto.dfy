/**
 * The cryptographic libraries the services call, left abstract: JWT signing and
 * verification (`@nestjs/jwt`), the token shape check `isJWT` (class-validator)
 * and bcrypt. Each is a function value; the properties the model relies on are
 * stated as predicates that callers assume of them.
 */
module Crypto {
  import opened Wrappers
  import opened Ids

  /** `expiresIn: "1d"`, in seconds. */
  const EXPIRES_IN_SECONDS: nat := 86400

  /** A decoded JWT payload: an object, with or without a `userId` claim, or a primitive. */
  datatype Payload = ObjectPayload(userId: Option<UserId>) | PrimitivePayload(text: string)

  /**
   * The token service's `JwtService` with its secret. `sign(u, iat)` is
   * `jwtService.sign({ userId: u }, { expiresIn: "1d" })` issued at time `iat`;
   * `verify(token, now)` is `jwtService.verify(token)` at time `now`, None where
   * it throws (bad signature, malformed token, expired).
   */
  datatype Jwt = Jwt(sign: (UserId, nat) -> string, verify: (string, nat) -> Option<Payload>)

  /** A token the service signed decodes to its own claim until it expires, and not after. */
  ghost predicate SoundJwt(jwt: Jwt)
  {
    forall u: UserId, iat: nat, now: nat :: jwt.verify(jwt.sign(u, iat), now) ==
      (if now < iat + EXPIRES_IN_SECONDS then Some(ObjectPayload(Some(u))) else None)
  }

  /**
   * `isJWT` accepts the tokens the service signs, and whatever it accepts is a
   * non-empty string without spaces (three base64url segments joined by dots).
   */
  ghost predicate ShapeMatches(jwt: Jwt, isJwt: string -> bool)
  {
    && (forall u: UserId, iat: nat :: isJwt(jwt.sign(u, iat)))
    && (forall t: string :: isJwt(t) ==> t != "" && ' ' !in t)
  }

  /** bcrypt: `hash(password, salt)` is `hashSync`, `compare(password, encoded)` is `compareSync`. */
  datatype Bcrypt = Bcrypt(hash: (string, string) -> string, compare: (string, string) -> bool)

  /** A password always matches its own hash. */
  ghost predicate SoundBcrypt(bcrypt: Bcrypt)
  {
    forall password: string, salt: string :: bcrypt.compare(password, bcrypt.hash(password, salt))
  }
}
