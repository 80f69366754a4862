/**
 * The token service: one stored token per user, issued by upsert, verified by
 * signature and then by an exact match against the stored row, and revoked by
 * deleting the row.
 */
module Tokens {
  import opened Wrappers
  import opened Ids
  import opened Exceptions
  import opened Crypto

  const AUTH_FAILED := "Authorization failed, please retry"
  const TOKEN_NOT_FOUND := "Token was not found"
  const TOKEN_CREATED := "Token creates successfully"
  const TOKEN_DESTROYED := "Token destroyed successfully"

  /** The `tokens` collection. `userId` is a unique key, so the rows form a map. */
  type Rows = map<UserId, string>

  /** The reply of `createToken`. */
  datatype Created = Created(message: string, token: string)

  /**
   * `tokenValidator`, as the code is written. Its payload guard is
   * `typeof payload !== "object" && "userId" in payload`: false for every object,
   * so an object passes whether it has a `userId` or not; on a primitive the `in`
   * operator throws a TypeError, which the validator's own `catch` turns into
   * Unauthorized like any failure of `jwtService.verify` itself.
   */
  function TokenValidator(jwt: Jwt, token: string, now: nat): (r: Outcome<Payload>)
    ensures r.Done? <==> jwt.verify(token, now).Some? && jwt.verify(token, now).value.ObjectPayload?
    ensures r.Done? ==> jwt.verify(token, now) == Some(r.value)
    ensures r.Threw? ==> r.exception == Unauthorized(AUTH_FAILED)
  {
    match jwt.verify(token, now)
    case None => Threw(Unauthorized(AUTH_FAILED))
    case Some(payload) =>
      if payload.ObjectPayload? then Done(payload) else Threw(Unauthorized(AUTH_FAILED))
  }

  /**
   * The check the comment above that guard describes: the payload must be an object
   * that holds a `userId`. Not used by the code; kept to compare with it.
   */
  function IntendedTokenValidator(jwt: Jwt, token: string, now: nat): (r: Outcome<Payload>)
    ensures r.Done? <==> jwt.verify(token, now).Some? && jwt.verify(token, now).value.ObjectPayload?
                         && jwt.verify(token, now).value.userId.Some?
  {
    match jwt.verify(token, now)
    case Some(ObjectPayload(Some(u))) => Done(ObjectPayload(Some(u)))
    case _ => Threw(Unauthorized(AUTH_FAILED))
  }

  /**
   * The token is validly signed at `now` for an object payload without a
   * `userId` claim, and some row stores exactly this token.
   */
  ghost predicate ClaimlessMatch(jwt: Jwt, rows: Rows, token: string, now: nat)
  {
    jwt.verify(token, now) == Some(ObjectPayload(None)) && token in rows.Values
  }

  /**
   * `tokenModel.findOne({ userId, token })` on a validated payload, and the
   * `{ userId }` that `verifyToken` then returns (None for `undefined`). A
   * payload with the claim matches that user's row holding this token. The
   * query layer drops a filter key whose value is `undefined`, so a payload
   * without the claim matches any row holding this token.
   */
  function FindTokenRow(rows: Rows, validated: Outcome<Payload>, token: string): (r: Outcome<Option<UserId>>)
    requires validated.Done? ==> validated.value.ObjectPayload?
    ensures validated.Threw? ==> r == Threw(validated.exception)
    ensures r.Done? <==>
              && validated.Done?
              && (if validated.value.userId.Some?
                  then validated.value.userId.value in rows && rows[validated.value.userId.value] == token
                  else token in rows.Values)
    ensures r.Done? ==> r.value == validated.value.userId
    ensures validated.Done? && r.Threw? ==> r.exception == Unauthorized(AUTH_FAILED)
  {
    match validated
    case Threw(exception) => Threw(exception)
    case Done(payload) =>
      match payload.userId
      case Some(u) => if u in rows && rows[u] == token then Done(Some(u)) else Threw(Unauthorized(AUTH_FAILED))
      case None => if token in rows.Values then Done(None) else Threw(Unauthorized(AUTH_FAILED))
  }

  /** The token is validly signed for `userId` at `now`, and it is that user's stored token. */
  ghost predicate Accepts(jwt: Jwt, rows: Rows, token: string, now: nat, userId: UserId)
  {
    && jwt.verify(token, now) == Some(ObjectPayload(Some(userId)))
    && userId in rows
    && rows[userId] == token
  }

  /**
   * `verifyToken`: succeeds with `u` exactly when the signature check yields the
   * claim `u` and `u`'s stored row holds this very token; a claim-less payload
   * succeeds with `undefined` exactly when some row holds the token; every
   * failure is the same Unauthorized. It only reads the rows.
   */
  function VerifyToken(jwt: Jwt, rows: Rows, token: string, now: nat): (r: Outcome<Option<UserId>>)
    ensures r.Done? && r.value.Some? ==> Accepts(jwt, rows, token, now, r.value.value)
    ensures r.Done? && r.value.None? ==> ClaimlessMatch(jwt, rows, token, now)
    ensures r.Threw? ==> r.exception == Unauthorized(AUTH_FAILED)
    ensures r.Threw? ==> !ClaimlessMatch(jwt, rows, token, now) && forall u: UserId :: !Accepts(jwt, rows, token, now, u)
  {
    FindTokenRow(rows, TokenValidator(jwt, token, now), token)
  }

  /** Every stored token was signed by the service for the user whose row holds it. */
  ghost predicate RowsSigned(jwt: Jwt, rows: Rows)
  {
    forall v :: v in rows ==> exists iat: nat :: rows[v] == jwt.sign(v, iat)
  }

  /** Under that invariant no stored token decodes to a claim-less payload. */
  lemma {:induction false} NoClaimlessMatch(jwt: Jwt, rows: Rows, token: string, now: nat)
    requires SoundJwt(jwt) && RowsSigned(jwt, rows)
    ensures !ClaimlessMatch(jwt, rows, token, now)
  {
    if token in rows.Values {
      var v :| v in rows && rows[v] == token;
      var iat: nat :| rows[v] == jwt.sign(v, iat);
      assert jwt.verify(jwt.sign(v, iat), now) ==
        (if now < iat + EXPIRES_IN_SECONDS then Some(ObjectPayload(Some(v))) else None);
    }
  }

  /**
   * The inverted guard is never observable through `verifyToken` on rows the
   * service wrote: those tokens always carry their claim.
   */
  lemma IntendedGuardGivesSameVerification(jwt: Jwt, rows: Rows, token: string, now: nat)
    requires SoundJwt(jwt) && RowsSigned(jwt, rows)
    ensures FindTokenRow(rows, IntendedTokenValidator(jwt, token, now), token) == VerifyToken(jwt, rows, token, now)
  {
    NoClaimlessMatch(jwt, rows, token, now);
  }

  /** The code's guard accepts what the intended guard rejects: an object payload without `userId`. */
  lemma GuardAsWrittenAcceptsMissingClaim(jwt: Jwt, token: string, now: nat)
    requires jwt.verify(token, now) == Some(ObjectPayload(None))
    ensures TokenValidator(jwt, token, now) == Done(ObjectPayload(None))
    ensures IntendedTokenValidator(jwt, token, now).Threw?
  {
  }

  /**
   * Without the invariant the two guards do differ: a stored token whose payload
   * has no claim verifies, with `userId` undefined, where the intended guard
   * refuses it.
   */
  lemma ClaimlessStoredTokenVerifies(jwt: Jwt, rows: Rows, v: UserId, now: nat)
    requires v in rows && jwt.verify(rows[v], now) == Some(ObjectPayload(None))
    ensures VerifyToken(jwt, rows, rows[v], now) == Done(None)
    ensures FindTokenRow(rows, IntendedTokenValidator(jwt, rows[v], now), rows[v]).Threw?
  {
    assert rows[v] in rows.Values;
  }

  /** A freshly created token verifies to its user until it expires. */
  lemma VerifyAfterCreate(jwt: Jwt, rows: Rows, u: UserId, iat: nat, now: nat)
    requires SoundJwt(jwt)
    requires now < iat + EXPIRES_IN_SECONDS
    ensures VerifyToken(jwt, rows[u := jwt.sign(u, iat)], jwt.sign(u, iat), now) == Done(Some(u))
  {
    assert jwt.verify(jwt.sign(u, iat), now) == Some(ObjectPayload(Some(u)));
  }

  /** After a second issue with a different string, the first token of that user is dead. */
  lemma ReissueRevokesEarlierToken(jwt: Jwt, rows: Rows, u: UserId, iat1: nat, iat2: nat, now: nat)
    requires SoundJwt(jwt)
    requires jwt.sign(u, iat1) != jwt.sign(u, iat2)
    ensures VerifyToken(jwt, rows[u := jwt.sign(u, iat2)], jwt.sign(u, iat1), now) == Threw(Unauthorized(AUTH_FAILED))
  {
    var rows', stale := rows[u := jwt.sign(u, iat2)], jwt.sign(u, iat1);
    assert jwt.verify(stale, now) == if now < iat1 + EXPIRES_IN_SECONDS then Some(ObjectPayload(Some(u))) else None;
  }

  /** Once a user's row is deleted, no token verifies to that user. */
  lemma DestroyRevokesUser(jwt: Jwt, rows: Rows, u: UserId, token: string, now: nat)
    ensures VerifyToken(jwt, rows - {u}, token, now) != Done(Some(u))
  {
  }

  /** In particular the user's own signed token fails after the row is deleted. */
  lemma DestroyRevokesToken(jwt: Jwt, rows: Rows, u: UserId, iat: nat, now: nat)
    requires SoundJwt(jwt)
    ensures VerifyToken(jwt, rows - {u}, jwt.sign(u, iat), now) == Threw(Unauthorized(AUTH_FAILED))
  {
    var token := jwt.sign(u, iat);
    assert jwt.verify(token, now) == if now < iat + EXPIRES_IN_SECONDS then Some(ObjectPayload(Some(u))) else None;
    DestroyRevokesUser(jwt, rows, u, token, now);
  }

  /** A user has at most one live token at any instant. */
  lemma AtMostOneLiveToken(jwt: Jwt, rows: Rows, u: UserId, t1: string, t2: string, now1: nat, now2: nat)
    requires VerifyToken(jwt, rows, t1, now1) == Done(Some(u))
    requires VerifyToken(jwt, rows, t2, now2) == Done(Some(u))
    ensures t1 == t2
  {
    assert Accepts(jwt, rows, t1, now1, u);
    assert Accepts(jwt, rows, t2, now2, u);
  }

  /**
   * Issuing a token for `u` or revoking `u`'s row does not change how tokens
   * claiming another user verify, on rows the service wrote.
   */
  lemma OtherUsersUnaffected(jwt: Jwt, rows: Rows, u: UserId, iat: nat, token: string, now: nat)
    requires SoundJwt(jwt) && RowsSigned(jwt, rows)
    requires jwt.verify(token, now) != Some(ObjectPayload(Some(u)))
    ensures VerifyToken(jwt, rows[u := jwt.sign(u, iat)], token, now) == VerifyToken(jwt, rows, token, now)
    ensures VerifyToken(jwt, rows - {u}, token, now) == VerifyToken(jwt, rows, token, now)
  {
    IssuePreservesSigned(jwt, rows, u, iat);
    RevokePreservesSigned(jwt, rows, u);
    NoClaimlessMatch(jwt, rows, token, now);
    NoClaimlessMatch(jwt, rows[u := jwt.sign(u, iat)], token, now);
    NoClaimlessMatch(jwt, rows - {u}, token, now);
  }

  /** Issuing a signed token keeps every row signed. */
  lemma IssuePreservesSigned(jwt: Jwt, rows: Rows, u: UserId, iat: nat)
    requires RowsSigned(jwt, rows)
    ensures RowsSigned(jwt, rows[u := jwt.sign(u, iat)])
  {
    var rows' := rows[u := jwt.sign(u, iat)];
    forall v | v in rows'
      ensures exists i: nat :: rows'[v] == jwt.sign(v, i)
    {
      if v == u {
        assert rows'[v] == jwt.sign(v, iat);
      } else {
        var i: nat :| rows[v] == jwt.sign(v, i);
        assert rows'[v] == jwt.sign(v, i);
      }
    }
  }

  /** Deleting a row keeps every remaining row signed. */
  lemma RevokePreservesSigned(jwt: Jwt, rows: Rows, u: UserId)
    requires RowsSigned(jwt, rows)
    ensures RowsSigned(jwt, rows - {u})
  {
    var rows' := rows - {u};
    forall v | v in rows'
      ensures exists i: nat :: rows'[v] == jwt.sign(v, i)
    {
      var i: nat :| rows[v] == jwt.sign(v, i);
      assert rows'[v] == jwt.sign(v, i);
    }
  }

  /** The token service and its `tokens` collection. */
  class TokenService {
    const jwt: Jwt
    var rows: Rows

    /** Every row holds a token this service signed for that row's user. */
    ghost predicate Valid()
      reads this
    {
      RowsSigned(jwt, rows)
    }

    constructor (jwt: Jwt)
      ensures Valid()
      ensures this.jwt == jwt && rows == map[]
    {
      this.jwt := jwt;
      rows := map[];
    }

    /** `createToken`: sign a token for the user at time `now` and upsert it. */
    method CreateToken(userId: UserId, now: nat) returns (r: Created)
      requires Valid()
      modifies this
      ensures Valid()
      ensures r == Created(TOKEN_CREATED, jwt.sign(userId, now))
      ensures rows == old(rows)[userId := r.token]
    {
      var token := jwt.sign(userId, now);
      IssuePreservesSigned(jwt, rows, userId, now);
      SaveUserToken(userId, token);
      r := Created(TOKEN_CREATED, token);
    }

    /**
     * `saveUserToken`: overwrite the token of the user's row if there is one,
     * insert a row otherwise; the user never gets a second row.
     */
    method SaveUserToken(userId: UserId, token: string)
      modifies this
      ensures rows == old(rows)[userId := token]
      ensures |rows| == if userId in old(rows) then |old(rows)| else |old(rows)| + 1
    {
      if userId in rows {
        assert rows[userId := token].Keys == rows.Keys;
        rows := rows[userId := token];
      } else {
        rows := rows + map[userId := token];
      }
    }

    /** `destroyToken`: delete the user's row, or fail with NotFound when there is none. */
    method DestroyToken(userId: UserId) returns (r: Outcome<string>)
      requires Valid()
      modifies this
      ensures Valid()
      ensures userId in old(rows) ==> r == Done(TOKEN_DESTROYED) && rows == old(rows) - {userId}
      ensures userId !in old(rows) ==> r == Threw(NotFound(TOKEN_NOT_FOUND)) && rows == old(rows)
    {
      if userId in rows {
        RevokePreservesSigned(jwt, rows, userId);
        rows := rows - {userId};
        r := Done(TOKEN_DESTROYED);
      } else {
        r := Threw(NotFound(TOKEN_NOT_FOUND));
      }
    }
  }
}
