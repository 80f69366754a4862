/**
 * The gateway's `AuthGuard`: the bearer token is taken from the `Authorization`
 * header, verified by the token service, and the user it belongs to is looked
 * up in the user service and attached to the request.
 */
module Guard {
  import opened Wrappers
  import opened Ids
  import opened Exceptions
  import opened Strings
  import opened Crypto
  import opened ServiceExceptionFilter
  import opened ExceptionHandling
  import Tokens
  import Users

  const AUTH_FAILED := "Authorization failed, please retry"

  /**
   * A label for what a handler throws when it destructures `request.user` and
   * no user is attached: a TypeError, which `exceptionHandler` rethrows as it
   * is. Its message text is the JavaScript engine's and is not modelled.
   */
  const NO_USER := "TypeError"

  /** The Express request as the guard sees it: its header, and the user it attaches. */
  class Request {
    const authorization: Option<string>
    var user: Option<Users.PublicUser>

    constructor (authorization: Option<string>)
      ensures this.authorization == authorization && user == None
    {
      this.authorization := authorization;
      user := None;
    }
  }

  /** A header that is missing, empty or only whitespace. */
  predicate Blank(authorization: Option<string>)
  {
    authorization.None? || authorization.value == "" || Trim(authorization.value) == ""
  }

  /**
   * `extractToken`: the header must not be blank; its first space-separated
   * field must lower-case to "bearer" and its second must be a non-empty string
   * `isJwt` accepts. Every rejection is the same Unauthorized.
   */
  function ExtractToken(authorization: Option<string>, isJwt: string -> bool): (r: Outcome<string>)
    ensures Blank(authorization) ==> r.Threw?
    ensures r.Threw? ==> r.exception == Unauthorized(AUTH_FAILED)
    ensures r.Done? ==> isJwt(r.value) && r.value != "" && ' ' !in r.value
  {
    if Blank(authorization) then Threw(Unauthorized(AUTH_FAILED))
    else
      var fields := Split(authorization.value, ' ');
      if Lower(fields[0]) != "bearer" || |fields| < 2 || fields[1] == "" || !isJwt(fields[1])
      then Threw(Unauthorized(AUTH_FAILED))
      else Done(fields[1])
  }

  /** A string whose first character lower-cases to a letter is not blank. */
  lemma SchemeIsNotBlank(header: string, scheme: string)
    requires Lower(scheme) == "bearer"
    requires |header| >= |scheme| && header[..|scheme|] == scheme
    ensures !Blank(Some(header))
  {
    assert LowerChar(scheme[0]) == 'b';
    assert header[0] == scheme[0];
    TrimEmptyIffBlank(header);
  }

  /**
   * A header made of the scheme (in any letter case), the token and any further
   * fields, one space apart, yields exactly the token: later fields are ignored.
   */
  lemma WellFormedHeaderAccepted(scheme: string, token: string, rest: seq<string>, isJwt: string -> bool)
    requires Lower(scheme) == "bearer" && ' ' !in scheme
    requires token != "" && ' ' !in token && isJwt(token)
    requires forall i :: 0 <= i < |rest| ==> ' ' !in rest[i]
    ensures ExtractToken(Some(Join([scheme, token] + rest, ' ')), isJwt) == Done(token)
  {
    var fields := [scheme, token] + rest;
    var header := Join(fields, ' ');
    JoinStartsWithFirstField(fields, ' ');
    SchemeIsNotBlank(header, scheme);
    FieldsWithoutSpaces(scheme, token, rest);
    SplitJoin(fields, ' ');
    ExtractFromFields(header, fields, isJwt);
  }

  /** The header a client builds from a token, `Bearer <token>`, yields that token. */
  lemma BearerHeaderAccepted(token: string, isJwt: string -> bool)
    requires token != "" && ' ' !in token && isJwt(token)
    ensures ExtractToken(Some("Bearer " + token), isJwt) == Done(token)
  {
    BearerScheme();
    WellFormedHeaderAccepted("Bearer", token, [], isJwt);
    assert Join(["Bearer", token], ' ') == "Bearer " + token;
  }

  lemma BearerScheme()
    ensures Lower("Bearer") == "bearer" && ' ' !in "Bearer"
  {
    assert Lower("Bearer") == [LowerChar('B')] + Lower("earer");
  }

  lemma FieldsWithoutSpaces(scheme: string, token: string, rest: seq<string>)
    requires ' ' !in scheme && ' ' !in token
    requires forall i :: 0 <= i < |rest| ==> ' ' !in rest[i]
    ensures var fields := [scheme, token] + rest; forall i :: 0 <= i < |fields| ==> ' ' !in fields[i]
  {
    var fields := [scheme, token] + rest;
    forall i | 2 <= i < |fields|
      ensures ' ' !in fields[i]
    {
      assert fields[i] == rest[i - 2];
    }
  }

  /** Reading the parsed fields of a non-blank header. */
  lemma ExtractFromFields(header: string, fields: seq<string>, isJwt: string -> bool)
    requires !Blank(Some(header)) && Split(header, ' ') == fields
    requires |fields| >= 2 && Lower(fields[0]) == "bearer" && fields[1] != "" && isJwt(fields[1])
    ensures ExtractToken(Some(header), isJwt) == Done(fields[1])
  {
  }

  /**
   * Whatever `extractToken` accepts has the shape the well-formed case builds:
   * a scheme that lower-cases to "bearer", one space, the token, then nothing or
   * a space and further text.
   */
  lemma AcceptedHeaderShape(header: string, isJwt: string -> bool) returns (scheme: string, rest: string)
    requires ExtractToken(Some(header), isJwt).Done?
    ensures Lower(scheme) == "bearer" && ' ' !in scheme
    ensures rest == [] || rest[0] == ' '
    ensures header == scheme + [' '] + ExtractToken(Some(header), isJwt).value + rest
  {
    var fields := Split(header, ' ');
    JoinSplit(header, ' ');
    scheme := fields[0];
    var tail := fields[1..];
    assert Join(fields, ' ') == scheme + [' '] + Join(tail, ' ');
    if |tail| == 1 {
      rest := [];
    } else {
      rest := [' '] + Join(tail[1..], ' ');
      assert Join(tail, ' ') == tail[0] + rest;
    }
  }

  /** The scheme is compared without regard to letter case. */
  lemma SchemeCaseInsensitive(s1: string, s2: string, tail: string, isJwt: string -> bool)
    requires ' ' !in s1 && ' ' !in s2 && s1 != "" && s2 != ""
    requires Lower(s1) == Lower(s2)
    ensures ExtractToken(Some(s1 + [' '] + tail), isJwt) == ExtractToken(Some(s2 + [' '] + tail), isJwt)
  {
    SplitAtFirstSeparator(s1, tail, ' ');
    SplitAtFirstSeparator(s2, tail, ' ');
    var h1 := s1 + [' '] + tail;
    var h2 := s2 + [' '] + tail;
    if Lower(s1) == "bearer" {
      assert h1[..|s1|] == s1;
      assert h2[..|s2|] == s2;
      SchemeIsNotBlank(h1, s1);
      SchemeIsNotBlank(h2, s2);
    } else {
      // neither is accepted: a blank header and a wrong scheme give the same rejection
    }
  }

  /** A header without a space, such as the bare scheme, has no token field. */
  lemma NoTokenFieldRejected(header: string, isJwt: string -> bool)
    requires ' ' !in header
    ensures ExtractToken(Some(header), isJwt) == Threw(Unauthorized(AUTH_FAILED))
  {
    SplitWithoutSeparator(header, ' ');
  }

  /** Two spaces after the scheme make the second field empty, so the header is rejected. */
  lemma DoubleSpaceRejected(scheme: string, tail: string, isJwt: string -> bool)
    requires ' ' !in scheme
    ensures ExtractToken(Some(scheme + "  " + tail), isJwt) == Threw(Unauthorized(AUTH_FAILED))
  {
    var header := scheme + "  " + tail;
    assert header == scheme + [' '] + ([' '] + tail);
    SplitAtFirstSeparator(scheme, [' '] + tail, ' ');
    SplitAtFirstSeparator([], tail, ' ');
    assert [] + [' '] + tail == [' '] + tail;
  }

  /** Any scheme other than "bearer", whatever follows it, is rejected. */
  lemma OtherSchemeRejected(scheme: string, tail: string, isJwt: string -> bool)
    requires ' ' !in scheme && Lower(scheme) != "bearer"
    ensures ExtractToken(Some(scheme + [' '] + tail), isJwt) == Threw(Unauthorized(AUTH_FAILED))
  {
    SplitAtFirstSeparator(scheme, tail, ' ');
  }

  /** A token `isJwt` refuses is rejected even after a correct scheme. */
  lemma NonJwtRejected(scheme: string, token: string, isJwt: string -> bool)
    requires ' ' !in scheme && ' ' !in token && !isJwt(token)
    ensures ExtractToken(Some(scheme + [' '] + token), isJwt) == Threw(Unauthorized(AUTH_FAILED))
  {
    SplitAtFirstSeparator(scheme, token, ' ');
    SplitWithoutSeparator(token, ' ');
  }

  /**
   * One pass of `canActivate`: extract the token, send verify-token, send
   * find-one with the `userId` verify returned, each through the RPC boundary,
   * and hand every failure to `exceptionHandler`.
   */
  function Authenticate(jwt: Jwt, rows: Tokens.Rows, users: seq<Users.User>, isJwt: string -> bool,
                        authorization: Option<string>, now: nat): (r: Reply<Users.PublicUser>)
    ensures r.Returned? <==>
              && ExtractToken(authorization, isJwt).Done?
              && Tokens.VerifyToken(jwt, rows, ExtractToken(authorization, isJwt).value, now).Done?
              && Tokens.VerifyToken(jwt, rows, ExtractToken(authorization, isJwt).value, now).value.Some?
              && Users.HasId(users, Tokens.VerifyToken(jwt, rows, ExtractToken(authorization, isJwt).value, now).value.value)
    ensures r.Returned? ==>
              && Tokens.Accepts(jwt, rows, ExtractToken(authorization, isJwt).value, now, r.value.id)
              && Users.FindOne(users, Some(r.value.id)) == Done(r.value)
    ensures ExtractToken(authorization, isJwt).Threw? ==> r == Thrown(Raised(Unauthorized(AUTH_FAILED)))
    ensures ExtractToken(authorization, isJwt).Done? &&
            Tokens.VerifyToken(jwt, rows, ExtractToken(authorization, isJwt).value, now).Threw? ==>
              r == Thrown(Raised(HttpException(Text(AUTH_FAILED), UNAUTHORIZED)))
    ensures r.Thrown? ==> r.fault.Raised?
    ensures r.Thrown? ==>
              || (r.fault.exception.status == UNAUTHORIZED && ResponseMessage(r.fault.exception.response) == AUTH_FAILED)
              || (r.fault.exception.status == NOT_FOUND && ResponseMessage(r.fault.exception.response) == Users.USER_NOT_FOUND)
  {
    match ExtractToken(authorization, isJwt)
    case Threw(exception) => Thrown(HandleException(Raised(exception)))
    case Done(token) =>
      var verified := Respond(Tokens.VerifyToken(jwt, rows, token, now));
      if verified.RpcErr? then Thrown(HandleException(Received(verified)))
      else
        var found := Respond(Users.FindOne(users, verified.payload));
        if found.RpcErr? then Thrown(HandleException(Received(found)))
        else Returned(found.payload)
  }

  /** A token issued to an existing user and still stored for it authenticates that user. */
  lemma IssuedTokenAuthenticates(jwt: Jwt, rows: Tokens.Rows, users: seq<Users.User>, isJwt: string -> bool,
                                 user: Users.User, iat: nat, now: nat)
    requires SoundJwt(jwt) && ShapeMatches(jwt, isJwt)
    requires user.id in rows && rows[user.id] == jwt.sign(user.id, iat)
    requires now < iat + EXPIRES_IN_SECONDS
    requires Users.FindById(users, user.id) == Some(user)
    ensures Authenticate(jwt, rows, users, isJwt, Some("Bearer " + jwt.sign(user.id, iat)), now)
            == Returned(Users.Public(user))
  {
    var token := jwt.sign(user.id, iat);
    BearerHeaderAccepted(token, isJwt);
    assert rows == rows[user.id := token];
    Tokens.VerifyAfterCreate(jwt, rows, user.id, iat, now);
    assert ExtractToken(Some("Bearer " + token), isJwt) == Done(token);
    assert Tokens.VerifyToken(jwt, rows, token, now) == Done(Some(user.id));
    assert Users.FindOne(users, Some(user.id)) == Done(Users.Public(user));
  }

  /** Once the user's row is gone, the token is refused with 401 and the verifier's message. */
  lemma RevokedTokenRefused(jwt: Jwt, rows: Tokens.Rows, users: seq<Users.User>, isJwt: string -> bool,
                            u: UserId, iat: nat, now: nat)
    requires SoundJwt(jwt) && ShapeMatches(jwt, isJwt)
    ensures Authenticate(jwt, rows - {u}, users, isJwt, Some("Bearer " + jwt.sign(u, iat)), now)
            == Thrown(Raised(HttpException(Text(AUTH_FAILED), UNAUTHORIZED)))
  {
    var token := jwt.sign(u, iat);
    BearerHeaderAccepted(token, isJwt);
    Tokens.DestroyRevokesToken(jwt, rows, u, iat, now);
  }

  /**
   * A valid token of a user the user service does not have, or one that
   * verifies with `userId` undefined, reaches the client as the user service's
   * 404, not as a 401.
   */
  lemma MissingUserIsNotFound(jwt: Jwt, rows: Tokens.Rows, users: seq<Users.User>, isJwt: string -> bool,
                              authorization: Option<string>, now: nat)
    requires ExtractToken(authorization, isJwt).Done?
    requires Tokens.VerifyToken(jwt, rows, ExtractToken(authorization, isJwt).value, now).Done?
    requires var claim := Tokens.VerifyToken(jwt, rows, ExtractToken(authorization, isJwt).value, now).value;
             claim.None? || !Users.HasId(users, claim.value)
    ensures Authenticate(jwt, rows, users, isJwt, authorization, now)
            == Thrown(Raised(HttpException(Text(Users.USER_NOT_FOUND), NOT_FOUND)))
  {
  }

  /** A header the guard cannot parse is refused before any call, with the guard's own exception. */
  lemma UnparsableHeaderRefused(jwt: Jwt, rows: Tokens.Rows, users: seq<Users.User>, isJwt: string -> bool,
                                authorization: Option<string>, now: nat)
    requires ExtractToken(authorization, isJwt).Threw?
    ensures Authenticate(jwt, rows, users, isJwt, authorization, now) == Thrown(Raised(Unauthorized(AUTH_FAILED)))
  {
  }

  /** The guard, holding the two services it sends messages to. */
  class AuthGuard {
    const tokenService: Tokens.TokenService
    const userService: Users.UserService
    const isJwt: string -> bool

    constructor (tokenService: Tokens.TokenService, userService: Users.UserService, isJwt: string -> bool)
      ensures this.tokenService == tokenService && this.userService == userService && this.isJwt == isJwt
    {
      this.tokenService := tokenService;
      this.userService := userService;
      this.isJwt := isJwt;
    }

    /**
     * `canActivate`: on success the looked-up user is attached to the request and
     * `true` is returned; on failure nothing is attached and the handled error is
     * thrown. It never returns `false`.
     */
    method CanActivate(request: Request, now: nat) returns (r: Reply<bool>)
      modifies request
      ensures var auth := Authenticate(tokenService.jwt, tokenService.rows, userService.users, isJwt,
                                       request.authorization, now);
        && (auth.Returned? ==> r == Returned(true) && request.user == Some(auth.value))
        && (auth.Thrown? ==> r == Thrown(auth.fault) && request.user == old(request.user))
    {
      var extracted := ExtractToken(request.authorization, isJwt);
      if extracted.Threw? {
        r := Thrown(HandleException(Raised(extracted.exception)));
        return;
      }
      var verified := Respond(Tokens.VerifyToken(tokenService.jwt, tokenService.rows, extracted.value, now));
      if verified.RpcErr? {
        r := Thrown(HandleException(Received(verified)));
        return;
      }
      var found := Respond(Users.FindOne(userService.users, verified.payload));
      if found.RpcErr? {
        r := Thrown(HandleException(Received(found)));
        return;
      }
      request.user := Some(found.payload);
      r := Returned(true);
    }
  }
}
