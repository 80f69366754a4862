/**
 * The gateway's user controller: each HTTP handler sends messages to the user
 * and token services and hands every failure to `exceptionHandler`.
 */
module GatewayUsers {
  import opened Ids
  import opened Exceptions
  import opened ServiceExceptionFilter
  import opened ExceptionHandling
  import Tokens
  import Users
  import Guard
  import Pagination
  import RegisterDtos

  const ACCOUNT_CREATED := "User account created successfully"
  const LOGGED_IN := "User logged in successfully"
  const LOGGED_OUT := "User logged out successfully"

  /** The reply of register and login: a message and the session token. */
  datatype Session = Session(message: string, token: string)

  /**
   * A login request body. `LoginDto` is not part of this model; its filter is
   * taken to keep exactly these two fields.
   */
  datatype LoginBody = LoginBody(email: string, password: string)

  class UserController {
    const userService: Users.UserService
    const tokenService: Tokens.TokenService

    constructor (userService: Users.UserService, tokenService: Tokens.TokenService)
      ensures this.userService == userService && this.tokenService == tokenService
    {
      this.userService := userService;
      this.tokenService := tokenService;
    }

    /**
     * `register`: send the filtered DTO to register; only when that succeeds,
     * send create-token with the returned `userId` and return its token.
     */
    method Register(body: RegisterDtos.RegisterBody, salt: string, now: nat) returns (r: Reply<Session>)
      requires userService.Valid() && tokenService.Valid()
      modifies userService, tokenService
      ensures userService.Valid() && tokenService.Valid()
      ensures var dto := RegisterDtos.ToRegisterDto(body);
        Users.HasEmail(old(userService.users), dto.email) ==>
          && r == Thrown(Raised(HttpException(Text(Users.DUPLICATED_EMAIL), CONFLICT)))
          && userService.users == old(userService.users)
          && userService.nextId == old(userService.nextId)
          && tokenService.rows == old(tokenService.rows)
      ensures var dto := RegisterDtos.ToRegisterDto(body);
        var id := old(userService.nextId);
        var token := tokenService.jwt.sign(id, now);
        !Users.HasEmail(old(userService.users), dto.email) ==>
          && r == Returned(Session(ACCOUNT_CREATED, token))
          && userService.users == old(userService.users)
               + [Users.User(id, dto.name, dto.email, Users.PasswordEncoder(userService.bcrypt, dto.password, salt))]
          && userService.nextId == id + 1
          && tokenService.rows == old(tokenService.rows)[id := token]
    {
      var dto := RegisterDtos.ToRegisterDto(body);
      var outcome := userService.Register(dto, salt);
      var registered := Respond(outcome);
      if registered.RpcErr? {
        r := Thrown(HandleException(Received(registered)));
        return;
      }
      var created := tokenService.CreateToken(registered.payload.userId, now);
      var issued := Respond(Done(created));
      r := Returned(Session(ACCOUNT_CREATED, issued.payload.token));
    }

    /** `login`: forward the credentials to the user service and return its token. */
    method Login(body: LoginBody, now: nat) returns (r: Reply<Session>)
      requires tokenService.Valid()
      modifies tokenService
      ensures tokenService.Valid()
      ensures var checked := Users.CheckCredentials(userService.bcrypt, userService.users, body.email, body.password);
        && (checked.Threw? ==>
              && r == Thrown(Raised(HttpException(Text(Users.INVALID_CREDENTIALS), UNAUTHORIZED)))
              && tokenService.rows == old(tokenService.rows))
        && (checked.Done? ==>
              var token := tokenService.jwt.sign(checked.value.id, now);
              && r == Returned(Session(LOGGED_IN, token))
              && tokenService.rows == old(tokenService.rows)[checked.value.id := token])
    {
      var outcome := userService.Login(tokenService, Users.LoginMsg(body.email, body.password), now);
      var loggedIn := Respond(outcome);
      if loggedIn.RpcErr? {
        r := Thrown(HandleException(Received(loggedIn)));
        return;
      }
      r := Returned(Session(LOGGED_IN, loggedIn.payload.token));
    }

    /**
     * `findAll`: the user service's page, returned unchanged. The gateway's
     * pagination DTO is taken to admit only pageable requests.
     */
    function FindAll(dto: Pagination.PaginationDto, baseUrl: string): (r: Reply<Pagination.Page<Users.PublicUser>>)
      reads this, userService
      requires Pagination.Pageable(dto)
      ensures r == Returned(Users.FindAll(userService.users, dto, baseUrl))
      ensures r.value.meta.totalItems == |userService.users|
      ensures |r.value.items| == if Pagination.Skip(dto) >= |userService.users| then 0
                                 else Pagination.Min(dto.limit, |userService.users| - Pagination.Skip(dto))
    {
      var page := Users.FindAll(userService.users, dto, baseUrl);
      var reply := Respond(Done(page));
      assert reply.payload == page;
      Returned(reply.payload)
    }

    /**
     * `logout`: send destroy-token with the id of the user the guard attached.
     * Without an attached user the destructuring throws before any message.
     */
    method Logout(request: Guard.Request) returns (r: Reply<string>)
      requires tokenService.Valid()
      modifies tokenService
      ensures tokenService.Valid()
      ensures request.user.None? ==> r == Thrown(Crash(Guard.NO_USER)) && tokenService.rows == old(tokenService.rows)
      ensures request.user.Some? && request.user.value.id in old(tokenService.rows) ==>
                r == Returned(LOGGED_OUT) && tokenService.rows == old(tokenService.rows) - {request.user.value.id}
      ensures request.user.Some? && request.user.value.id !in old(tokenService.rows) ==>
                && r == Thrown(Raised(HttpException(Text(Tokens.TOKEN_NOT_FOUND), NOT_FOUND)))
                && tokenService.rows == old(tokenService.rows)
    {
      if request.user.None? {
        r := Thrown(HandleException(Crash(Guard.NO_USER)));
        return;
      }
      var userId := request.user.value.id;
      var outcome := tokenService.DestroyToken(userId);
      var destroyed := Respond(outcome);
      if destroyed.RpcErr? {
        r := Thrown(HandleException(Received(destroyed)));
        return;
      }
      r := Returned(LOGGED_OUT);
    }
  }
}
