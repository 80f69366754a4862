/**
 * The session life cycle end to end, over freshly started services: register
 * through the gateway, log in, pass the guard, log out, and be refused by the
 * guard with the very same token.
 */
module Scenarios {
  import opened Wrappers
  import opened Exceptions
  import opened Crypto
  import opened ExceptionHandling
  import Strings
  import Tokens
  import Users
  import Guard
  import GatewayUsers
  import RegisterDtos

  /** Fresh services; register through the gateway, then log in with the same credentials. */
  method Enrol(jwt: Jwt, bcrypt: Bcrypt, body: RegisterDtos.RegisterBody, salt: string, registeredAt: nat, loggedInAt: nat)
    returns (controller: GatewayUsers.UserController, user: Users.User,
             registered: Reply<GatewayUsers.Session>, loggedIn: Reply<GatewayUsers.Session>)
    requires SoundBcrypt(bcrypt)
    ensures fresh(controller) && fresh(controller.userService) && fresh(controller.tokenService)
    ensures controller.tokenService.jwt == jwt && controller.tokenService.Valid()
    ensures controller.userService.users == [user]
    ensures Users.Public(user) == Users.PublicUser(0, body.name, Strings.Lower(body.email))
    ensures controller.tokenService.rows == map[0 := jwt.sign(0, loggedInAt)]
    ensures registered == Returned(GatewayUsers.Session(GatewayUsers.ACCOUNT_CREATED, jwt.sign(0, registeredAt)))
    ensures loggedIn == Returned(GatewayUsers.Session(GatewayUsers.LOGGED_IN, jwt.sign(0, loggedInAt)))
  {
    var userService := new Users.UserService(bcrypt);
    var tokenService := new Tokens.TokenService(jwt);
    controller := new GatewayUsers.UserController(userService, tokenService);

    // POST /user/register
    var dto := RegisterDtos.ToRegisterDto(body);
    assert !Users.HasEmail(userService.users, dto.email);
    registered := controller.Register(body, salt, registeredAt);
    user := Users.User(0, dto.name, dto.email, Users.PasswordEncoder(bcrypt, dto.password, salt));
    assert [] + [user] == [user];

    // POST /user/login with the stored email and the registered password
    Users.RegisteredUserCanLogIn(bcrypt, [], user, body.password, salt);
    loggedIn := controller.Login(GatewayUsers.LoginBody(dto.email, body.password), loggedInAt);
    assert map[0 := jwt.sign(0, registeredAt)][0 := jwt.sign(0, loggedInAt)] == map[0 := jwt.sign(0, loggedInAt)];
  }

  /** A new request carrying `header` through the guard. */
  method Guarded(guard: Guard.AuthGuard, header: string, now: nat) returns (r: Reply<bool>, request: Guard.Request)
    ensures fresh(request) && request.authorization == Some(header)
    ensures var auth := Guard.Authenticate(guard.tokenService.jwt, guard.tokenService.rows, guard.userService.users,
                                           guard.isJwt, Some(header), now);
      && (auth.Returned? ==> r == Returned(true) && request.user == Some(auth.value))
      && (auth.Thrown? ==> r == Thrown(auth.fault) && request.user == None)
  {
    request := new Guard.Request(Some(header));
    r := guard.CanActivate(request, now);
  }

  method SessionLifecycle(jwt: Jwt, bcrypt: Bcrypt, isJwt: string -> bool,
                          body: RegisterDtos.RegisterBody, salt: string, registeredAt: nat, loggedInAt: nat)
    returns (registered: Reply<GatewayUsers.Session>, loggedIn: Reply<GatewayUsers.Session>,
             admitted: Reply<bool>, attached: Option<Users.PublicUser>,
             loggedOut: Reply<string>, refused: Reply<bool>)
    requires SoundJwt(jwt) && ShapeMatches(jwt, isJwt) && SoundBcrypt(bcrypt)
    ensures registered == Returned(GatewayUsers.Session(GatewayUsers.ACCOUNT_CREATED, jwt.sign(0, registeredAt)))
    ensures loggedIn == Returned(GatewayUsers.Session(GatewayUsers.LOGGED_IN, jwt.sign(0, loggedInAt)))
    ensures admitted == Returned(true)
    ensures attached == Some(Users.PublicUser(0, body.name, Strings.Lower(body.email)))
    ensures loggedOut == Returned(GatewayUsers.LOGGED_OUT)
    ensures refused == Thrown(Raised(HttpException(Text(Guard.AUTH_FAILED), UNAUTHORIZED)))
  {
    var controller, user;
    controller, user, registered, loggedIn := Enrol(jwt, bcrypt, body, salt, registeredAt, loggedInAt);
    var tokenService, userService := controller.tokenService, controller.userService;
    var guard := new Guard.AuthGuard(tokenService, userService, isJwt);
    var header := "Bearer " + jwt.sign(0, loggedInAt);

    // a guarded request with the login token
    assert Users.FindById([user], 0) == Some(user);
    Guard.IssuedTokenAuthenticates(jwt, tokenService.rows, userService.users, isJwt, user, loggedInAt, loggedInAt);
    var request;
    admitted, request := Guarded(guard, header, loggedInAt);
    attached := request.user;

    // GET /user/logout
    var rowsBefore := tokenService.rows;
    loggedOut := controller.Logout(request);

    // the same token once more
    Guard.RevokedTokenRefused(jwt, rowsBefore, userService.users, isJwt, 0, loggedInAt, loggedInAt);
    var again;
    refused, again := Guarded(guard, header, loggedInAt);
  }
}
