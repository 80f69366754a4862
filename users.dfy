/**
 * The user service: registration with a duplicate-email check and a hashed
 * password, login that asks the token service for a token, and lookups that
 * never expose the password.
 */
module Users {
  import opened Wrappers
  import opened Ids
  import opened Exceptions
  import opened Crypto
  import opened ServiceExceptionFilter
  import Pagination
  import Tokens

  const DUPLICATED_EMAIL := "Duplicated email address"
  const INVALID_CREDENTIALS := "Invalid credentials"
  const USER_NOT_FOUND := "User not found"
  const USER_CREATED := "User account created successfully"
  const LOGGED_IN := "User logged in successfully"
  /** Appended to the gateway's base URL to form the pagination links of `findAll`. */
  const FIND_ALL_PATH := "/user/find-all"

  /** A stored user document; `password` holds the bcrypt hash. */
  datatype User = User(id: UserId, name: string, email: string, password: string)

  /** A user as the queries return it, projected with `{ password: 0 }`. */
  datatype PublicUser = PublicUser(id: UserId, name: string, email: string)

  function Public(user: User): PublicUser
  {
    PublicUser(user.id, user.name, user.email)
  }

  /** The `register` message (`IRegister`). */
  datatype RegisterMsg = RegisterMsg(name: string, email: string, password: string)

  /** The `login` message (`ILogin`). */
  datatype LoginMsg = LoginMsg(email: string, password: string)

  datatype Registered = Registered(message: string, userId: UserId)

  datatype LoggedIn = LoggedIn(message: string, token: string)

  ghost predicate HasEmail(users: seq<User>, email: string)
  {
    exists i :: 0 <= i < |users| && users[i].email == email
  }

  ghost predicate HasId(users: seq<User>, id: UserId)
  {
    exists i :: 0 <= i < |users| && users[i].id == id
  }

  /** `userModel.findOne({ email })`: the first user whose email is exactly `email`. */
  function FindByEmail(users: seq<User>, email: string): (r: Option<User>)
    ensures r.None? <==> !HasEmail(users, email)
    ensures r.Some? ==> r.value in users && r.value.email == email
  {
    if users == [] then None
    else if users[0].email == email then Some(users[0])
    else
      var r := FindByEmail(users[1..], email);
      assert forall i :: 1 <= i < |users| ==> users[i] == users[1..][i - 1];
      r
  }

  /** `userModel.findById(userId)`: the user with that id. */
  function FindById(users: seq<User>, id: UserId): (r: Option<User>)
    ensures r.None? <==> !HasId(users, id)
    ensures r.Some? ==> r.value in users && r.value.id == id
  {
    if users == [] then None
    else if users[0].id == id then Some(users[0])
    else
      var r := FindById(users[1..], id);
      assert forall i :: 1 <= i < |users| ==> users[i] == users[1..][i - 1];
      r
  }

  /** Looking up an email absent from the collection finds the user appended to it. */
  lemma {:induction false} FindByEmailAppended(users: seq<User>, user: User)
    requires !HasEmail(users, user.email)
    ensures FindByEmail(users + [user], user.email) == Some(user)
  {
    if users != [] {
      assert (users + [user])[1..] == users[1..] + [user];
      assert !HasEmail(users[1..], user.email) by {
        assert forall i :: 1 <= i < |users| ==> users[i] == users[1..][i - 1];
      }
      FindByEmailAppended(users[1..], user);
    }
  }

  /** Looking up a fresh id finds the user appended with it. */
  lemma {:induction false} FindByIdAppended(users: seq<User>, user: User)
    requires !HasId(users, user.id)
    ensures FindById(users + [user], user.id) == Some(user)
  {
    if users != [] {
      assert (users + [user])[1..] == users[1..] + [user];
      assert !HasId(users[1..], user.id) by {
        assert forall i :: 1 <= i < |users| ==> users[i] == users[1..][i - 1];
      }
      FindByIdAppended(users[1..], user);
    }
  }

  /** Appending a user with another email leaves every other email lookup as it was. */
  lemma {:induction false} FindByEmailOther(users: seq<User>, user: User, email: string)
    requires user.email != email
    ensures FindByEmail(users + [user], email) == FindByEmail(users, email)
  {
    if users != [] {
      assert (users + [user])[1..] == users[1..] + [user];
      FindByEmailOther(users[1..], user, email);
    }
  }

  /** `duplicatedEmail`: Conflict exactly when some user has exactly this email. */
  function DuplicatedEmail(users: seq<User>, email: string): (r: Outcome<()>)
    ensures r.Threw? <==> HasEmail(users, email)
    ensures r.Threw? ==> r.exception == Conflict(DUPLICATED_EMAIL)
  {
    if FindByEmail(users, email).Some? then Threw(Conflict(DUPLICATED_EMAIL)) else Done(())
  }

  /** `getUserByEmail`: the user with exactly this email, or Unauthorized. */
  function GetUserByEmail(users: seq<User>, email: string): (r: Outcome<User>)
    ensures r.Threw? <==> !HasEmail(users, email)
    ensures r.Threw? ==> r.exception == Unauthorized(INVALID_CREDENTIALS)
    ensures r.Done? ==> r.value in users && r.value.email == email
  {
    match FindByEmail(users, email)
    case None => Threw(Unauthorized(INVALID_CREDENTIALS))
    case Some(user) => Done(user)
  }

  /** `passwordEncoder`: bcrypt hash of the password with the freshly generated salt. */
  function PasswordEncoder(bcrypt: Bcrypt, password: string, salt: string): (encoded: string)
    ensures SoundBcrypt(bcrypt) ==> bcrypt.compare(password, encoded)
  {
    bcrypt.hash(password, salt)
  }

  /** `comparePassword(encodedPassword, password)` is `compareSync(password, encodedPassword)`. */
  function ComparePassword(bcrypt: Bcrypt, encodedPassword: string, password: string): (matched: bool)
    ensures SoundBcrypt(bcrypt) ==> forall salt :: encodedPassword == bcrypt.hash(password, salt) ==> matched
  {
    bcrypt.compare(password, encodedPassword)
  }

  /** The password a user registered with matches the hash stored for it. */
  lemma EncodedPasswordMatches(bcrypt: Bcrypt, password: string, salt: string)
    requires SoundBcrypt(bcrypt)
    ensures ComparePassword(bcrypt, PasswordEncoder(bcrypt, password, salt), password)
  {
  }

  /**
   * The first half of `login`: find the user by email and compare the password.
   * An unknown email and a wrong password give the very same Unauthorized.
   */
  function CheckCredentials(bcrypt: Bcrypt, users: seq<User>, email: string, password: string): (r: Outcome<User>)
    ensures r.Threw? ==> r.exception == Unauthorized(INVALID_CREDENTIALS)
    ensures r.Done? <==> FindByEmail(users, email).Some?
                         && ComparePassword(bcrypt, FindByEmail(users, email).value.password, password)
    ensures r.Done? ==> r.value in users && r.value.email == email
  {
    match GetUserByEmail(users, email)
    case Threw(exception) => Threw(exception)
    case Done(user) =>
      if !ComparePassword(bcrypt, user.password, password) then Threw(Unauthorized(INVALID_CREDENTIALS))
      else Done(user)
  }

  /** The two ways a login can fail look the same to the caller. */
  lemma LoginFailuresIndistinguishable(bcrypt: Bcrypt, users: seq<User>, unknown: string, known: string, password: string)
    requires !HasEmail(users, unknown)
    requires FindByEmail(users, known).Some? && !ComparePassword(bcrypt, FindByEmail(users, known).value.password, password)
    ensures CheckCredentials(bcrypt, users, unknown, password) == CheckCredentials(bcrypt, users, known, password)
  {
  }

  /**
   * How `login` turns the reply to its create-token message into its own result
   * (the `catchError` on the create-token call and the final return): a token is passed on, and a rejection is thrown again as
   * `new HttpException(message, statusCode)`.
   */
  function TokenReplyToLogin(reply: Rpc<Tokens.Created>): (r: Outcome<LoggedIn>)
    ensures reply.Ok? ==> r == Done(LoggedIn(LOGGED_IN, reply.payload.token))
    ensures reply.RpcErr? ==> r.Threw? && r.exception.status == reply.statusCode
  {
    match reply
    case Ok(created) => Done(LoggedIn(LOGGED_IN, created.token))
    case RpcErr(statusCode, message) => Threw(HttpException(Text(message), statusCode))
  }

  /** A token-service rejection leaves the user service with the same status and message. */
  lemma TokenRejectionPassesThroughLogin(statusCode: int, message: string)
    ensures Respond(TokenReplyToLogin(RpcErr(statusCode, message))) == RpcErr(statusCode, message)
  {
  }

  /**
   * `findOne` on the `userId` of a find-one message, None where it is
   * `undefined`: `findById(undefined)` looks for `_id: null` and finds nothing.
   * The result is the user without its password, or NotFound.
   */
  function FindOne(users: seq<User>, userId: Option<UserId>): (r: Outcome<PublicUser>)
    ensures r.Threw? <==> userId.None? || !HasId(users, userId.value)
    ensures r.Threw? ==> r.exception == NotFound(USER_NOT_FOUND)
    ensures r.Done? ==> exists i :: 0 <= i < |users| && users[i].id == userId.value && r.value == Public(users[i])
  {
    match userId
    case None => Threw(NotFound(USER_NOT_FOUND))
    case Some(id) =>
      match FindById(users, id)
      case None => Threw(NotFound(USER_NOT_FOUND))
      case Some(user) => Done(Public(user))
  }

  function PublicAll(users: seq<User>): (r: seq<PublicUser>)
    ensures |r| == |users|
    ensures forall i :: 0 <= i < |users| ==> r[i] == Public(users[i])
  {
    seq(|users|, i requires 0 <= i < |users| => Public(users[i]))
  }

  /** `findAll`: one page of all users, without passwords, linked under the gateway's base URL. */
  function FindAll(users: seq<User>, dto: Pagination.PaginationDto, baseUrl: string): (p: Pagination.Page<PublicUser>)
    requires Pagination.Pageable(dto)
    ensures p.meta == Pagination.Meta(|users|, |p.items|, dto.limit, Pagination.TotalPages(|users|, dto.limit), dto.page)
    ensures |p.items| == if Pagination.Skip(dto) >= |users| then 0 else Pagination.Min(dto.limit, |users| - Pagination.Skip(dto))
    ensures forall i :: 0 <= i < |p.items| ==> Pagination.Skip(dto) + i < |users| && p.items[i] == Public(users[Pagination.Skip(dto) + i])
    ensures p.links.Some?
    ensures p.links == Pagination.GetPaginationLinks(baseUrl + FIND_ALL_PATH, dto, |users|)
  {
    Pagination.Paginate(dto, PublicAll(users), baseUrl + FIND_ALL_PATH)
  }

  /**
   * What registration keeps true of the collection: emails and ids are unique,
   * and the id counter is above every id in use.
   */
  ghost predicate WellFormed(users: seq<User>, nextId: nat)
  {
    && (forall i, j :: 0 <= i < j < |users| ==> users[i].email != users[j].email)
    && (forall i, j :: 0 <= i < j < |users| ==> users[i].id != users[j].id)
    && (forall i :: 0 <= i < |users| ==> users[i].id < nextId)
  }

  /** A registered user can log in with the password it registered with. */
  lemma RegisteredUserCanLogIn(bcrypt: Bcrypt, users: seq<User>, user: User, password: string, salt: string)
    requires SoundBcrypt(bcrypt)
    requires !HasEmail(users, user.email)
    requires user.password == PasswordEncoder(bcrypt, password, salt)
    ensures CheckCredentials(bcrypt, users + [user], user.email, password) == Done(user)
  {
    FindByEmailAppended(users, user);
    EncodedPasswordMatches(bcrypt, password, salt);
  }

  /** A registered user is found by the id registration returned, without its password. */
  lemma RegisteredUserIsFound(users: seq<User>, nextId: nat, user: User)
    requires WellFormed(users, nextId)
    requires user.id == nextId
    ensures FindOne(users + [user], Some(user.id)) == Done(Public(user))
  {
    FindByIdAppended(users, user);
  }

  /** The user service and its `users` collection. */
  class UserService {
    const bcrypt: Bcrypt
    var users: seq<User>
    var nextId: nat

    ghost predicate Valid()
      reads this
    {
      WellFormed(users, nextId)
    }

    constructor (bcrypt: Bcrypt)
      ensures Valid()
      ensures this.bcrypt == bcrypt && users == [] && nextId == 0
    {
      this.bcrypt := bcrypt;
      users := [];
      nextId := 0;
    }

    /**
     * `register`: Conflict and no insertion when the exact email is taken;
     * otherwise one new user with a fresh id and the hashed password.
     */
    method Register(dto: RegisterMsg, salt: string) returns (r: Outcome<Registered>)
      requires Valid()
      modifies this
      ensures Valid()
      ensures HasEmail(old(users), dto.email) ==>
                r == Threw(Conflict(DUPLICATED_EMAIL)) && users == old(users) && nextId == old(nextId)
      ensures !HasEmail(old(users), dto.email) ==>
                && r == Done(Registered(USER_CREATED, old(nextId)))
                && users == old(users) + [User(old(nextId), dto.name, dto.email, PasswordEncoder(bcrypt, dto.password, salt))]
                && nextId == old(nextId) + 1
    {
      var duplicated := DuplicatedEmail(users, dto.email);
      if duplicated.Threw? {
        r := Threw(duplicated.exception);
        return;
      }
      var password := PasswordEncoder(bcrypt, dto.password, salt);
      var user := User(nextId, dto.name, dto.email, password);
      users := users + [user];
      nextId := nextId + 1;
      r := Done(Registered(USER_CREATED, user.id));
    }

    /**
     * `login`: check the credentials, then send create-token with the user's id
     * and pass its token on. The user collection is not touched.
     */
    method Login(tokenService: Tokens.TokenService, dto: LoginMsg, now: nat) returns (r: Outcome<LoggedIn>)
      requires tokenService.Valid()
      modifies tokenService
      ensures tokenService.Valid()
      ensures var checked := CheckCredentials(bcrypt, users, dto.email, dto.password);
        && (checked.Threw? ==> r == Threw(checked.exception) && tokenService.rows == old(tokenService.rows))
        && (checked.Done? ==>
              var token := tokenService.jwt.sign(checked.value.id, now);
              && r == Done(LoggedIn(LOGGED_IN, token))
              && tokenService.rows == old(tokenService.rows)[checked.value.id := token])
    {
      var checked := CheckCredentials(bcrypt, users, dto.email, dto.password);
      if checked.Threw? {
        r := Threw(checked.exception);
        return;
      }
      var created := tokenService.CreateToken(checked.value.id, now);
      r := TokenReplyToLogin(Respond(Done(created)));
    }
  }
}
