# Authentication and sessions across the NestJS TCP microservices

This project models the authentication and session protocol of a NestJS system split into four processes: an HTTP gateway (`core`) and three TCP microservices (`user`, `token`, `task`). The model is written in Dafny, and the properties the code promises are proved of it.

- **Token service.** It keeps one token per user. `createToken` signs a JWT and upserts the user's row. `verifyToken` checks the signature first and then requires the stored row to hold exactly that token. `destroyToken` deletes the row, or fails with NotFound when there is none.
- **User service.**
  - Registration rejects an exact duplicate email and stores a bcrypt hash of the password.
  - Login fails with the same Unauthorized whether the email is unknown or the password does not match. It then asks the token service for a token.
  - `findOne` and `findAll` never return the password.
- **Task service.** It stores tasks in the PENDING status and lists them per owner.
- **Gateway.**
  - The auth guard parses `Authorization: Bearer <jwt>`, verifies the token, looks up its user and attaches the user to the request.
  - The user and task controllers chain the services together. The owner of every task is the authenticated user.
- **Errors across the RPC boundary.** A service's exception filter turns an HttpException into `{ statusCode, message }`. The gateway's `exceptionHandler` turns that back into an HttpException.

Every remote call is a synchronous call on the modelled service: its outcome goes through the filter (`Respond`) and back through the handler (`HandleException`). Each MongoDB collection is represented by a value held by a Dafny class: the token rows are a `map` from user id to token, and the users and tasks are `seq`s.

The libraries are parameters:

- **JWT signing and verification** are a pair of functions, with the property that a signed token decodes to its claim until `1d` has passed (`SoundJwt`).
- **`isJWT`** accepts the tokens the service signs and only non-empty strings without spaces (`ShapeMatches`).
- **bcrypt** is a hash/compare pair in which a password always matches its own hash (`SoundBcrypt`).
- **`IsEmail`** is a predicate.
- **Time** is the `now` argument.
- **The salt** from `genSaltSync` is the `salt` argument.
- **The base URL** is the `baseUrl` argument.

Modules, one per file:

- `Wrappers`, `Ids`, `Exceptions` (`exceptions.dfy`).
- `ServiceExceptionFilter` (`exception_filter.dfy`) and `ExceptionHandling` (`exception_handler.dfy`).
- `Strings`: the JavaScript `toLowerCase`, `split`, `trim` and number rendering.
- `Crypto`.
- The services: `Tokens`, `Users`, `Tasks`, `Pagination`.
- The gateway: `RegisterDtos` (`register_dto.dfy`), `Guard`, `GatewayUsers`, `GatewayTasks`.
- `Scenarios`: the whole register → login → guarded request → logout life cycle.

Where the system's documented design and its code disagree, the model follows the code:

- **The guard does not remap NotFound.** If the token is valid but the user is gone, a guarded request reaches the client as the user service's 404 "User not found", not as a 401 (`Guard.MissingUserIsNotFound`).
- **The payload check in `tokenValidator` is modelled as written.** The test `typeof payload !== "object" && "userId" in payload` lets every object through. `Tokens.GuardAsWrittenAcceptsMissingClaim` shows that this guard accepts an object without `userId`, where the intended check would not. The lookup that follows, `findOne({ userId, token })`, drops a filter key whose value is `undefined`. So a claim-less payload matches any row holding that token, and `verifyToken` then returns `{ userId: undefined }`; the guard's find-one answers 404 (`Tokens.ClaimlessStoredTokenVerifies`, `Guard.MissingUserIsNotFound`). On rows the token service wrote, every token is signed for its row's user (`Tokens.TokenService.Valid`), so no stored token is claim-less. `Tokens.IntendedGuardGivesSameVerification` shows that, on such rows, `verifyToken` gives the same result either way.

## Model

| member | source | states |
|---|---|---|
| ServiceExceptionFilter.Catch | user/src/common/Filters/exception.filter.ts:19-37 | The filter always emits a rejection, never a value. Its statusCode is the exception's status. Its message is the response when the response is a string; otherwise it is the object's `message` field, or "" when that field is absent. |
| ServiceExceptionFilter.Respond | user/src/common/Filters/exception.filter.ts:15-37 | A service handler's outcome as the client receives it. A returned value arrives as success with that very value. A thrown exception arrives as the filter's rejection. |
| ExceptionHandling.HandleException | core/src/common/utilities/exception-handler.utility.ts:8-16 | The result is what the handler throws; it never returns normally. A remote rejection becomes an HttpException with the rejection's message and statusCode. Any other error is rethrown unchanged. |
| ExceptionHandling.HandleExceptionIdempotent | core/src/common/utilities/exception-handler.utility.ts:9-15 | Handling the handler's own output again changes nothing. |
| ExceptionHandling.FilterThenHandlerPreservesStatusAndMessage | user/src/common/Filters/exception.filter.ts:22-37 | Round trip: an exception a service throws, passed through the filter and then the gateway handler, arrives as an HttpException with the same status and the same message. |
| ExceptionHandling.FilterThenHandlerRestoresTextException | core/src/common/utilities/exception-handler.utility.ts:9-11 | An exception built as `new HttpException(message, status)` comes back through the boundary identical. |
| ExceptionHandling.RethrownRejectionIsUnchanged | core/src/common/utilities/exception-handler.utility.ts:11 | A rejection that is re-raised and then filtered again is the same RPC error. |
| Strings.Lower | core/src/modules/user/dto/register.dto.ts:15 | `toLowerCase` keeps the length and lower-cases each character in place. |
| Strings.LowerIdempotent | core/src/modules/user/dto/register.dto.ts:15 | Lower-casing twice is the same as lower-casing once. |
| Strings.Split | core/src/modules/user/guard/auth.guard.ts:71 | `split(" ")` gives at least one field, and no field contains the separator. |
| Strings.JoinSplit | core/src/modules/user/guard/auth.guard.ts:71 | Joining the fields of a split gives back the original string. |
| Strings.SplitJoin | core/src/modules/user/guard/auth.guard.ts:71 | Splitting the join of fields that contain no separator gives back exactly those fields. |
| Strings.SplitWithoutSeparator | core/src/modules/user/guard/auth.guard.ts:71 | A string without the separator splits into a single field. |
| Strings.SplitAtFirstSeparator | core/src/modules/user/guard/auth.guard.ts:71 | The first separator ends the first field. |
| Strings.TrimStartEmpty | core/src/modules/user/guard/auth.guard.ts:66 | Trimming the start gives "" exactly when the string is all whitespace. Otherwise the result starts with a non-whitespace character. |
| Strings.TrimEndEmpty | core/src/modules/user/guard/auth.guard.ts:66 | Trimming the end gives "" exactly when the string is all whitespace. |
| Strings.TrimEmptyIffBlank | core/src/modules/user/guard/auth.guard.ts:66 | `trim() == ""` holds exactly when every character is ECMAScript whitespace. |
| Strings.NatToString | user/src/common/utilities/pagination.utility.ts:123 | A natural number renders as a non-empty string of decimal digits. |
| Strings.IntToString | user/src/common/utilities/pagination.utility.ts:123 | An integer inside a template literal never renders as the empty string; its sign and its injectivity are the two lemmas below. |
| Strings.ParseNatToString | user/src/common/utilities/pagination.utility.ts:123 | Parsing the rendered digits gives the number back. |
| Strings.IntToStringSign | user/src/common/utilities/pagination.utility.ts:123 | A rendered integer starts with '-' exactly when it is negative. |
| Strings.IntToStringInjective | user/src/common/utilities/pagination.utility.ts:123-132 | Distinct integers render differently. |
| Tokens.TokenValidator | token/src/modules/token/token.service.ts:83-98 | The validator succeeds exactly when the JWT verifies to an object payload, whether or not that object has `userId`. Every failure is Unauthorized "Authorization failed, please retry". |
| Tokens.IntendedTokenValidator | token/src/modules/token/token.service.ts:90 | The check the comment describes: the payload must be an object that holds a `userId`. |
| Tokens.GuardAsWrittenAcceptsMissingClaim | token/src/modules/token/token.service.ts:91 | An object payload without `userId` passes the guard as written. The intended check refuses it. |
| Tokens.FindTokenRow | token/src/modules/token/token.service.ts:53-59 | A validated payload with the claim `u` matches exactly when `u`'s row holds this token, and yields `u`. A payload without the claim matches exactly when some row holds this token, and yields `undefined`. A failed validation passes through, and no match is Unauthorized. |
| Tokens.NoClaimlessMatch | token/src/modules/token/token.service.ts:53 | When every row holds a token signed for its own user, no stored token decodes to a claim-less payload. |
| Tokens.IntendedGuardGivesSameVerification | token/src/modules/token/token.service.ts:91 | On rows the service wrote, each holding a token signed for its user, `verifyToken` gives the same result with the intended guard as with the guard as written. |
| Tokens.ClaimlessStoredTokenVerifies | token/src/modules/token/token.service.ts:49-59 | Without that invariant the guards differ: a stored token whose payload has no claim verifies with `userId` undefined, where the intended guard refuses it. |
| Tokens.IssuePreservesSigned | token/src/modules/token/token.service.ts:26-34 | Writing a freshly signed token into the user's row keeps every row signed for its user. |
| Tokens.RevokePreservesSigned | token/src/modules/token/token.service.ts:66-72 | Deleting a row keeps every remaining row signed for its user. |
| Tokens.VerifyToken | token/src/modules/token/token.service.ts:49-60 | `verifyToken` succeeds with `u` only when the token verifies to the claim `u` and `u`'s stored row holds exactly this token. It succeeds with `undefined` only when the token verifies to a claim-less object and some row holds it. Each failure is the same Unauthorized, and then neither case holds for any user. It is a function of the rows, so it changes nothing. |
| Tokens.VerifyAfterCreate | token/src/modules/token/token.service.ts:26-60 | A token just signed and stored for `u` verifies to `u` until it expires. |
| Tokens.ReissueRevokesEarlierToken | token/src/modules/token/token.service.ts:107-112 | After a second `createToken` for the same user that produces a different string, the first token is refused with Unauthorized. |
| Tokens.DestroyRevokesUser | token/src/modules/token/token.service.ts:66-72 | Once the user's row is deleted, no token verifies to that user. |
| Tokens.DestroyRevokesToken | token/src/modules/token/token.service.ts:66-72 | Once the user's row is deleted, the user's token is refused with Unauthorized. |
| Tokens.AtMostOneLiveToken | token/src/modules/token/token.service.ts:53 | Two tokens that both verify to the same user are the same token, because `userId` is a unique key. |
| Tokens.OtherUsersUnaffected | token/src/modules/token/token.service.ts:106-117 | On rows the service wrote, issuing a signed token for one user or deleting that user's row leaves the verification of every token not claiming that user unchanged. |
| Tokens.TokenService.CreateToken | token/src/modules/token/token.service.ts:26-43 | Returns "Token creates successfully" and the token signed for the user at `now`. The user's row now holds that token, and every other row is unchanged. Every row stays signed for its user. |
| Tokens.TokenService.SaveUserToken | token/src/modules/token/token.service.ts:106-117 | Upsert: the user's row holds the new token. An existing row is overwritten, so the row count is unchanged; otherwise exactly one row is added. |
| Tokens.TokenService.DestroyToken | token/src/modules/token/token.service.ts:66-77 | With a row present, the row is deleted and "Token destroyed successfully" is returned. With no row, the result is NotFound "Token was not found" and the rows are unchanged. Every row stays signed for its user. |
| Pagination.TotalPages | user/src/common/utilities/pagination.utility.ts:98 | `Math.ceil(totalItems / limit)`: the fewest pages of `limit` items that hold every item. It is 0 exactly when there are no items. |
| Pagination.Items | user/src/common/utilities/pagination.utility.ts:84-88 | `.skip(skip).limit(limit)` gives at most `limit` items, namely the ones starting at `skip`, in order. |
| Pagination.PageLink | user/src/common/utilities/pagination.utility.ts:123 | A page link is never "". |
| Pagination.GetPaginationLinks | user/src/common/utilities/pagination.utility.ts:113-134 | There are no links exactly when the base link is empty. `first` points to page 1 and `last` to `totalPages`. `previous` is "" exactly when `page <= 1` and otherwise points to `page-1`. `next` is "" exactly when `page >= totalPages` and otherwise points to `page+1`. |
| Pagination.Paginate | user/src/common/utilities/pagination.utility.ts:51-103 | The find-query branch. `skip` is the given nonzero `skip`, otherwise `(page-1)*limit`. The items are the slice starting at `skip`, and `itemCount` is their number. `itemsPerPage` is `limit`, `currentPage` is `page`, `totalPages` is the ceiling, and the links are `getPaginationLinks`. The offset is `Pagination.Skip`. |
| Pagination.PageLinkInjective | user/src/common/utilities/pagination.utility.ts:122-133 | Links with the same base and limit but different page numbers differ, so each link names its page. |
| Pagination.PageItemsAreSlice | user/src/common/utilities/pagination.utility.ts:59-88 | Page `n` of a request without `skip` holds exactly the items between offsets `(n-1)*limit` and `n*limit`. |
| Pagination.FirstPagesArePrefix | user/src/common/utilities/pagination.utility.ts:59-88 | Pages 1 to `n`, concatenated, are the first `n*limit` items. |
| Pagination.PagesCoverCollection | user/src/common/utilities/pagination.utility.ts:84-99 | Walking pages 1 to `totalPages` visits every item exactly once, in order. |
| Users.FindByEmail | user/src/modules/user/user.service.ts:124 | `findOne({ email })` finds nothing exactly when no user has exactly this email. Otherwise it finds a stored user with that email. |
| Users.FindById | user/src/modules/user/user.service.ts:109 | `findById` finds nothing exactly when no user has this id. Otherwise it finds the stored user with that id. |
| Users.FindByEmailAppended | user/src/modules/user/user.service.ts:47 | A user inserted under a fresh email is found by that email. |
| Users.FindByIdAppended | user/src/modules/user/user.service.ts:47 | A user inserted under a fresh id is found by that id. |
| Users.FindByEmailOther | user/src/modules/user/user.service.ts:47 | Inserting a user leaves lookups of every other email unchanged. |
| Users.DuplicatedEmail | user/src/modules/user/user.service.ts:122-129 | Throws Conflict "Duplicated email address" exactly when some user has exactly this email. |
| Users.GetUserByEmail | user/src/modules/user/user.service.ts:135-144 | Returns the user with exactly this email. If there is none, it throws Unauthorized "Invalid credentials". |
| Users.PasswordEncoder | user/src/modules/user/user.service.ts:150-155 | With a sound bcrypt, the stored hash is one that bcrypt's compare accepts for the original password. |
| Users.ComparePassword | user/src/modules/user/user.service.ts:162-164 | `comparePassword(encoded, password)` calls `compareSync(password, encoded)`. With a sound bcrypt, it accepts a password against any hash of that password. |
| Users.EncodedPasswordMatches | user/src/modules/user/user.service.ts:150-164 | `comparePassword` accepts the password against the hash `passwordEncoder` stored for it. |
| Users.CheckCredentials | user/src/modules/user/user.service.ts:59-67 | Succeeds exactly when a user has this email and the password matches that user's stored hash. Every failure is Unauthorized "Invalid credentials". |
| Users.LoginFailuresIndistinguishable | user/src/modules/user/user.service.ts:63-67 | An unknown email and a wrong password fail identically. |
| Users.TokenReplyToLogin | user/src/modules/user/user.service.ts:69-83 | The create-token reply is returned with "User logged in successfully". A rejection is re-raised as `new HttpException(message, statusCode)`, keeping its status. |
| Users.TokenRejectionPassesThroughLogin | user/src/modules/user/user.service.ts:72-75 | A token-service rejection leaves the user service as the same statusCode and message. |
| Users.FindOne | user/src/modules/user/user.service.ts:107-116 | Fails with NotFound "User not found" exactly when the message's `userId` is undefined or no user has it. Otherwise it returns that user without the password. |
| Users.PublicAll | user/src/common/utilities/pagination.utility.ts:85 | The `{ password: 0 }` projection: every user, in order, without the password. |
| Users.FindAll | user/src/modules/user/user.service.ts:90-101 | The page's meta counts all users. `itemCount` is the exact page length: none past the end, otherwise `min(limit, total - skip)`. `itemsPerPage`, `totalPages` and `currentPage` are as in `paginate`. The items are the users from `skip` onwards, without passwords. The links are always present and are `getPaginationLinks` under `<baseUrl>/user/find-all`. |
| Users.RegisteredUserCanLogIn | user/src/modules/user/user.service.ts:39-67 | A user registered with a password logs in with that password. |
| Users.RegisteredUserIsFound | user/src/modules/user/user.service.ts:107-116 | A newly registered user is found by the returned id, without the password. |
| Users.UserService.Register | user/src/modules/user/user.service.ts:39-53 | If the email is taken: Conflict, and nothing is inserted. Otherwise: exactly one user is appended, with a fresh id and the hashed password, and that id is returned. Emails and ids stay unique. |
| Users.UserService.Login | user/src/modules/user/user.service.ts:59-84 | On bad credentials: Unauthorized, and the token rows are unchanged. Otherwise create-token runs with the user's id, and login returns exactly the token now stored for that user. |
| Tasks.GetList | task/src/modules/task/task.service.ts:37-40 | `find({ userId })` returns exactly the tasks whose `userId` is `u`. |
| Tasks.GetListAppend | task/src/modules/task/task.service.ts:20-40 | A created task extends its owner's list by itself and leaves every other user's list unchanged. |
| Tasks.GetListKeepsMultiplicity | task/src/modules/task/task.service.ts:37-40 | The list holds each of the user's tasks as often as the collection does, and nothing else. |
| Tasks.TaskService.Create | task/src/modules/task/task.service.ts:20-31 | Appends exactly one task: status PENDING, with the message's title, description and userId, under a fresh id. It returns "Task created successfully" and that task. |
| RegisterDtos.ToRegisterDto | core/src/modules/user/dto/register.dto.ts:4-25 | The filtered DTO keeps name and password as given, and the email lower-cased character by character. |
| RegisterDtos.Validate | core/src/modules/user/dto/register.dto.ts:6-24 | A violation is reported for the name exactly when it is empty. For the email, exactly when it is empty or `IsEmail` refuses it. For the password, exactly when it is shorter than 6 characters. |
| RegisterDtos.ToRegisterDtoIdempotent | core/src/modules/user/dto/register.dto.ts:15 | Transforming an already transformed body changes nothing. |
| RegisterDtos.CaseVariantsShareEmail | core/src/modules/user/dto/register.dto.ts:15 | Emails that differ only in letter case register under the same key. |
| RegisterDtos.ExtraFieldsDropped | core/src/modules/user/user.controller.ts:44-46 | Fields outside the DTO never reach the user service. |
| RegisterDtos.CaseVariantIsDuplicate | core/src/modules/user/dto/register.dto.ts:15 | A case variant of a registered email is rejected as a duplicate. |
| Guard.ExtractToken | core/src/modules/user/guard/auth.guard.ts:61-79 | A missing or blank header is rejected. Every rejection is Unauthorized "Authorization failed, please retry". An accepted token satisfies `isJWT`, is non-empty and has no spaces. |
| Guard.WellFormedHeaderAccepted | core/src/modules/user/guard/auth.guard.ts:71-78 | A header made of a scheme that any letter case of "bearer" fits, a token, and any further space-separated fields yields exactly the token. Fields after the second are ignored. |
| Guard.BearerHeaderAccepted | core/src/modules/user/guard/auth.guard.ts:71-78 | `Bearer <token>` yields the token. |
| Guard.AcceptedHeaderShape | core/src/modules/user/guard/auth.guard.ts:71-78 | An accepted header is a scheme that lower-cases to "bearer", one space, the token, and then either nothing or a space followed by further text. |
| Guard.SchemeCaseInsensitive | core/src/modules/user/guard/auth.guard.ts:74 | Two schemes that lower-case alike are treated alike. |
| Guard.NoTokenFieldRejected | core/src/modules/user/guard/auth.guard.ts:71-75 | A header without a space, such as a bare scheme, is rejected. |
| Guard.DoubleSpaceRejected | core/src/modules/user/guard/auth.guard.ts:71-75 | Two spaces after the scheme make the token field empty, and the header is rejected. |
| Guard.OtherSchemeRejected | core/src/modules/user/guard/auth.guard.ts:74-75 | Any scheme other than "bearer" is rejected, whatever follows it. |
| Guard.NonJwtRejected | core/src/modules/user/guard/auth.guard.ts:74-75 | A token that `isJWT` refuses is rejected. |
| Guard.Authenticate | core/src/modules/user/guard/auth.guard.ts:31-55 | Success needs three things, in order: the header parses, verify-token accepts its token, and find-one finds the `userId` verify returned, which must be defined. The user then returned is that found user. Every failure is thrown as an HttpException: either 401 "Authorization failed, please retry" or 404 "User not found". A header that does not parse gives the guard's own Unauthorized. A token that verify-token rejects (expired, forged, not stored) gives the rejection's own 401 "Authorization failed, please retry". |
| Guard.IssuedTokenAuthenticates | core/src/modules/user/guard/auth.guard.ts:37-51 | A stored, unexpired token of an existing user authenticates that user. |
| Guard.RevokedTokenRefused | core/src/modules/user/guard/auth.guard.ts:40-54 | Once the user's row is deleted, the token is refused with 401 and the verifier's message. |
| Guard.MissingUserIsNotFound | core/src/modules/user/guard/auth.guard.ts:45-54 | A valid token whose `userId` is missing from the user service, or undefined, reaches the caller as find-one's own 404 "User not found". |
| Guard.UnparsableHeaderRefused | core/src/modules/user/guard/auth.guard.ts:37-54 | A header that does not parse is refused with the guard's own Unauthorized, before any remote call. |
| Guard.AuthGuard.CanActivate | core/src/modules/user/guard/auth.guard.ts:31-55 | Only on success is `request.user` set to the looked-up user, and the result is `true`. Otherwise the handled error is thrown and the request is unchanged. It never returns `false`. |
| GatewayUsers.UserController.Register | core/src/modules/user/user.controller.ts:41-65 | If the email is taken: 409 "Duplicated email address" is thrown, no create-token happens, and both stores are unchanged. Otherwise: the user is registered with the lower-cased email, create-token runs with the new id, and its token is returned with "User account created successfully". |
| GatewayUsers.UserController.Login | core/src/modules/user/user.controller.ts:73-92 | Returns exactly the token the user service's login produced. On bad credentials it throws 401 "Invalid credentials". |
| GatewayUsers.UserController.FindAll | core/src/modules/user/user.controller.ts:100-116 | Returns exactly the user service's `findAll` page, unchanged: every user counted, the exact number of items, the items being the users from `skip` on without passwords. |
| GatewayUsers.UserController.Logout | core/src/modules/user/user.controller.ts:124-137 | Sends destroy-token with the authenticated `request.user._id`. With a row present, the row is deleted and "User logged out successfully" is returned. With no row, 404 "Token was not found" is thrown. With no user attached, the TypeError is rethrown. |
| GatewayTasks.ToCreateTaskDto | core/src/modules/task/task.controller.ts:35-37 | The DTO keeps only the title and description. |
| GatewayTasks.TaskMessage | core/src/modules/task/task.controller.ts:41 | The message's `userId` is the authenticated id, spread last. |
| GatewayTasks.ClientCannotChooseOwner | core/src/modules/task/task.controller.ts:32-42 | Neither a `userId` nor any other field in the body changes the message. |
| GatewayTasks.TaskController.Create | core/src/modules/task/task.controller.ts:29-51 | The new task is owned by `request.user._id`, in PENDING, with the body's title and description. It is appended to the task store and returned with "Task created successfully". With no user attached, the TypeError is rethrown and the store is unchanged. |
| GatewayTasks.TaskController.Tasks | core/src/modules/task/task.controller.ts:58-71 | Returns exactly the task service's `getList` for the authenticated user, so a stored task is in the reply exactly when that user owns it. With no user attached, the TypeError is rethrown. |
| Scenarios.Enrol | core/src/modules/user/user.controller.ts:41-92 | On fresh services: registration returns the token signed for id 0, login returns the token signed at login time, and only the login token stays stored. |
| Scenarios.SessionLifecycle | core/src/modules/user/user.controller.ts:41-137 | Register, then log in, then a guarded request with the login token, which is admitted and attaches the registered user without its password. Then logout succeeds, and the same token is refused with 401 "Authorization failed, please retry". |

## Left out

- The TCP transport, `ClientProxy`, `lastValueFrom` and the rxjs pipes. Each message is a synchronous call whose outcome passes through `Respond` and `HandleException`. Timeouts and unavailable services are not modelled; no code handles them.
- Module wiring, bootstrap, environment variables, Swagger, the response interceptor and the message-pattern controllers, which only route message names to service methods. `AuthDecorator` is not modelled as routing: the handlers take a request whose user the guard attached.
- The global validation pipe (`UnprocessableEntityPipe`) is not part of this model. `RegisterDtos.Validate` states the `RegisterDto` rules but nothing calls it, so invalid bodies are not rejected before the handlers run. Likewise `LoginDto` and the gateway's `PaginationDto` are not part of this model: the login filter keeps email and password, and pagination requests are assumed pageable.
- GatewayUsers.UserController.FindAll: requires `limit > 0` and a non-negative skip (`Pagination.Pageable`), because `limit(0)` ("no limit") and a negative skip are MongoDB behaviour outside the model.
- Users.FindAll: requires `Pagination.Pageable` for the same reason: `limit(0)` and a negative skip are MongoDB behaviour outside the model.
- Pagination.Paginate: requires `Pagination.Pageable` for the same reason.
- Pagination.TotalPages: requires `limit > 0`. With `limit` 0 the source divides by zero and gets `Infinity`, and the model has no floating point.
- Pagination.GetPaginationLinks: requires `limit > 0`, because it computes `Pagination.TotalPages`.
- Strings.NatToString: renders unbounded integers. JavaScript renders numbers from 1e21 upwards in exponent form ("1e+21"), and that is not modelled.
- Strings.IntToString: the same exponent form for magnitudes from 1e21 upwards is not modelled.
- Pagination.Skip: computes `(page - 1) * limit` on unbounded integers. JavaScript numbers are doubles, which lose precision above 2^53; that rounding is not modelled, and neither is the rounding in `Pagination.TotalPages`'s `totalItems / limit`.
- Pagination.Paginate: the aggregate-pipeline branch (user/src/common/utilities/pagination.utility.ts:64-80) is not modelled; no caller uses it.
- Concurrency: the check-then-insert race in `register` and concurrent upserts in `saveUserToken`. The model is sequential.
- Library internals: JWT signing and expiry, bcrypt, `genSaltSync`, `isJWT` and `IsEmail` stand behind the parameters and properties described above.
- MongoDB specifics: ObjectIds are modelled as `nat` counters, and query operators are not modelled. A filter key whose value is `undefined` is modelled as dropped from the query.
- Strings.Lower: maps the ASCII capitals only; full Unicode case mapping is not modelled.
- RegisterDtos.ToRegisterDto: models string fields only. A missing or non-string `email`, on which the transform would throw, is not modelled.
- ServiceExceptionFilter.Catch: takes an HttpException, since `getStatus()` is only defined on one. A `message` that is an array, as validation errors produce, is not modelled.
- Tasks.TaskStatus: the task-status enum is not part of this model. Only PENDING is used by the code; other values are carried by name.
- Mongoose timestamps and other document fields are not modelled.
