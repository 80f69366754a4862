/**
 * The gateway's `RegisterDto`: the body is filtered to its exposed fields, the
 * email is lowercased, and the validation rules on each field.
 */
module RegisterDtos {
  import opened Strings
  import Users

  /** A register request body as received: the three fields and whatever else came with them. */
  datatype RegisterBody = RegisterBody(name: string, email: string, password: string, extra: map<string, string>)

  const MIN_PASSWORD_LENGTH := 6

  /**
   * `plainToClass(RegisterDto, body, { excludeExtraneousValues: true })`: only
   * the exposed fields survive, and the `@Transform` lowercases the email.
   */
  function ToRegisterDto(body: RegisterBody): (dto: Users.RegisterMsg)
    ensures dto.name == body.name && dto.password == body.password
    ensures |dto.email| == |body.email|
    ensures forall i :: 0 <= i < |body.email| ==> dto.email[i] == LowerChar(body.email[i])
  {
    Users.RegisterMsg(body.name, Lower(body.email), body.password)
  }

  /** The properties of `RegisterDto` a validation error can be reported for. */
  datatype Field = Name | Email | Password

  /**
   * The class-validator rules, as the set of properties that fail them: the name
   * must be non-empty, the email non-empty and accepted by `IsEmail` (a parameter
   * here), and the password non-empty and at least six characters long.
   */
  function Validate(dto: Users.RegisterMsg, isEmail: string -> bool): (failed: set<Field>)
    ensures Name in failed <==> dto.name == ""
    ensures Email in failed <==> dto.email == "" || !isEmail(dto.email)
    ensures Password in failed <==> |dto.password| < MIN_PASSWORD_LENGTH
  {
    (if dto.name == "" then {Name} else {})
    + (if dto.email == "" || !isEmail(dto.email) then {Email} else {})
    + (if dto.password == "" || |dto.password| < MIN_PASSWORD_LENGTH then {Password} else {})
  }

  /** Transforming an already transformed body changes nothing. */
  lemma ToRegisterDtoIdempotent(body: RegisterBody, extra: map<string, string>)
    ensures var dto := ToRegisterDto(body);
            ToRegisterDto(RegisterBody(dto.name, dto.email, dto.password, extra)) == dto
  {
    LowerIdempotent(body.email);
  }

  /** Two bodies whose emails differ only in letter case register under the same email. */
  lemma CaseVariantsShareEmail(a: RegisterBody, b: RegisterBody)
    requires |a.email| == |b.email|
    requires forall i :: 0 <= i < |a.email| ==> LowerChar(a.email[i]) == LowerChar(b.email[i])
    ensures ToRegisterDto(a).email == ToRegisterDto(b).email
  {
  }

  /** Extra fields in the body never reach the user service. */
  lemma ExtraFieldsDropped(body: RegisterBody, extra: map<string, string>)
    ensures ToRegisterDto(body) == ToRegisterDto(RegisterBody(body.name, body.email, body.password, extra))
  {
  }

  /**
   * With emails normalised by the transform, a case variant of a registered
   * email is a duplicate for the user service.
   */
  lemma CaseVariantIsDuplicate(users: seq<Users.User>, registered: RegisterBody, again: RegisterBody)
    requires Users.HasEmail(users, ToRegisterDto(registered).email)
    requires |registered.email| == |again.email|
    requires forall i :: 0 <= i < |again.email| ==> LowerChar(registered.email[i]) == LowerChar(again.email[i])
    ensures Users.DuplicatedEmail(users, ToRegisterDto(again).email).Threw?
  {
    CaseVariantsShareEmail(registered, again);
  }
}
