/**
 * The zod schemas of the account forms (schemas/index.ts) as predicates over
 * typed input. A schema yields the list of issues it reports; input passes when
 * that list is empty. zod reports a too-short string or a malformed e-mail
 * without aborting, so the object's refinements still run and add their own
 * issues after the field issues.
 */
module Schemas {
  import opened Base

  datatype Role = ADMIN | USER

  /** The path an issue is reported on. */
  datatype Field = Name | IsTwoFactorEnabled | RoleField | Email | Password | NewPassword | Code

  /** What went wrong; `message` is the custom message when the schema gives one, `text` a refinement's message. */
  datatype IssueKind =
    | InvalidEmail(message: Option<string>)
    | TooShort(minimum: nat, message: Option<string>)
    | Refinement(text: string)

  datatype Issue = Issue(path: Field, kind: IssueKind)

  datatype SettingsValues = SettingsValues(
    name: Option<string>,
    isTwoFactorEnabled: Option<bool>,
    role: Role,
    email: Option<string>,
    password: Option<string>,
    newPassword: Option<string>)

  datatype LoginValues = LoginValues(email: string, password: string, code: Option<string>)

  datatype RegisterValues = RegisterValues(email: string, password: string, name: string)

  const EmailRequired: string := "Email é obrigatório"
  const PasswordRequired: string := "Senha é obrigatória!"
  const NewPasswordRequired: string := "Nova Senha é obrigatória!"
  const MinimumSix: string := "Mínimo de 6 caracteres necessários"
  const NameRequired: string := "O nome é obrigatório"

  /** A dot with at least one character on each side. */
  predicate InnerDot(domain: string) {
    exists j :: 0 < j < |domain| - 1 && domain[j] == '.'
  }

  /**
   * zod's `.email()`, approximated: no spaces, exactly one '@' with a non-empty
   * part before it and a dotted domain after it.
   */
  predicate IsEmail(s: string) {
    ' ' !in s &&
    exists i :: 0 < i < |s| && s[i] == '@' && '@' !in s[..i] && '@' !in s[i + 1..] && InnerDot(s[i + 1..])
  }

  function EmailIssues(path: Field, s: string, message: Option<string>): seq<Issue> {
    if IsEmail(s) then [] else [Issue(path, InvalidEmail(message))]
  }

  function MinIssues(path: Field, s: string, minimum: nat, message: Option<string>): seq<Issue> {
    if |s| >= minimum then [] else [Issue(path, TooShort(minimum, message))]
  }

  function OptionalEmailIssues(path: Field, s: Option<string>): seq<Issue> {
    if s.Some? then EmailIssues(path, s.value, None) else []
  }

  function OptionalMinIssues(path: Field, s: Option<string>, minimum: nat): seq<Issue> {
    if s.Some? then MinIssues(path, s.value, minimum, None) else []
  }

  /**
   * `SettingsSchema.safeParse(v)`: the field checks, then the refinement that
   * wants a new password beside a password (reported on `newPassword`), then
   * the one that wants a password beside a new password (reported on `password`).
   */
  function SettingsIssues(v: SettingsValues): (issues: seq<Issue>)
    ensures issues == [] <==>
      && (v.email.Some? ==> IsEmail(v.email.value))
      && (v.password.Some? <==> v.newPassword.Some?)
      && (v.password.Some? ==> |v.password.value| >= 6)
      && (v.newPassword.Some? ==> |v.newPassword.value| >= 6)
    ensures Truthy(v.password) && !Truthy(v.newPassword) ==>
      Issue(NewPassword, Refinement(NewPasswordRequired)) in issues
    ensures Truthy(v.newPassword) && !Truthy(v.password) ==>
      Issue(Password, Refinement(PasswordRequired)) in issues
    ensures forall i :: 0 <= i < |issues| ==> issues[i].path in {Email, Password, NewPassword}
  {
    var fields := OptionalEmailIssues(Email, v.email)
      + OptionalMinIssues(Password, v.password, 6)
      + OptionalMinIssues(NewPassword, v.newPassword, 6);
    var newPasswordNeeded :=
      if Truthy(v.password) && !Truthy(v.newPassword)
      then [Issue(NewPassword, Refinement(NewPasswordRequired))] else [];
    var passwordNeeded :=
      if Truthy(v.newPassword) && !Truthy(v.password)
      then [Issue(Password, Refinement(PasswordRequired))] else [];
    fields + newPasswordNeeded + passwordNeeded
  }

  /** `LoginSchema`: a well-formed e-mail and a non-empty password; the code is free. */
  function LoginIssues(v: LoginValues): (issues: seq<Issue>)
    ensures issues == [] <==> IsEmail(v.email) && v.password != ""
    ensures !IsEmail(v.email) ==> Issue(Email, InvalidEmail(Some(EmailRequired))) in issues
    ensures v.password == "" ==> Issue(Password, TooShort(1, Some(PasswordRequired))) in issues
  {
    EmailIssues(Email, v.email, Some(EmailRequired))
      + MinIssues(Password, v.password, 1, Some(PasswordRequired))
  }

  /** `RegisterSchema`: a well-formed e-mail, a password of six or more characters, a non-empty name. */
  function RegisterIssues(v: RegisterValues): (issues: seq<Issue>)
    ensures issues == [] <==> IsEmail(v.email) && |v.password| >= 6 && v.name != ""
    ensures !IsEmail(v.email) ==> Issue(Email, InvalidEmail(Some(EmailRequired))) in issues
    ensures |v.password| < 6 ==> Issue(Password, TooShort(6, Some(MinimumSix))) in issues
    ensures v.name == "" ==> Issue(Name, TooShort(1, Some(NameRequired))) in issues
  {
    EmailIssues(Email, v.email, Some(EmailRequired))
      + MinIssues(Password, v.password, 6, Some(MinimumSix))
      + MinIssues(Name, v.name, 1, Some(NameRequired))
  }

  /** `NewPasswordSchema`: a password of six or more characters. */
  function NewPasswordIssues(password: string): (issues: seq<Issue>)
    ensures issues == [] <==> |password| >= 6
    ensures issues != [] ==> issues == [Issue(Password, TooShort(6, Some(MinimumSix)))]
  {
    MinIssues(Password, password, 6, Some(MinimumSix))
  }

  /** A concrete address the e-mail check accepts. */
  lemma SampleEmailAccepted()
    ensures IsEmail("a@b.com")
  {
    var s := "a@b.com";
    assert s[1] == '@' && s[..1] == "a" && s[2..] == "b.com";
    assert s[2..][1] == '.';
  }
}
