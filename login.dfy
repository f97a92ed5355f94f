/**
 * The `login` server action (actions/login.ts): validate the form, find the
 * account, and for an account with two-factor authentication either hand out a
 * code or check the submitted one, before passing the credentials on to the
 * sign-in provider. The provider's answer is a parameter.
 */
module LoginAction {
  import opened Base
  import opened Schemas
  import opened Hashing
  import opened Store

  datatype LoginError =
    | InvalidFields
    | EmailNotRegistered
    | InvalidCredentials
    | InvalidCode
    | CodeExpired
    | SomethingWentWrong

  /** The message the caller sees for each error. */
  function Message(e: LoginError): string {
    match e
    case InvalidFields => "Campos inválidos!"
    case EmailNotRegistered => "E-mail não cadastrado no sistema!"
    case InvalidCredentials => "Credenciais inválidas!"
    case InvalidCode => "Código inválido!"
    case CodeExpired => "Código expirou!"
    case SomethingWentWrong => "Algo deu errado!"
  }

  /** How `signIn('credentials', …)` ended: normally, with an `AuthError` of some type, or with any other exception. */
  datatype SignInOutcome = SignInReturned | AuthError(errorType: string) | OtherError(name: string)

  /**
   * What `login` hands back: `{ error }`, `{ twoFactor: true }`, nothing once
   * sign-in returned, or the non-`AuthError` exception it re-raises.
   */
  datatype LoginResult = Failed(error: LoginError) | TwoFactorRequired | SignedIn | Raised(name: string)

  /**
   * The `try`/`catch` around `signIn`: only a `CredentialsSignin` error reads as
   * bad credentials, other `AuthError`s as a generic failure, and any other
   * exception is passed on.
   */
  function SignInResult(o: SignInOutcome): (r: LoginResult)
    ensures r == SignedIn <==> o == SignInReturned
    ensures r == Failed(InvalidCredentials) <==> o == AuthError("CredentialsSignin")
    ensures r == Failed(SomethingWentWrong) <==> o.AuthError? && o.errorType != "CredentialsSignin"
    ensures r.Raised? <==> o.OtherError?
    ensures r.Raised? ==> r.name == o.name
    ensures !r.TwoFactorRequired?
  {
    match o
    case SignInReturned => SignedIn
    case AuthError(t) => if t == "CredentialsSignin" then Failed(InvalidCredentials) else Failed(SomethingWentWrong)
    case OtherError(name) => Raised(name)
  }

  /** The account row has an e-mail and a password (`!existingUser.email || !existingUser.password` is false). */
  predicate HasCredentials(found: Option<User>) {
    found.Some? && Truthy(found.value.email) && Truthy(found.value.password)
  }

  /** The account a well-formed login reaches, if any. */
  ghost function Account(users: seq<User>, values: LoginValues): Option<User> {
    if LoginIssues(values) == [] && HasCredentials(UserByEmail(users, values.email))
    then UserByEmail(users, values.email)
    else None
  }

  /** A two-factor account whose password matched, so the code step is reached. */
  ghost predicate AtCodeStep(users: seq<User>, values: LoginValues) {
    var a := Account(users, values);
    a.Some? && a.value.isTwoFactorEnabled && Compare(values.password, a.value.password.value)
  }

  /** The submitted code equals the stored token for the account's e-mail. */
  ghost predicate CodeMatches(tokens: map<string, TwoFactorToken>, values: LoginValues) {
    Truthy(values.code) && values.email in tokens && tokens[values.email].token == values.code.value
  }

  /**
   * `login(values)` at time `now`. `newCode` is the code the token generator
   * would hand out and `confirmationId` the id the database gives a new
   * confirmation row.
   */
  method Login(db: Db, values: LoginValues, now: Time, newCode: string, confirmationId: string, signIn: SignInOutcome)
    returns (r: LoginResult)
    requires db.Valid()
    modifies db`twoFactorTokens, db`confirmations, db`issued, db`outbox
    ensures db.Valid()
    // Malformed input is rejected first and touches nothing.
    ensures LoginIssues(values) != [] ==> r == Failed(InvalidFields) && unchanged(db)
    // No account, or one without e-mail or password.
    ensures LoginIssues(values) == [] && Account(old(db.users), values).None? ==>
      r == Failed(EmailNotRegistered) && unchanged(db)
    // A two-factor account checks the password before anything about codes.
    ensures var a := Account(old(db.users), values);
      a.Some? && a.value.isTwoFactorEnabled && !Compare(values.password, a.value.password.value) ==>
      r == Failed(InvalidCredentials) && unchanged(db)
    // Right password, no code: a code is issued and mailed to the account, and sign-in is not reached.
    ensures AtCodeStep(old(db.users), values) && !Truthy(values.code) ==>
      && r == TwoFactorRequired
      && db.issued == old(db.issued) + [IssuedToken(TwoFactorCode, values.email, newCode)]
      && db.outbox == old(db.outbox) + [Mail(TwoFactorCode, values.email, newCode)]
      && db.confirmations == old(db.confirmations)
    // A code with no stored token, or a different one, is invalid whatever the token's expiry.
    ensures AtCodeStep(old(db.users), values) && Truthy(values.code) && !CodeMatches(old(db.twoFactorTokens), values) ==>
      r == Failed(InvalidCode) && unchanged(db)
    // The matching code of an expired token: the token stays.
    ensures (AtCodeStep(old(db.users), values) && CodeMatches(old(db.twoFactorTokens), values)
      && old(db.twoFactorTokens)[values.email].expires < now) ==>
      r == Failed(CodeExpired) && unchanged(db)
    // The matching code of a live token (expiring now counts as live): the token is consumed,
    // the user's confirmation is replaced by a new one, and sign-in decides.
    ensures (AtCodeStep(old(db.users), values) && CodeMatches(old(db.twoFactorTokens), values)
      && now <= old(db.twoFactorTokens)[values.email].expires) ==>
      var id := Account(old(db.users), values).value.id;
      && r == SignInResult(signIn)
      && db.twoFactorTokens == old(db.twoFactorTokens) - {values.email}
      && db.confirmations == old(db.confirmations)[id := TwoFactorConfirmation(confirmationId, id)]
      && db.issued == old(db.issued) && db.outbox == old(db.outbox)
    // Without two-factor authentication sign-in decides and no table changes.
    ensures var a := Account(old(db.users), values);
      a.Some? && !a.value.isTwoFactorEnabled ==> r == SignInResult(signIn) && unchanged(db)
  {
    if LoginIssues(values) != [] {
      return Failed(InvalidFields);
    }
    var existingUser := UserByEmail(db.users, values.email);
    if !HasCredentials(existingUser) {
      return Failed(EmailNotRegistered);
    }
    var user := existingUser.value;
    assert user.email == Some(values.email);

    if user.isTwoFactorEnabled && Truthy(user.email) {
      var isPasswordValid := Compare(values.password, user.password.value);
      if !isPasswordValid {
        return Failed(InvalidCredentials);
      }
      if Truthy(values.code) {
        var email := user.email.value;
        if email !in db.twoFactorTokens {
          return Failed(InvalidCode);
        }
        var twoFactorToken := db.twoFactorTokens[email];
        if twoFactorToken.token != values.code.value {
          return Failed(InvalidCode);
        }
        var hasExpired := twoFactorToken.expires < now;
        if hasExpired {
          return Failed(CodeExpired);
        }
        db.twoFactorTokens := db.twoFactorTokens - {email};
        if user.id in db.confirmations {
          db.confirmations := db.confirmations - {user.id};
        }
        db.confirmations := db.confirmations[user.id := TwoFactorConfirmation(confirmationId, user.id)];
      } else {
        db.issued := db.issued + [IssuedToken(TwoFactorCode, user.email.value, newCode)];
        db.outbox := db.outbox + [Mail(TwoFactorCode, user.email.value, newCode)];
        return TwoFactorRequired;
      }
    }
    r := SignInResult(signIn);
  }

  /** A code that let one login through is refused on the next attempt: tokens are single-use. */
  method CodeIsSingleUse(db: Db, values: LoginValues, now: Time, newCode: string, confirmationId: string, signIn: SignInOutcome)
    returns (first: LoginResult, second: LoginResult)
    requires db.Valid()
    requires AtCodeStep(db.users, values) && CodeMatches(db.twoFactorTokens, values)
    requires now <= db.twoFactorTokens[values.email].expires
    modifies db`twoFactorTokens, db`confirmations, db`issued, db`outbox
    ensures first == SignInResult(signIn)
    ensures second == Failed(InvalidCode)
  {
    first := Login(db, values, now, newCode, confirmationId, signIn);
    second := Login(db, values, now, newCode, confirmationId, signIn);
  }

  /** A two-factor account with password "secret1", in a fresh database. */
  method SampleDb() returns (db: Db)
    ensures fresh(db) && db.Valid()
    ensures db.twoFactorTokens == map[]
    ensures AtCodeStep(db.users, LoginValues("a@b.com", "secret1", Some("123456")))
    ensures AtCodeStep(db.users, LoginValues("a@b.com", "secret1", Some("000000")))
  {
    SampleEmailAccepted();
    db := new Db();
    var alice := User("u1", Some("Alice"), Some("a@b.com"), Some(Hash("secret1")), USER, true);
    db.users := [alice];
    assert UserByEmail(db.users, "a@b.com") == Some(alice);
  }

  /** A code given when no token was ever issued is invalid. */
  method NoTokenScenario() returns (never: LoginResult)
    ensures never == Failed(InvalidCode)
  {
    var db := SampleDb();
    never := Login(db, LoginValues("a@b.com", "secret1", Some("123456")), 20, "654321", "c1", SignInReturned);
  }

  /**
   * A token that expired at time 10, tried at time 20: a wrong code is
   * reported as invalid, the right one as expired, and the token is still
   * there afterwards.
   */
  method ExpiredTokenScenario() returns (wrong: LoginResult, right: LoginResult, kept: Option<TwoFactorToken>)
    ensures wrong == Failed(InvalidCode)
    ensures right == Failed(CodeExpired)
    ensures kept == Some(TwoFactorToken("t1", "a@b.com", "123456", 10))
  {
    var db := SampleDb();
    var token := TwoFactorToken("t1", "a@b.com", "123456", 10);
    db.twoFactorTokens := map["a@b.com" := token];
    wrong := Login(db, LoginValues("a@b.com", "secret1", Some("000000")), 20, "654321", "c1", SignInReturned);
    assert db.twoFactorTokens["a@b.com"] == token;
    right := Login(db, LoginValues("a@b.com", "secret1", Some("123456")), 20, "654321", "c1", SignInReturned);
    kept := if "a@b.com" in db.twoFactorTokens then Some(db.twoFactorTokens["a@b.com"]) else None;
  }
}
