/**
 * The `register` server action (actions/register.ts): validate the form,
 * refuse an e-mail that is taken, create the user with a hashed password and
 * hand back a confirmation link built from a fresh verification token.
 */
module RegisterAction {
  import opened Base
  import opened Schemas
  import opened Hashing
  import opened Store

  const InvalidFields: string := "Campos inválidos"
  const Registered: string := "Usuário registrado com sucesso!"

  datatype RegisterResult = RegisterError(message: string) | RegisterSuccess(message: string, confirmLink: string)

  const VerificationPath: string := "/auth/new-verification?token="

  /**
   * The link of lines 37-40: the configured URL, the verification page and the
   * token. An unset `NEXT_PUBLIC_APP_URL` is interpolated as the text "undefined".
   */
  function ConfirmLink(appUrl: Option<string>, token: string): (link: string)
    ensures var origin := if appUrl.Some? then appUrl.value else "undefined";
      && |link| == |origin| + |VerificationPath| + |token|
      && link[..|origin|] == origin
      && link[|origin|..|origin| + |VerificationPath|] == VerificationPath
      && link[|link| - |token|..] == token
  {
    (if appUrl.Some? then appUrl.value else "undefined") + VerificationPath + token
  }

  /** The row `user.create` adds: the given name and e-mail, the digest of the password, the table's defaults. */
  function NewUser(id: UserId, values: RegisterValues): (u: User)
    ensures u.id == id && u.name == Some(values.name) && u.email == Some(values.email)
    ensures u.password == Some(Hash(values.password)) && u.password != Some(values.password)
    ensures u.role == USER && !u.isTwoFactorEnabled
  {
    User(id, Some(values.name), Some(values.email), Some(Hash(values.password)), USER, false)
  }

  /**
   * `register(values)`. `newId` is the id the database gives the new row,
   * `verificationToken` the token the generator hands out, `appUrl` the
   * configured application URL.
   */
  method Register(db: Db, values: RegisterValues, newId: UserId, verificationToken: string, appUrl: Option<string>)
    returns (r: RegisterResult)
    requires db.Valid()
    requires IndexOfId(db.users, newId).None?
    modifies db`users, db`issued
    ensures db.Valid()
    ensures RegisterIssues(values) != [] ==> r == RegisterError(InvalidFields) && unchanged(db)
    ensures RegisterIssues(values) == [] && IndexOfEmail(old(db.users), values.email).Some? ==>
      r == RegisterError(EmailInUse) && unchanged(db)
    ensures RegisterIssues(values) == [] && IndexOfEmail(old(db.users), values.email).None? ==>
      && db.users == old(db.users) + [NewUser(newId, values)]
      && db.issued == old(db.issued) + [IssuedToken(VerificationToken, values.email, verificationToken)]
      && r == RegisterSuccess(Registered, ConfirmLink(appUrl, verificationToken))
    // Success adds exactly one user, with the digest of the password and never the password itself.
    ensures r.RegisterSuccess? <==> |db.users| == |old(db.users)| + 1
    ensures r.RegisterSuccess? ==>
      && db.users[..|old(db.users)|] == old(db.users)
      && db.users[|old(db.users)|].email == Some(values.email)
      && db.users[|old(db.users)|].password == Some(Hash(values.password))
      && db.users[|old(db.users)|].password != Some(values.password)
  {
    if RegisterIssues(values) != [] {
      return RegisterError(InvalidFields);
    }
    var hashedPassword := Hash(values.password);
    var existingUser := IndexOfEmail(db.users, values.email);
    if existingUser.Some? {
      return RegisterError(EmailInUse);
    }
    db.users := db.users + [User(newId, Some(values.name), Some(values.email), Some(hashedPassword), USER, false)];
    db.issued := db.issued + [IssuedToken(VerificationToken, values.email, verificationToken)];
    r := RegisterSuccess(Registered, ConfirmLink(appUrl, verificationToken));
  }

  /** Registering the same e-mail twice: the second attempt is refused and adds nobody. */
  method RegisterTwice(db: Db, values: RegisterValues, id1: UserId, id2: UserId, token: string, appUrl: Option<string>)
    returns (first: RegisterResult, second: RegisterResult)
    requires db.Valid()
    requires RegisterIssues(values) == [] && IndexOfEmail(db.users, values.email).None?
    requires IndexOfId(db.users, id1).None? && IndexOfId(db.users, id2).None? && id1 != id2
    modifies db`users, db`issued
    ensures first.RegisterSuccess? && second == RegisterError(EmailInUse)
    ensures db.users == old(db.users) + [NewUser(id1, values)]
  {
    first := Register(db, values, id1, token, appUrl);
    assert db.users[|db.users| - 1].id == id1;
    second := Register(db, values, id2, token, appUrl);
  }
}
