/**
 * The `settings` server action (actions/settings.ts): check the session,
 * blank the credential fields of an OAuth account, divert an e-mail change
 * into a verification mail, turn a password change into a digest of the new
 * password, and write what remains onto the user's row.
 *
 * The action does not run `SettingsSchema` on its input. When the
 * password-change branch is skipped, the source writes `password` and
 * `newPassword` as they came, so a password sent alone is stored as plain
 * text: `SettingsAsWritten` models that. `Settings` is the corrected action,
 * which checks the values against the schema first; the schema pairs the two
 * passwords, so an unconsumed password always travels with a `newPassword`
 * and the database refuses the update, and no password is written unhashed.
 */
module SettingsAction {
  import opened Base
  import opened Schemas
  import opened Hashing
  import opened Store

  const Unauthorized: string := "Não autorizado"
  const VerificationSent: string := "E-mail de verificação enviado!"
  const WrongPassword: string := "Senha incorreta!"
  const SettingsUpdated: string := "Configurações atualizadas!"

  /** Why the database refused `user.update`. */
  datatype Fault = UnknownArgument(name: string) | UniqueConstraintFailed(field: string)

  datatype SettingsResult =
    | SettingsError(message: string)
    | SettingsSuccess(message: string)
    | SettingsRaised(fault: Fault)

  /** Lines 29-34: an OAuth account may not set e-mail, passwords or two-factor. */
  function ClearedForOAuth(values: SettingsValues, isOAuth: bool): (v: SettingsValues)
    ensures isOAuth ==> v.email.None? && v.password.None? && v.newPassword.None? && v.isTwoFactorEnabled.None?
    ensures isOAuth ==> v.name == values.name && v.role == values.role
    ensures !isOAuth ==> v == values
  {
    if isOAuth then values.(email := None, password := None, newPassword := None, isTwoFactorEnabled := None)
    else values
  }

  /** `values.email && values.email !== user.email`. */
  predicate ChangesEmail(v: SettingsValues, session: SessionUser) {
    Truthy(v.email) && v.email != session.email
  }

  /** Some other user already owns `email`. */
  predicate TakenByOther(users: seq<User>, email: string, id: UserId) {
    var k := IndexOfEmail(users, email);
    k.Some? && users[k.value].id != id
  }

  /** `values.password && values.newPassword && dbUser.password`. */
  predicate ChangesPassword(v: SettingsValues, dbUser: User) {
    Truthy(v.password) && Truthy(v.newPassword) && Truthy(dbUser.password)
  }

  /** Lines 62-64: the new password's digest replaces `password`; `newPassword` is dropped. */
  function HashedChange(v: SettingsValues): (w: SettingsValues)
    requires v.newPassword.Some?
    ensures w.password == Some(Hash(v.newPassword.value)) && w.newPassword.None?
    ensures w.name == v.name && w.email == v.email && w.role == v.role && w.isTwoFactorEnabled == v.isTwoFactorEnabled
  {
    v.(password := Some(Hash(v.newPassword.value)), newPassword := None)
  }

  /** The row after `user.update({ data: { ...v } })`: fields present in `v` overwrite the row's. */
  function Overwrite(u: User, v: SettingsValues): (w: User)
    ensures w.id == u.id && w.role == v.role
    ensures w.name == (if v.name.Some? then v.name else u.name)
    ensures w.email == (if v.email.Some? then v.email else u.email)
    ensures w.password == (if v.password.Some? then v.password else u.password)
    ensures w.isTwoFactorEnabled == (if v.isTwoFactorEnabled.Some? then v.isTwoFactorEnabled.value else u.isTwoFactorEnabled)
  {
    User(
      u.id,
      if v.name.Some? then v.name else u.name,
      if v.email.Some? then v.email else u.email,
      if v.password.Some? then v.password else u.password,
      v.role,
      if v.isTwoFactorEnabled.Some? then v.isTwoFactorEnabled.value else u.isTwoFactorEnabled)
  }

  datatype Update = Updated(users: seq<User>) | Rejected(fault: Fault)

  /**
   * `user.update` on row `i`: the database refuses a field the table lacks
   * (`newPassword`) and an e-mail another row owns; otherwise only row `i` changes.
   */
  function UpdateRow(users: seq<User>, i: nat, v: SettingsValues): (r: Update)
    requires i < |users|
    ensures v.newPassword.Some? ==> r == Rejected(UnknownArgument("newPassword"))
    ensures r.Updated? ==> |r.users| == |users| && r.users[i] == Overwrite(users[i], v)
    ensures r.Updated? ==> forall k :: 0 <= k < |users| && k != i ==> r.users[k] == users[k]
    ensures r.Updated? && UniqueIds(users) && UniqueEmails(users) ==> UniqueIds(r.users) && UniqueEmails(r.users)
  {
    if v.newPassword.Some? then Rejected(UnknownArgument("newPassword"))
    else if v.email.Some? && TakenByOther(users, v.email.value, users[i].id) then Rejected(UniqueConstraintFailed("email"))
    else
      var w := Overwrite(users[i], v);
      assert v.email.Some? && UniqueIds(users) && UniqueEmails(users) ==>
        forall k :: 0 <= k < |users| && k != i ==> users[k].email != v.email by {
        if v.email.Some? && UniqueIds(users) && UniqueEmails(users) {
          forall k | 0 <= k < |users| && k != i
            ensures users[k].email != v.email
          {
            if users[k].email == v.email {
              EmailOwnerUnique(users, v.email.value, k);
            }
          }
        }
      }
      Updated(users[i := w])
  }

  /** The session user's row, when both exist. */
  ghost function DbUser(users: seq<User>, session: Option<SessionUser>): Option<nat> {
    if session.None? then None else IndexOfId(users, session.value.id)
  }

  /**
   * What reaches `user.update` once the e-mail branch was not taken: a checked
   * password change arrives as the new password's digest without `newPassword`;
   * otherwise the values arrive as submitted, password fields included.
   */
  function DataAsWritten(v: SettingsValues, dbUser: User): (w: SettingsValues)
    ensures ChangesPassword(v, dbUser) ==> w.password == Some(Hash(v.newPassword.value)) && w.newPassword.None?
    ensures !ChangesPassword(v, dbUser) ==> w.password == v.password && w.newPassword == v.newPassword
    ensures w.name == v.name && w.email == v.email && w.role == v.role && w.isTwoFactorEnabled == v.isTwoFactorEnabled
  {
    if ChangesPassword(v, dbUser) then HashedChange(v) else v
  }

  /** What the corrected action reports for values `SettingsSchema` refuses. */
  const InvalidFields: string := "Campos inválidos!"

  /**
   * The error for refused values: the message of the refinement that fired,
   * which wants both passwords together, or the generic invalid-fields message
   * for a malformed e-mail or a short password.
   */
  function SettingsRejection(v: SettingsValues): (message: string)
    requires SettingsIssues(v) != []
    ensures Truthy(v.password) && !Truthy(v.newPassword) ==> message == NewPasswordRequired
    ensures Truthy(v.newPassword) && !Truthy(v.password) ==> message == PasswordRequired
    ensures (Truthy(v.password) <==> Truthy(v.newPassword)) ==> message == InvalidFields
  {
    if Truthy(v.password) && !Truthy(v.newPassword) then NewPasswordRequired
    else if Truthy(v.newPassword) && !Truthy(v.password) then PasswordRequired
    else InvalidFields
  }

  /**
   * `settings(values)` for the session user, corrected to check `values`
   * against `SettingsSchema` first, as `login` and `register` check theirs.
   * Past that check it is the source's action.
   */
  method Settings(db: Db, session: Option<SessionUser>, values: SettingsValues, verificationToken: string)
    returns (r: SettingsResult)
    requires db.Valid()
    modifies db`users, db`issued, db`outbox
    ensures db.Valid()
    // Values the schema refuses are answered with its message and touch nothing.
    ensures SettingsIssues(values) != [] ==> r == SettingsError(SettingsRejection(values)) && unchanged(db)
    // No session, or no row for it.
    ensures SettingsIssues(values) == [] && DbUser(old(db.users), session).None? ==>
      r == SettingsError(Unauthorized) && unchanged(db)
    ensures SettingsIssues(values) == [] && DbUser(old(db.users), session).Some? ==>
      var s := session.value;
      var v := ClearedForOAuth(values, s.isOAuth);
      // A new e-mail owned by someone else is refused.
      && (ChangesEmail(v, s) && TakenByOther(old(db.users), v.email.value, s.id) ==>
            r == SettingsError(EmailInUse) && unchanged(db))
      // A new free e-mail gets a verification mail; the row is not touched.
      && (ChangesEmail(v, s) && !TakenByOther(old(db.users), v.email.value, s.id) ==>
            && r == SettingsSuccess(VerificationSent)
            && db.users == old(db.users)
            && db.issued == old(db.issued) + [IssuedToken(VerificationToken, v.email.value, verificationToken)]
            && db.outbox == old(db.outbox) + [Mail(VerificationToken, v.email.value, verificationToken)])
    ensures SettingsIssues(values) == [] && DbUser(old(db.users), session).Some? ==>
      var s := session.value;
      var i := DbUser(old(db.users), session).value;
      var v := ClearedForOAuth(values, s.isOAuth);
      !ChangesEmail(v, s) ==>
      // A password change with the wrong current password is refused.
      && (ChangesPassword(v, old(db.users)[i]) && !Compare(v.password.value, old(db.users)[i].password.value) ==>
            r == SettingsError(WrongPassword) && unchanged(db))
      // Otherwise the row is updated with what remains.
      && (!(ChangesPassword(v, old(db.users)[i]) && !Compare(v.password.value, old(db.users)[i].password.value)) ==>
            && db.issued == old(db.issued) && db.outbox == old(db.outbox)
            && match UpdateRow(old(db.users), i, DataAsWritten(v, old(db.users)[i]))
               case Updated(after) => db.users == after && r == SettingsSuccess(SettingsUpdated)
               case Rejected(fault) => db.users == old(db.users) && r == SettingsRaised(fault))
    // Only the session user's row may change, and its password only to the digest of a checked new password.
    ensures |db.users| == |old(db.users)|
    ensures forall k :: 0 <= k < |db.users| && db.users[k] != old(db.users)[k] ==>
      session.Some? && db.users[k].id == session.value.id == old(db.users)[k].id
    ensures forall k :: 0 <= k < |db.users| && db.users[k].password != old(db.users)[k].password ==>
      && values.password.Some? && values.newPassword.Some? && old(db.users)[k].password.Some?
      && Compare(values.password.value, old(db.users)[k].password.value)
      && db.users[k].password == Some(Hash(values.newPassword.value))
  {
    if SettingsIssues(values) != [] {
      return SettingsError(SettingsRejection(values));
    }
    r := SettingsAsWritten(db, session, values, verificationToken);
  }

  /** `settings(values)` as the source has it: the submitted fields are written as they are. */
  method SettingsAsWritten(db: Db, session: Option<SessionUser>, values: SettingsValues, verificationToken: string)
    returns (r: SettingsResult)
    requires db.Valid()
    modifies db`users, db`issued, db`outbox
    ensures db.Valid()
    ensures DbUser(old(db.users), session).None? ==> r == SettingsError(Unauthorized) && unchanged(db)
    ensures DbUser(old(db.users), session).Some? ==>
      var s := session.value;
      var v := ClearedForOAuth(values, s.isOAuth);
      && (ChangesEmail(v, s) && TakenByOther(old(db.users), v.email.value, s.id) ==>
            r == SettingsError(EmailInUse) && unchanged(db))
      && (ChangesEmail(v, s) && !TakenByOther(old(db.users), v.email.value, s.id) ==>
            && r == SettingsSuccess(VerificationSent)
            && db.users == old(db.users)
            && db.issued == old(db.issued) + [IssuedToken(VerificationToken, v.email.value, verificationToken)]
            && db.outbox == old(db.outbox) + [Mail(VerificationToken, v.email.value, verificationToken)])
    ensures DbUser(old(db.users), session).Some? ==>
      var s := session.value;
      var i := DbUser(old(db.users), session).value;
      var v := ClearedForOAuth(values, s.isOAuth);
      !ChangesEmail(v, s) ==>
      && (ChangesPassword(v, old(db.users)[i]) && !Compare(v.password.value, old(db.users)[i].password.value) ==>
            r == SettingsError(WrongPassword) && unchanged(db))
      && (!(ChangesPassword(v, old(db.users)[i]) && !Compare(v.password.value, old(db.users)[i].password.value)) ==>
            && db.issued == old(db.issued) && db.outbox == old(db.outbox)
            && match UpdateRow(old(db.users), i, DataAsWritten(v, old(db.users)[i]))
               case Updated(after) => db.users == after && r == SettingsSuccess(SettingsUpdated)
               case Rejected(fault) => db.users == old(db.users) && r == SettingsRaised(fault))
    // Only the session user's row may change. Its password changes through a
    // checked change to the new password's digest, or, when a password came
    // without a new password, to the submitted text.
    ensures |db.users| == |old(db.users)|
    ensures forall k :: 0 <= k < |db.users| && db.users[k] != old(db.users)[k] ==>
      session.Some? && db.users[k].id == session.value.id == old(db.users)[k].id
    ensures forall k :: 0 <= k < |db.users| && db.users[k].password != old(db.users)[k].password ==>
      && values.password.Some?
      && (|| (values.newPassword.None? && db.users[k].password == values.password)
          || (&& values.newPassword.Some? && old(db.users)[k].password.Some?
              && Compare(values.password.value, old(db.users)[k].password.value)
              && db.users[k].password == Some(Hash(values.newPassword.value))))
  {
    if session.None? {
      return SettingsError(Unauthorized);
    }
    var user := session.value;
    var found := IndexOfId(db.users, user.id);
    if found.None? {
      return SettingsError(Unauthorized);
    }
    var i := found.value;
    var dbUser := db.users[i];

    var v := values;
    if user.isOAuth {
      v := v.(email := None);
      v := v.(password := None);
      v := v.(newPassword := None);
      v := v.(isTwoFactorEnabled := None);
    }

    if Truthy(v.email) && v.email != user.email {
      var existing := IndexOfEmail(db.users, v.email.value);
      if existing.Some? && db.users[existing.value].id != user.id {
        return SettingsError(EmailInUse);
      }
      db.issued := db.issued + [IssuedToken(VerificationToken, v.email.value, verificationToken)];
      db.outbox := db.outbox + [Mail(VerificationToken, v.email.value, verificationToken)];
      return SettingsSuccess(VerificationSent);
    }

    if Truthy(v.password) && Truthy(v.newPassword) && Truthy(dbUser.password) {
      var passwordsMatch := Compare(v.password.value, dbUser.password.value);
      if !passwordsMatch {
        return SettingsError(WrongPassword);
      }
      var hashedPassword := Hash(v.newPassword.value);
      v := v.(password := Some(hashedPassword));
      v := v.(newPassword := None);
    }

    var update := UpdateRow(db.users, i, v);
    match update
    case Rejected(fault) =>
      r := SettingsRaised(fault);
    case Updated(after) =>
      db.users := after;
      r := SettingsSuccess(SettingsUpdated);
  }

  /**
   * A password sent without a new password: the source stores the submitted
   * text in the password column, which no password's digest equals, so the
   * account's password check can never succeed again. The corrected action
   * answers with the schema's "Nova Senha é obrigatória!" and leaves the
   * stored digest alone.
   */
  method PlaintextPasswordScenario() returns (asWritten: Option<string>, corrected: Option<string>, answer: SettingsResult)
    ensures asWritten == Some("secret1") && NotADigest(asWritten.value)
    ensures forall p :: !Compare(p, asWritten.value)
    ensures corrected == Some(Hash("oldpass1"))
    ensures answer == SettingsError(NewPasswordRequired)
  {
    var alice := User("u1", Some("Alice"), Some("a@b.com"), Some(Hash("oldpass1")), USER, false);
    var session := Some(SessionUser("u1", Some("a@b.com"), false));
    var values := SettingsValues(None, None, USER, None, Some("secret1"), None);

    var db := new Db();
    db.users := [alice];
    var r := SettingsAsWritten(db, session, values, "v1");
    asWritten := db.users[0].password;
    assert "secret1"[..|Tag|] != Tag by { assert "secret1"[0] != Tag[0]; }
    forall p ensures !Compare(p, asWritten.value) {
      NoPasswordMatches(asWritten.value, p);
    }

    var db2 := new Db();
    db2.users := [alice];
    answer := Settings(db2, session, values, "v1");
    corrected := db2.users[0].password;
  }
}
