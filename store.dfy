/**
 * The database tables the account code reads and writes, held in memory by one
 * `Db` object. The users table is a sequence of rows in insertion order, and a
 * lookup returns the first matching row; because ids and e-mails are unique
 * (the `Valid` invariant) that is the only matching row. The tables with a
 * unique key are maps from that key. Token generators and mailers, whose code
 * is not part of this model, leave their trace in two append-only logs.
 */
module Store {
  import opened Base
  import opened Schemas

  type UserId = string

  /** Milliseconds since the epoch, as a JavaScript `Date` holds them. */
  type Time = int

  datatype User = User(
    id: UserId,
    name: Option<string>,
    email: Option<string>,
    password: Option<string>,
    role: Role,
    isTwoFactorEnabled: bool)

  datatype TwoFactorToken = TwoFactorToken(id: string, email: string, token: string, expires: Time)

  datatype TwoFactorConfirmation = TwoFactorConfirmation(id: string, userId: UserId)

  datatype UserSettings = UserSettings(userId: UserId, currency: string)

  /** The user of the current session, as `currentUser()` returns it. */
  datatype SessionUser = SessionUser(id: UserId, email: Option<string>, isOAuth: bool)

  datatype TokenKind = VerificationToken | TwoFactorCode

  /** A token handed out by `generateVerificationToken` or `generateTwoFactorToken`. */
  datatype IssuedToken = IssuedToken(kind: TokenKind, email: string, token: string)

  /** A message handed to `sendVerificationEmail` or `sendTwoFactorTokenEmail`. */
  datatype Mail = Mail(kind: TokenKind, to: string, token: string)

  /** The answer of `register` and `settings` to an e-mail another account holds. */
  const EmailInUse: string := "Email já em uso!"

  /** Index of the first row whose e-mail is `email`. */
  function IndexOfEmail(users: seq<User>, email: string): (r: Option<nat>)
    ensures r.Some? ==> r.value < |users| && users[r.value].email == Some(email)
    ensures r.Some? ==> forall k :: 0 <= k < r.value ==> users[k].email != Some(email)
    ensures r.None? ==> forall k :: 0 <= k < |users| ==> users[k].email != Some(email)
  {
    if |users| == 0 then None
    else if users[0].email == Some(email) then Some(0)
    else match IndexOfEmail(users[1..], email)
      case None => None
      case Some(k) => Some(k + 1)
  }

  /** Index of the first row whose id is `id`. */
  function IndexOfId(users: seq<User>, id: UserId): (r: Option<nat>)
    ensures r.Some? ==> r.value < |users| && users[r.value].id == id
    ensures r.Some? ==> forall k :: 0 <= k < r.value ==> users[k].id != id
    ensures r.None? ==> forall k :: 0 <= k < |users| ==> users[k].id != id
  {
    if |users| == 0 then None
    else if users[0].id == id then Some(0)
    else match IndexOfId(users[1..], id)
      case None => None
      case Some(k) => Some(k + 1)
  }

  /** `getUserByEmail`: the row holding `email`, or nothing when no row does. */
  function UserByEmail(users: seq<User>, email: string): (found: Option<User>)
    ensures found.Some? ==> found.value in users && found.value.email == Some(email)
    ensures found.None? <==> forall k :: 0 <= k < |users| ==> users[k].email != Some(email)
  {
    match IndexOfEmail(users, email)
    case None => None
    case Some(k) => Some(users[k])
  }

  ghost predicate UniqueIds(users: seq<User>) {
    forall i, j :: 0 <= i < j < |users| ==> users[i].id != users[j].id
  }

  ghost predicate UniqueEmails(users: seq<User>) {
    forall i, j :: 0 <= i < j < |users| && users[i].email.Some? ==> users[i].email != users[j].email
  }

  /** With unique e-mails, the row `IndexOfEmail` finds is the only row with that e-mail. */
  lemma EmailOwnerUnique(users: seq<User>, email: string, k: nat)
    requires UniqueEmails(users)
    requires k < |users| && users[k].email == Some(email)
    ensures IndexOfEmail(users, email) == Some(k)
  {
  }

  class Db {
    var users: seq<User>
    /** Two-factor tokens by e-mail: at most one row per address. */
    var twoFactorTokens: map<string, TwoFactorToken>
    /** Two-factor confirmations by user id (a unique column). */
    var confirmations: map<UserId, TwoFactorConfirmation>
    /** User settings by user id (a unique column). */
    var userSettings: map<UserId, UserSettings>
    var issued: seq<IssuedToken>
    var outbox: seq<Mail>

    ghost predicate Valid()
      reads this
    {
      && UniqueIds(users)
      && UniqueEmails(users)
      && (forall e :: e in twoFactorTokens ==> twoFactorTokens[e].email == e)
      && (forall id :: id in confirmations ==> confirmations[id].userId == id)
      && (forall id :: id in userSettings ==> userSettings[id].userId == id)
    }

    constructor ()
      ensures Valid()
      ensures users == [] && twoFactorTokens == map[] && confirmations == map[]
      ensures userSettings == map[] && issued == [] && outbox == []
    {
      users := [];
      twoFactorTokens := map[];
      confirmations := map[];
      userSettings := map[];
      issued := [];
      outbox := [];
    }
  }
}
