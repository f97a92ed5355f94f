/**
 * The wizard's `UpdateUserCurrency` server action
 * (app/wizard/_actions/userSettings.ts): validate the currency, require a
 * session, and change the currency of the session user's settings row.
 * `UpdateUserCurrencySchema` is not part of this model; its verdict is
 * membership in the set of currencies it accepts, passed in as `accepted`.
 */
module CurrencyAction {
  import opened Base
  import opened Store

  const NotAuthenticated: string := "Usuário não autenticado."

  /** The errors the action throws: the schema's complaint, no session, no row to update. */
  datatype CurrencyError = InvalidCurrency | Unauthenticated(message: string) | RecordNotFound

  datatype CurrencyResult = CurrencyUpdated(userId: UserId, currency: string) | CurrencyFailed(error: CurrencyError)

  method UpdateUserCurrency(db: Db, session: Option<SessionUser>, currency: string, accepted: set<string>)
    returns (r: CurrencyResult)
    requires db.Valid()
    modifies db`userSettings
    ensures db.Valid()
    // The currency is checked before the session is looked at.
    ensures currency !in accepted ==> r == CurrencyFailed(InvalidCurrency) && unchanged(db)
    ensures currency in accepted && session.None? ==>
      r == CurrencyFailed(Unauthenticated(NotAuthenticated)) && unchanged(db)
    ensures currency in accepted && session.Some? && session.value.id !in old(db.userSettings) ==>
      r == CurrencyFailed(RecordNotFound) && unchanged(db)
    // Only the session user's row changes, and only its currency.
    ensures currency in accepted && session.Some? && session.value.id in old(db.userSettings) ==>
      var id := session.value.id;
      && db.userSettings == old(db.userSettings)[id := old(db.userSettings)[id].(currency := currency)]
      && r == CurrencyUpdated(id, currency)
    ensures r.CurrencyUpdated? ==> r.userId in db.userSettings && db.userSettings[r.userId] == UserSettings(r.userId, r.currency)
  {
    if currency !in accepted {
      return CurrencyFailed(InvalidCurrency);
    }
    if session.None? {
      return CurrencyFailed(Unauthenticated(NotAuthenticated));
    }
    var user := session.value;
    if user.id !in db.userSettings {
      return CurrencyFailed(RecordNotFound);
    }
    var userSettings := db.userSettings[user.id].(currency := currency);
    db.userSettings := db.userSettings[user.id := userSettings];
    r := CurrencyUpdated(userSettings.userId, userSettings.currency);
  }
}
