/**
 * The user-settings route (app/api/user-settings/route.ts, `GET`): the
 * session user's settings row, created with the default currency on first use.
 */
module UserSettingsRoute {
  import opened Base
  import opened Store

  const DefaultCurrency: string := "BRL"

  /** Get-or-create of the session user's settings row; no session gives no answer. */
  method GetUserSettings(db: Db, session: Option<SessionUser>) returns (r: Option<UserSettings>)
    requires db.Valid()
    modifies db`userSettings
    ensures db.Valid()
    ensures session.None? ==> r.None? && unchanged(db)
    ensures session.Some? && session.value.id in old(db.userSettings) ==>
      r == Some(old(db.userSettings)[session.value.id]) && unchanged(db)
    ensures session.Some? && session.value.id !in old(db.userSettings) ==>
      && r == Some(UserSettings(session.value.id, DefaultCurrency))
      && db.userSettings == old(db.userSettings)[session.value.id := UserSettings(session.value.id, DefaultCurrency)]
    // Whatever happened, the answer is the row now stored for the session user.
    ensures r.Some? ==> session.Some? && session.value.id in db.userSettings && r.value == db.userSettings[session.value.id]
    ensures r.Some? ==> r.value.userId == session.value.id
  {
    if session.None? {
      return None;
    }
    var user := session.value;
    var userSettings: Option<UserSettings> := if user.id in db.userSettings then Some(db.userSettings[user.id]) else None;
    if userSettings.None? {
      var created := UserSettings(user.id, DefaultCurrency);
      db.userSettings := db.userSettings[user.id := created];
      userSettings := Some(created);
    }
    r := userSettings;
  }

  /** A second call creates nothing and returns the same row as the first. */
  method GetUserSettingsTwice(db: Db, session: Option<SessionUser>) returns (first: Option<UserSettings>, second: Option<UserSettings>)
    requires db.Valid()
    modifies db`userSettings
    ensures second == first
    ensures session.Some? ==> first.Some? && db.userSettings == old(db.userSettings)[session.value.id := first.value]
    ensures session.Some? && session.value.id in old(db.userSettings) ==> db.userSettings == old(db.userSettings)
  {
    first := GetUserSettings(db, session);
    ghost var between := db.userSettings;
    second := GetUserSettings(db, session);
    assert db.userSettings == between;
  }
}
