# ExpenseX account core in Dafny

A model of the account and authentication code of the ExpenseX personal-finance
application. It covers these parts:

- the `login` server action, with its two-factor step;
- the `settings` and `register` server actions;
- the zod form schemas those actions rely on;
- the user-settings route's get-or-create with the default currency `"BRL"`;
- the wizard's currency update;
- the history-periods route, which lists the distinct years of a user's history;
- the balance route, which gives the income and expense totals over a date window.

The database is one `Db` object (`store.dfy`). It has these parts:

- the users table, a sequence of rows in insertion order;
- two-factor tokens keyed by e-mail;
- two-factor confirmations, user settings rows keyed by user id;
- two append-only logs. One records the tokens the token generators hand out, the other the mails the mailers send.

Each server action is a method that takes the `Db` and names in its `modifies`
clause the tables it may touch. The method follows the source's early returns,
and its postconditions state the result and the whole new state for every branch,
except the token rows the token generators write (see "## Left out").

Several things are parameters:

- the clock;
- the values the generators produce (token values, new row ids);
- the session user that `currentUser()` returns;
- the outcome of the sign-in provider;
- the configured application URL.

The schemas, the history-periods route and the balance route are pure
functions. Each schema's postconditions say exactly when input passes and which
issues it reports. For the two routes, lemmas relate the answer to independent
reference definitions.

Modules: `Base` (optional values, JavaScript truthiness), `Hashing` (stand-in
for bcrypt), `Schemas`, `Store`, `LoginAction`, `SettingsAction`,
`RegisterAction`, `UserSettingsRoute`, `CurrencyAction`,
`HistoryPeriodsRoute`, `BalanceRoute`.

## Model

| member | source | states |
|---|---|---|
| `LoginAction.Login` | actions/login.ts:19-120 | Malformed input gives "Campos inválidos!" and changes nothing. A missing account, or one without e-mail or password, gives "E-mail não cadastrado no sistema!" and changes nothing. For a two-factor account, a wrong password gives "Credenciais inválidas!" before any token is looked at. The right password with an absent or empty code issues a code for the account's e-mail, mails it, and returns `twoFactor` without reaching sign-in. A code with no stored token or a different value is "Código inválido!", even when the token has expired. A matching code with `expires < now` is "Código expirou!" and the token stays; `expires == now` is still valid. A valid code deletes the token, replaces the user's confirmation with one new row, then defers to sign-in. Sign-in's `CredentialsSignin` maps to "Credenciais inválidas!", any other `AuthError` to "Algo deu errado!", and any other exception is re-raised. |
| `LoginAction.SignInResult` | actions/login.ts:102-119 | A sign-in that returns signs the user in. Exactly an `AuthError` of type `CredentialsSignin` gives "Credenciais inválidas!", and every other `AuthError` gives "Algo deu errado!". Exactly the other exceptions are re-raised, with their own name. Sign-in never answers `twoFactor`. |
| `LoginAction.CodeIsSingleUse` | actions/login.ts:61-79 | After a login that consumed a code, the same code on the next login is "Código inválido!". |
| `LoginAction.ExpiredTokenScenario` | actions/login.ts:60-75 | Take a token that expired at time 10, checked at time 20. A wrong code is invalid and the right code is expired. The token survives both attempts. |
| `LoginAction.NoTokenScenario` | actions/login.ts:60-65 | A code submitted when no token was ever issued is invalid. |
| `Schemas.SettingsIssues` | schemas/index.ts:3-37 | A settings value passes exactly when its e-mail (if any) is well formed, password and newPassword are both present or both absent, and each present one has at least 6 characters. A truthy password without a truthy newPassword yields the "Nova Senha é obrigatória!" issue on path `newPassword`. The converse yields "Senha é obrigatória!" on path `password`. Issues arise only on those three fields. |
| `Schemas.LoginIssues` | schemas/index.ts:51-59 | Login input passes exactly when the e-mail is well formed and the password is non-empty. The code is unconstrained. A malformed e-mail is reported with "Email é obrigatório", and an empty password with "Senha é obrigatória!". |
| `Schemas.RegisterIssues` | schemas/index.ts:61-71 | Registration input passes exactly when the e-mail is well formed, the password has at least 6 characters and the name is non-empty. Each failure carries its source message. |
| `Schemas.NewPasswordIssues` | schemas/index.ts:39-43 | A new password passes exactly when it has at least 6 characters. Otherwise the one issue is the "Mínimo de 6 caracteres necessários" length issue. |
| `Hashing.Hash` | actions/register.ts:21 | A digest is longer than the password and starts with a fixed tag, so it never equals the plaintext. |
| `Hashing.Compare` | actions/login.ts:51-54 | The password a digest was made from matches that digest, and only a value in digest format can match at all. |
| `Hashing.NoPasswordMatches` | actions/settings.ts:52-60 | A stored value that is not a digest matches no password. |
| `Store.IndexOfEmail` | actions/login.ts:31 | The lookup by e-mail finds the first row with that e-mail, or reports that no row has it. |
| `Store.UserByEmail` | actions/login.ts:31 | `getUserByEmail` returns a row holding that e-mail, and returns nothing exactly when no row holds it. |
| `Store.IndexOfId` | actions/settings.ts:23 | The lookup by id finds the first row with that id, or reports that no row has it. |
| `Store.EmailOwnerUnique` | actions/register.ts:23-27 | With unique e-mails, the row the lookup finds is the only row holding that e-mail. |
| `SettingsAction.Settings` | actions/settings.ts:16-84 | This is the corrected action: it first checks the values against `SettingsSchema`. Refused values change nothing and are answered with the refinement's message: a password alone gives "Nova Senha é obrigatória!", a new password alone gives "Senha é obrigatória!", and any other refusal gives "Campos inválidos!". Past that check it calls `SettingsAsWritten`, the source's action. No session, or no row for it, gives "Não autorizado" and changes nothing. For an OAuth session, e-mail, both passwords and the two-factor flag are blanked before any check. A changed e-mail owned by another user gives "Email já em uso!" and changes nothing. A changed free e-mail issues and mails a verification token and leaves the user row alone. A password change with a wrong current password gives "Senha incorreta!" and changes nothing. Otherwise the update of `DataAsWritten` is written and "Configurações atualizadas!" is returned, or the database's refusal is raised. Only the session user's row can change. Its password changes only to `hash(newPassword)`, and only after the current password matched. |
| `SettingsAction.SettingsAsWritten` | actions/settings.ts:16-84 | This is the action as the source has it: no schema check, then the same branches. Password fields the password step did not consume are written as submitted, so a lone `newPassword` is refused by the database and a lone password is stored as is. Only the session user's row can change. Its password changes either to `hash(newPassword)` after the current password matched, or, when a password came without a new password, to the submitted text. |
| `SettingsAction.SettingsRejection` | schemas/index.ts:12-37 | For refused settings values, a password without a new password is answered with "Nova Senha é obrigatória!" and a new password without a password with "Senha é obrigatória!". When both or neither are set, the answer is "Campos inválidos!". |
| `SettingsAction.PlaintextPasswordScenario` | actions/settings.ts:52-72 | Submit a password without a new password. The source stores the text itself, which no password matches any more. The corrected action answers "Nova Senha é obrigatória!" and keeps the stored digest. |
| `SettingsAction.ClearedForOAuth` | actions/settings.ts:29-34 | For an OAuth account, e-mail, password, newPassword and isTwoFactorEnabled are absent and name and role are kept. For any other account the values are unchanged. |
| `SettingsAction.HashedChange` | actions/settings.ts:62-64 | The written password becomes `hash(newPassword)`, newPassword is not written, and the other fields are kept. |
| `SettingsAction.DataAsWritten` | actions/settings.ts:52-72 | After a password change was taken, the update carries the new password's digest and no `newPassword`. Otherwise both password fields go to the database as submitted. Name, e-mail, role and the two-factor flag always pass through unchanged. |
| `SettingsAction.UpdateRow` | actions/settings.ts:67-72 | The database refuses a `newPassword` field. Otherwise only the given row changes, as `Overwrite` describes, and unique ids and e-mails are kept. |
| `SettingsAction.Overwrite` | actions/settings.ts:67-72 | Each field present in the values replaces the row's field. Absent fields keep the row's value, and the id is kept. |
| `RegisterAction.Register` | actions/register.ts:13-43 | Invalid input gives "Campos inválidos" and changes nothing. An e-mail already in use gives "Email já em uso!" and leaves the table unchanged. Otherwise exactly one user is appended with the given name and e-mail and the digest of the password, never the password itself. A verification token is generated for the e-mail, and the result carries "Usuário registrado com sucesso!" and the confirmation link built from that token. |
| `RegisterAction.ConfirmLink` | actions/register.ts:37-40 | The link is the configured application URL, or the text "undefined" when none is set, then the verification page path `/auth/new-verification?token=`, then the token. |
| `RegisterAction.NewUser` | actions/register.ts:29-35 | The created row has the new id, the given name and e-mail, and the password's digest, which differs from the password. Role and two-factor flag take their defaults. |
| `RegisterAction.RegisterTwice` | actions/register.ts:23-35 | Registering the same e-mail twice creates one user, and the second attempt gives "Email já em uso!". |
| `UserSettingsRoute.GetUserSettings` | app/api/user-settings/route.ts:5-29 | No session gives no answer and changes nothing. An existing row is returned unchanged. A missing row is created as `{userId, "BRL"}` and returned. Whatever the branch, the answer is the row now stored for the user. |
| `UserSettingsRoute.GetUserSettingsTwice` | app/api/user-settings/route.ts:13-26 | A second call returns the same row and creates nothing. |
| `CurrencyAction.UpdateUserCurrency` | app/wizard/_actions/userSettings.ts:7-34 | An unaccepted currency fails before the session is consulted, and no session fails next; neither changes anything. A missing row fails as the database's update does. Otherwise only the session user's row changes, and only its currency. The returned pair is that row's userId and the new currency. |
| `HistoryPeriodsRoute.UserYears` | app/api/history-periods/route.ts:21-27 | A year is listed exactly when some row of this user has it. |
| `HistoryPeriodsRoute.DistinctAscending` | app/api/history-periods/route.ts:28-33 | The result is strictly ascending, hence free of repeats, and holds exactly the input's years. |
| `HistoryPeriodsRoute.GetHistoryPeriods` | app/api/history-periods/route.ts:18-42 | The answer is never empty and strictly ascending. With no rows for the user it is exactly `[currentYear]`. Otherwise it holds exactly the user's years: none of another user's, none missing. |
| `HistoryPeriodsRoute.AscendingUnique` | app/api/history-periods/route.ts:28-33 | Two strictly ascending lists with the same elements are equal. |
| `HistoryPeriodsRoute.PeriodsDetermined` | app/api/history-periods/route.ts:21-41 | For a user with rows, the answer equals any strictly ascending list of exactly that user's years. |
| `HistoryPeriodsRoute.OtherUsersIgnored` | app/api/history-periods/route.ts:21-24 | Adding another user's row anywhere in the table does not change the answer. |
| `BalanceRoute.Window` | app/api/stats/balance/route.ts:39-45 | A transaction is kept exactly when it belongs to the user and `from <= date <= to`. |
| `BalanceRoute.GroupSums` | app/api/stats/balance/route.ts:37-49 | There is one group for each type that occurs among the rows, and each group holds the sum of that type's amounts. |
| `BalanceRoute.Find` | app/api/stats/balance/route.ts:52-53 | A type with a group reads as its sum, and a type without one reads as 0. |
| `BalanceRoute.GetBalanceStats` | app/api/stats/balance/route.ts:34-55 | `expense` is the reference total of the user's `'despesa'` amounts in the inclusive window. `income` is the same total for `'renda'`. |
| `BalanceRoute.GroupSumsFind` | app/api/stats/balance/route.ts:37-53 | A type has a group exactly when some row has that type. Looking up a type, with 0 for a missing group, gives that type's sum. |
| `BalanceRoute.WindowTotal` | app/api/stats/balance/route.ts:37-49 | Summing a type over the filtered rows gives the reference total. |
| `BalanceRoute.NoMatchIsZero` | app/api/stats/balance/route.ts:52-53 | With no matching transaction, a field is 0. |
| `BalanceRoute.NonMatchingIgnored` | app/api/stats/balance/route.ts:39-45 | Some transactions contribute to neither field, wherever they sit in the table: another user's, one dated outside the window, or one of another type. |
| `BalanceRoute.MatchingAdds` | app/api/stats/balance/route.ts:37-53 | A matching transaction raises its own type's field by its amount and leaves the other field as it was. |

## Findings

| source | as written | input that shows it | evidently intended | confidence | as-written member | corrected member |
|---|---|---|---|---|---|---|
| actions/settings.ts:52-72 | The action never validates its input against `SettingsSchema`. When the password-change branch is skipped, `password` and `newPassword` go into `user.update` as submitted. | `{ role: 'USER', password: 'secret1' }` from a credentials user. The password column then holds `secret1`, which no password matches. | The values are checked against `SettingsSchema`, which refuses a password without a new password and the reverse with its own messages. The password column then only ever receives `hashPassword(newPassword)`, after the current password was checked. | medium, not executed | `SettingsAction.SettingsAsWritten` | `SettingsAction.Settings` |

## Left out

- Every member: inputs are typed values, so zod's type errors (a non-string e-mail, a missing role) are not modelled. String lengths count code points, whereas zod counts UTF-16 units.
- `Schemas.IsEmail` approximates zod's `.email()` pattern. The approximation requires no spaces, one '@' after a non-empty local part, and a dot inside the domain.
- `Hashing.Hash`: bcrypt is salted, but the stand-in is a fixed tag plus the plaintext.
- `Hashing.Compare`, `LoginAction.Login`, `SettingsAction.Settings`: bcrypt reads only the first 72 bytes of a password, so two passwords that agree on those bytes match the same digest. The stand-in tells them apart. Where the source accepts such a password, `Login` answers "Credenciais inválidas!" and `Settings` answers "Senha incorreta!".
- `LoginAction.Login`: the sign-in provider (`signIn`), its `authorize` callback and the redirect are an abstract outcome parameter. The provider's own password and confirmation checks are not modelled.
- `LoginAction.Login`, `SettingsAction.Settings`, `RegisterAction.Register`: `generateTwoFactorToken` and `generateVerificationToken` are not part of this model. Their output is a parameter recorded in the `issued` log. The rows they write, and the replacement of earlier tokens for the same e-mail, are not modelled.
- `LoginAction.Login`: the two-factor token table holds one row per e-mail. With several rows, `findFirst` would pick one in database order.
- The commented-out e-mail-verification block of `login` is dead code.
- The mailers (`sendTwoFactorTokenEmail`, `sendVerificationEmail`) are only recorded in the `outbox` log. Delivery is not modelled.
- `SettingsAction.Settings`: the source has no schema check, so its place is a choice of this model. It comes first, as in `login` and `register`, and refused values are answered before the session is looked at.
- `SettingsAction.Settings`: the session refresh through `update(...)` after the write has no effect on the tables and is not modelled.
- `RegisterAction.NewUser`: the role `USER` and the disabled two-factor flag are the user table's defaults. The table's schema is not part of this model, and neither is the `emailVerified` column.
- `CurrencyAction.UpdateUserCurrency`: `UpdateUserCurrencySchema` is not part of this model. Its verdict is membership in an `accepted` set, and its error message is not modelled. The action's thrown errors are returned as `CurrencyFailed`.
- `UserSettingsRoute.GetUserSettings`: `revalidatePath` and the JSON response wrapping are framework effects and are not modelled.
- `BalanceRoute.GetBalanceStats`: decimal amounts are integers. The date window is compared on integer timestamps, and the query-parameter parsing (`OverviewQuerySchema`) is not modelled.
- `HistoryPeriodsRoute.GetHistoryPeriods`: `new Date().getFullYear()` is the `currentYear` parameter. The route's own authentication check throws before the query runs and is not modelled.
- The transaction ledger and its month/year rollups (create, delete, CSV import) are not part of this model.
- The pure query routes for transaction history, category statistics and categories are not modelled, nor is any UI component.
- Prisma's transactions, connections and concurrent requests are not modelled. Each action runs alone against the in-memory tables.
