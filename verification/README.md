# Sona Recruitment back office — a Dafny model

The Sona Recruitment back office is a small Express application over SQLite.
Staff record customer payments and temporary and permanent employment
contracts. Administrators manage users and the VAT settings. This project
models the decisions its route handlers make (`server.js`) and the schema
and seed rules of its bootstrap script (`scripts/init-db.js`). Each handler
is a pure function from the stored state and the request to the new state
and the redirect. The contracts and lemmas state what each one guarantees.

Modules, one per component:

- `Common`: optional values (`undefined` / `null` / SQL NULL), JavaScript
  truthiness, `||` and `??` on form fields, and the `Change` outcome of a
  write. A write is applied, refused by a constraint the handler catches,
  answered by a redirect for a missing id, or thrown.
- `Numbers`: `Number(text)` on decimal literals, `String(n)`, and
  `+(x).toFixed(2)`. The last is proved equal to `Round2`, exact rounding to
  the nearest cent with ties away from zero.
- `Tables`: an `INTEGER PRIMARY KEY AUTOINCREMENT` table.
  - It is a sequence of rows in ascending id order plus the counter that
    hands out the next id.
  - It supports `SELECT ... WHERE id=?`, `INSERT`, `UPDATE ... WHERE id=?`,
    `DELETE ... WHERE id=?` and `ORDER BY id DESC LIMIT n`.
  - The rows are an ordered sequence, not a map, so that the first match,
    the newest-first listings and the report scan have a definite order.
- `Users`, `Auth`, `SettingsStore`, `Payments`, `Reports`, `TempContracts`,
  `PermContracts`: the tables and the handlers that write them.
- `Schema`: the database as a whole and the bootstrap script.
- `App`: every state-changing route behind its guard, as one `Dispatch`.

Behaviours of the code that the model keeps as written:

- A failed login redirects to the login page. It does not clear a session
  that already exists. A signed-out visitor therefore stays signed out, and
  a signed-in one stays signed in as before.
- A login without a password makes `bcrypt.compare` reject. Express 4 does
  not catch a rejected async handler. The model takes the runtime to only
  report the unhandled rejection: no response is sent and nothing changes.
  The line for `App.Handle` under "## Left out" says what other runtimes do.
- Editing a temporary contract whose id does not exist throws when the
  handler reads the old signature path, so nothing is written and no
  response is sent.
- The same happens for a `data:image/` signature text without a comma:
  `split(',')[1]` is undefined and `Buffer.from` throws.
- A configured VAT rate of 0 is falsy, so a payment entered with a blank
  rate uses 5%.
- SQLite stores NaN as NULL. A REAL column is therefore an optional number,
  and the report adds a NULL amount as 0.
- `UNIQUE` ignores NULL usernames. A user update conflicts only with other
  rows.
- SQLite takes an AUTOINCREMENT id before it checks UNIQUE. A row dropped
  by `INSERT OR IGNORE` therefore still uses up an id, because the statement
  succeeds and stores the advanced counter. So every re-run of the bootstrap
  script skips one users id. A plain `INSERT` that fails aborts its
  statement, and the counter is rolled back with it.

## Model

| member | source | states |
|---|---|---|
| Auth.RequireAuth | server.js:43 | the handler runs exactly when a session user exists; otherwise the visitor is sent to /login |
| Auth.RequireAdmin | server.js:44 | the handler runs exactly when the session user's role is admin; no user goes to /login, a staff user to / |
| Auth.AdminIsAuthenticated | server.js:43-44 | whoever passes the admin guard also passes the authentication guard |
| Auth.Login | server.js:61-67 | a login succeeds only with a password that matches the stored hash of a row with that username, and then carries that row's summary; an unknown username never succeeds |
| Auth.SessionAfterLogin | server.js:64-67 | the session is replaced by the user on success and otherwise left exactly as it was |
| Auth.LoginExact | server.js:61-67 | with unique usernames, logging in as an existing user succeeds if and only if the password matches that user's hash, and the session is then exactly that user's id, username, role and name |
| Auth.FailedLoginKeepsSignedOut | server.js:63-66 | an unknown username, a missing password or a failing comparison never signs a signed-out visitor in |
| Common.JsOr | server.js:219 | JavaScript's or on form texts: the first operand when it is `Truthy` (a non-empty text), else the second |
| Common.OrEmpty | server.js:123 | a form text or '': the text when non-empty, else '' |
| Common.StringOrEmpty | server.js:46 | `String(a ?? '')`: the text when present, even empty, else '' |
| Common.OrNull | server.js:139 | a form text or NULL: present exactly when the text is non-empty, and then that text |
| SettingsStore.GetSetting | server.js:45 | the stored value when the key exists, the caller's default otherwise |
| SettingsStore.SetSetting | server.js:46 | after the upsert the key holds `String(val ?? '')`, the key set grows by that key only, and every other key keeps its value |
| SettingsStore.GetAfterSet | server.js:45-46 | reading a key after writing it yields the written text for every default, and every other key reads as before |
| SettingsStore.SetIsIdempotent | server.js:46 | writing the same value twice is writing it once |
| SettingsStore.SaveSettings | server.js:118-126 | the four keys hold the brand and rate as given, '1' or '0' for the visibility flag by its truthiness, and the VAT number or ''; no other key changes |
| SettingsStore.RequestLocals | server.js:48-57 | every request sees the stored brand, VAT number and `Number` of the stored rate, falling back to the agency name, '' and 5; visibility is on unless a stored flag differs from '1' |
| SettingsStore.SettingsPage | server.js:112-117 | the settings form shows each stored value, and otherwise the defaults: the agency name, '5', '1' and '1000000000' |
| SettingsStore.SavedSettingsReachEveryPage | server.js:52-55 | what an admin saves is what the next request sees: brand and VAT number as entered, visibility exactly for a non-empty flag, and the rate as `Number` reads it |
| SettingsStore.SettingsPageShowsSaved | server.js:112-126 | the settings page shows back exactly what was saved |
| Users.ParseRole | scripts/init-db.js:7 | the role column accepts exactly 'admin' and 'staff', and reads each back as the same text |
| Users.RoleRoundTrip | scripts/init-db.js:7 | every role is stored as a text the CHECK accepts and reads back as the same role |
| Users.CreateUser | server.js:84-92 | the insert is refused exactly on a duplicate username or a role outside the CHECK; otherwise exactly one id is added, it holds the form's fields, the hash of `password or '1234'` and `role or staff`, every other id reads as before, and usernames stay unique |
| Users.DuplicateUsernameRefused | scripts/init-db.js:7 | inserting an existing username fails and leaves the table unchanged |
| Users.DefaultRoleIsStaff | server.js:88 | a user created without a role is staff |
| Users.UpdateUser | server.js:98-108 | a missing id changes nothing; otherwise only that row changes, it keeps its hash when no password is given and its role when no role is given, and the update is refused exactly on a clash with another row's username or an invalid role |
| Users.EditedRole | server.js:104 | an edit stores the role the form gives when it gives one, else the role the user already had |
| Users.OverwriteUser | server.js:104 | overwriting an existing row with a non-clashing user keeps the table valid and changes only that row |
| Users.InsertKeepsUnique | scripts/init-db.js:7 | an insert whose username no row has keeps usernames unique |
| Users.PutKeepsUnique | scripts/init-db.js:7 | an update whose username no other row has keeps usernames unique |
| Users.DeleteUser | server.js:109 | the id is gone, every other id reads as before, and usernames stay unique |
| Numbers.ParseNatText | server.js:55 | `Number(String(n))` is n |
| Numbers.JsNumber | server.js:55 | `Number(text)`: an empty or all-blank text is 0, and otherwise the text without its surrounding white space must be a decimal literal, else NaN |
| Numbers.JsNumberIgnoresSpace | server.js:136 | padding a text with white space on either side does not change the number `Number` reads |
| Numbers.NumberOrZero | server.js:136 | `Number` of a field or 0: a missing or empty field is 0, any other text is read by `Number` |
| Numbers.Round2Spec | server.js:137 | `Round2`, the rounding `toFixed(2)` performs, lands on whole cents at most half a cent away, breaking ties away from zero |
| Numbers.Fixed2IsRound2 | server.js:137 | `ToFixed2` renders two decimals that `Number` reads back as exactly the rounded amount, so `Fixed2` (`+(x).toFixed(2)`) is `Round2` |
| Numbers.Fixed2Rounds | server.js:137 | the same on a possibly-NaN number: NaN stays NaN |
| Numbers.Round2OfCents | server.js:137 | an amount already in whole cents is left alone |
| Numbers.Round2Idempotent | server.js:137 | rounding twice is rounding once |
| Payments.EffectiveRate | server.js:136 | the form's rate when non-empty, else the configured rate unless it is 0 or NaN, else 5 |
| Payments.Derive | server.js:137 | VAT and total are NaN when net or rate is; otherwise both are whole cents, VAT within half a cent of net × rate / 100 and the total within half a cent of net plus VAT |
| Payments.DeriveIsFixed2 | server.js:137 | the derived VAT and total are exactly the handler's `+(net*rate/100).toFixed(2)` and `+(net+vat).toFixed(2)`, with `Percent` and `Plus` the NaN-propagating product and sum |
| Payments.DerivedAmounts | server.js:137 | on plain numbers: both amounts are whole cents near their exact values, and for a net in whole cents the total is exactly net plus VAT |
| Payments.NewPayment | server.js:135-139 | the inserted row: net is `Number(amount_net or 0)`, rate as `EffectiveRate`, amounts as `Derive`, the date defaults to today, the session user is recorded and empty contract fields become NULL |
| Payments.BlankNetIsZero | server.js:136-137 | a blank net amount is 0, and whenever the rate is a number so are the VAT and the total |
| Payments.HundredAtFivePercent | server.js:136-137 | '100' at '5' percent gives VAT 5.00 and total 105.00 |
| Payments.CreatePayment | server.js:138-139 | the new id reads as the derived payment and every other id as before |
| Payments.CreatorName | server.js:130 | the creator's name, NULL when the user is gone |
| Payments.WithNames | server.js:130 | each listed row, in order, is paired with its creator's name |
| Payments.ListPayments | server.js:129-132 | the newest 200 payments (all of them when fewer), newest first, each with its creator's name; every payment left out is older than every one shown |
| Reports.WhereMeansMatches | server.js:146-150 | the generated WHERE clause, read term by term by `Holds`, holds of a payment if and only if it `Matches` every supplied filter: inclusive day bounds, and method and user only when not empty or 'all' |
| Reports.BuildWhereTerms | server.js:146-150 | the clause `BuildWhere` builds has a lower day bound exactly for a supplied `from`, an upper one exactly for a supplied `to`, and a method or user term exactly when that filter is neither empty nor 'all' |
| Reports.Select | server.js:151 | the selected rows are exactly the table rows that match, each at most as often as in the table |
| Reports.SortByDate | server.js:151 | the result is ordered by date and is a permutation of its input |
| Reports.SalesReport | server.js:144-155 | the report lists exactly the matching payments, each once, in ascending date order, and each aggregate is its column's sum over them and over the matching rows in id order |
| Reports.AggregateIsSum | server.js:152 | the reduce (`Aggregate`, a left fold of `AddRow`) equals the column sums, missing amounts counting as 0 |
| Reports.SumPermutation | server.js:151-152 | a column sum does not depend on the order of the rows |
| Reports.UserFilterSelectsUser | server.js:150 | a user filter of `String(id)` selects exactly that user's payments |
| Reports.AllIsNoFilter | server.js:149-150 | the filter 'all' constrains no more than an absent filter |
| Reports.EmptyQueryReportsAll | server.js:146 | with no filters every payment is reported |
| TempContracts.SignatureOf | server.js:163-165 | a signature is stored at '/uploads/' + the new name + '.png' exactly when the field is a `data:image/` text with a comma; such a text without one throws |
| TempContracts.CreateTemp | server.js:160-170 | throws exactly on a broken signature; otherwise the new row has the agency as first party, the creator, the form's fields, the salary as `Number(... or 0)` and a path exactly for a saved signature |
| TempContracts.CreateSignaturePath | server.js:162-165 | on create the path is the new file's for a `data:image/` text and NULL otherwise |
| TempContracts.UpdateTemp | server.js:176-187 | a missing id or a broken signature throws and writes nothing; otherwise only that row changes, first party and creator kept |
| TempContracts.UpdateSignaturePath | server.js:179-183 | on edit the path is the new file's for a `data:image/` text and the stored one otherwise |
| TempContracts.OtherTextIsUnsigned | server.js:163 | a text that is not a data URL never becomes a signature |
| PermContracts.UploadPath | server.js:198 | a field's path is '/uploads/' + the stored file name exactly when a file was uploaded for it |
| PermContracts.MergeDocs | server.js:214-219 | each of the six path columns becomes the new upload's path when one was supplied and keeps its stored value otherwise |
| PermContracts.WithForm | server.js:201 | the ten text columns take the form's values, the amount is `Number(amount or 0)` and the warranty flag the field's truthiness; first party, paths and creator are kept |
| PermContracts.CreatePerm | server.js:193-203 | the new row has the agency as first party, the creator, every form column as sent and exactly the uploaded paths; every other id reads as before |
| PermContracts.UpdatePerm | server.js:209-221 | a missing id changes nothing; otherwise only that row changes: every form column as sent, first party and creator kept, each path column new if uploaded else old |
| PermContracts.NoUploadKeepsDocs | server.js:219 | an edit without uploads keeps every stored path |
| PermContracts.ResaveIsIdempotent | server.js:215-219 | saving the same edit again without uploads changes nothing more |
| PermContracts.UpdateMissingChangesNothing | server.js:215-216 | editing a nonexistent id leaves the table as it was |
| Schema.CreateTables | scripts/init-db.js:7-11 | all five tables exist afterwards; an existing table keeps its rows and a new one starts empty |
| Schema.InsertOrIgnore | scripts/init-db.js:12 | a key already present keeps its value; an absent one gets the default; one value per key |
| Schema.SeedSettings | scripts/init-db.js:12 | the four defaults are added where missing and no stored setting changes |
| Schema.SeedAdmin | scripts/init-db.js:14 | the 'sona' administrator is inserted exactly when no user has that name, other rows unchanged; the AUTOINCREMENT counter advances by one even when the insert is ignored |
| Schema.Bootstrap | scripts/init-db.js:7-14 | the script yields all five tables with their constraints |
| Schema.SeedNeverOverwrites | scripts/init-db.js:7-14 | no stored setting, user, payment or contract is changed by the script |
| Schema.SeedCompletesSettings | scripts/init-db.js:12 | afterwards all four setting keys exist |
| Schema.AdminSeededOnlyWhenAbsent | scripts/init-db.js:14 | the administrator row is added, with the next id, exactly when no user is called 'sona'; otherwise the rows stay and only the users counter moves on |
| Schema.SeededAdminExists | scripts/init-db.js:14 | afterwards a user called 'sona' exists |
| Schema.BootstrapIdempotent | scripts/init-db.js:7-14 | a second run changes nothing but the users counter, which the ignored administrator insert advances by one, whatever hash it computes |
| Schema.RerunUsesAnId | scripts/init-db.js:7-14 | run twice on a fresh file, the script leaves 'sona' at id 1 and the next user id at 3 |
| Schema.FreshBootstrap | scripts/init-db.js:7-15 | on a fresh file the script leaves exactly the four defaults and one administrator with id 1, with the next user id 2 |
| Tables.Get | server.js:100 | a lookup finds a row exactly when the id is stored, and returns that row's value |
| Tables.Insert | server.js:138 | an insert appends one row under a fresh id and keeps ids ascending and below the counter |
| Tables.Put | server.js:104 | an update changes the value of the row with that id and nothing else |
| Tables.Delete | server.js:109 | a delete keeps every row with another id and only those, and keeps ascending ids ascending |
| Tables.Remove | server.js:188 | deleting a temporary or permanent contract (also line 222): the id is gone, every other id reads as before, and the table stays valid |
| Tables.Newest | server.js:130 | the listing is the last n rows, newest first |
| Tables.Latest | server.js:158 | the temporary and permanent contract lists (also line 191): at most 200 rows of the table, in strictly descending id order, every row left out older than every row shown |
| Tables.NewestIsNewestFirst | server.js:130 | the listing is in strictly descending id order and every row left out is older than every row shown |
| Tables.FirstWhere | server.js:63 | the first row in id order whose value satisfies the condition, or none exactly when no row does |
| Tables.GetUnique | server.js:100 | in a valid table a lookup by a stored row's id yields that row |
| Tables.GetAfterPut | server.js:104 | after an update the id reads as the new value and every other id as before; an absent id changes nothing |
| Tables.PutAbsent | server.js:104 | updating an id with no row leaves the rows unchanged |
| Tables.PutTwice | server.js:219 | a second update of the same id overrides the first |
| Tables.PutKeepsValid | server.js:104 | an update keeps the ids and their order |
| Tables.GetAfterDelete | server.js:109 | after a delete the id is gone and every other id reads as before |
| Tables.DeleteKeepsValid | server.js:109 | a delete removes exactly that id and keeps the order |
| Tables.GetAfterInsert | server.js:138 | after an insert the new id reads as the inserted value and every other id as before |
| App.RouteGuard | server.js:43-44 | a user or settings route proceeds exactly for an administrator, any other guarded route exactly for a signed-in user, login and logout always; a visitor is sent to /login and staff on an admin route to / |
| App.Dispatch | server.js:61-222 | every request keeps the database valid, only login and logout touch the session, and a redirecting guard changes nothing |
| App.Handle | server.js:61-222 | a request that gets no response has changed nothing, on a runtime that only reports a rejected async handler |
| App.SignedOutCannotWrite | server.js:43 | a signed-out visitor changes nothing on any guarded route and is sent to /login |
| App.StaffCannotAdminister | server.js:44 | a staff member changes nothing on a user or settings route and is sent to / |
| App.PaymentIsAttributed | server.js:139 | a recorded payment carries the signed-in user's id |
| App.BlankRateUsesSettings | server.js:136 | with a blank form rate, a payment uses `Number` of any stored rate text, and 5 when none is stored or it reads as 0 or NaN; a stored whole number n gives n |
| App.SeededAdminCanSignIn | scripts/init-db.js:14-15 | after bootstrapping a fresh database, 'sona' with the password the hash was made from signs in as an administrator |

## Left out

- File writes are not modelled: the signature image, multer's uploads and the folders they go to. A file name is an input: the uuid for a signature, and the stored name for an upload.
- Generating the uuid, hashing with bcrypt and comparing passwords are not modelled. They are function inputs.
- Express, body parsing, method override, the session store and connect-flash are not modelled. So are flash texts, template rendering and the GET routes that only render a page: the login page, the dashboard, the new and edit forms and the user list.
- The report's user drop-down query (server.js:153) is not modelled. It only feeds the page.
- Failures of the SQLite driver itself are not modelled, nor is a query against a table that does not exist. `Dispatch` assumes a bootstrapped database. The script's `console` output and `process.exit` are not modelled either.
- Concurrency between requests is not modelled. Each request is one atomic transition.
- `created_at` defaults are not modelled.
- SQLite's column affinity conversions are not modelled. For example, a `contract_id` text that looks like an integer is stored as an integer.
- Form fields that arrive as arrays are not modelled. `req.params.id` is taken to be a whole number, and a non-numeric id behaves like an id with no row.
- Dates are day numbers that SQLite's `date(...)` has already normalised. A date text that `date(...)` cannot read is not modelled, and neither is the time of day of `new Date().toISOString()`. The report's `ORDER BY date ASC` (server.js:151) compares the stored date texts, not `date(date)`; `SortByDate` orders by day number, which agrees with that text order only when every stored date is in ISO `YYYY-MM-DD` form.
- Numbers.JsNumber: exponent notation, hexadecimal, binary and octal prefixes, `Infinity` and non-ASCII white space (no-break space, the Unicode space separators, line and paragraph separators, the byte order mark) are not read. Such texts come out as NaN here, whereas JavaScript reads most of them as numbers.
- Payments.Derive: amounts are exact decimals, not IEEE doubles. For an amount that a double cannot represent exactly, the double's `toFixed(2)` can round the other way on a tie (1.005 becomes '1.00' in JavaScript). The model rounds the exact value.
- Reports.SalesReport: the report totals are exact sums, not floating-point sums.
- Reports.SalesReport: SQLite leaves the order of payments with the same date open. The model lists them in id order, and its contract states only date order and the exact set of rows.
- Reports.Holds: a user filter text with surrounding spaces or in exponent form is treated as matching no user.
- App.Handle: the model assumes Express 4 on a runtime that only reports an unhandled rejection, so a throwing handler sends nothing and the process keeps its in-memory sessions. Under Express 5 the rejection becomes a 500 response. Under Node 15 or later without an `unhandledRejection` hook, the process exits and the sessions in the memory store (server.js:32) are lost. Neither is modelled.
