# Signage admin panel: accounts, route table, display channels and client forms

This project is a Dafny model of the core of an IoT signage admin panel. The panel has a hapi
backend and a React client.

**Backend.** It keeps accounts in a `users` table and every login in `login_history`. It holds
one-time passwords for password recovery in an in-memory map. It stores what the signage
device shows in tables of its own:
- the running text;
- the date and time;
- the displayed temperature, plus a full log of temperature readings.

Every manual edit appends a row to `feature_usage_history`. A route table decides, for each
request:
- which handler serves it;
- whether a JWT is needed;
- whether the account's role is checked first.

**Client.** It checks its stored token locally. It validates the sign-up form before posting
it. It edits the user's name and photo in a profile modal. It shares the login history
through a context provider. It sets the displayed temperature from a modal that polls the
sensor value in auto mode.

How the model is built:
- **Tables.** Each table is a sequence of rows with auto-increment ids (module `Tables`). The
  `SELECT`, `INSERT`, `UPDATE` and `DELETE` statements the handlers run are functions over
  those sequences.
- **Stateful backend code.** The handlers that change state are methods of two classes,
  `Accounts.AccountStore` and `Display.DisplayStore`. Their fields are the tables, the
  auto-increment counters and the OTP map.
- **Client components.** Each one is a class whose fields are its React state. Each event
  handler is a method, proved against a specification function.
- **Outside inputs.** Clocks, random draws, the browser's `parseFloat`/`toFixed`/`atob`, and
  the answers of HTTP requests are parameters.

Properties proved across modules include:
- registration keeps e-mails lower-case and unique;
- after any history of issues and resets, an OTP is accepted exactly when the last event for
  that e-mail issued it and it has not expired;
- every token the backend issues passes its own validation;
- the client's form checks imply the server's checks;
- the client's "delete all" request matches no route;
- a saved manual temperature stops the modal's polling updates.

## Model

| member | source | states |
|---|---|---|
| Common.TrimSpec | node_modules/.pnpm/node_modules/backend/handlers/handlers.js:87-89 | `trim` keeps a contiguous middle piece, drops only white space and leaves none at either end |
| Common.TrimEmptyIffAllSpace | frontend/src/pages/auth/Register.jsx:26-32 | a trimmed value is empty exactly when the original is all white space (the `!x.trim()` blank test) |
| Common.TrimIdempotent | node_modules/.pnpm/node_modules/backend/handlers/handlers.js:244 | trimming an already trimmed name changes nothing |
| Common.ToLower | node_modules/.pnpm/node_modules/backend/handlers/handlers.js:54-57 | lower-casing keeps the length and maps each character independently |
| Common.Split | node_modules/.pnpm/node_modules/backend/handlers/handlers.js:244 | `split` on one character yields at least one piece and no piece holds the separator |
| Common.JoinSplit | node_modules/.pnpm/node_modules/backend/handlers/handlers.js:244-249 | joining the pieces of a split with the same separator restores the string |
| Common.SplitManyIffSep | node_modules/.pnpm/node_modules/backend/handlers/handlers.js:244-249 | a split has more than one piece exactly when the separator occurs |
| Common.SplitName | node_modules/.pnpm/node_modules/backend/handlers/handlers.js:244-249 | the first name is the trimmed name's text before its first space (or all of it), the last name the rest after that space |
| Common.DecimalString | node_modules/.pnpm/node_modules/backend/handlers/handlers.js:817 | `String(n)` is a non-empty digit string with no leading zero |
| Common.ParseDecimalString | node_modules/.pnpm/node_modules/backend/handlers/handlers.js:817 | reading back the decimal string of a number gives the number |
| Common.DecimalStringLength | node_modules/.pnpm/node_modules/backend/handlers/handlers.js:174 | a number in [10^(k-1), 10^k) prints with exactly k digits |
| Tables.InsertWellFormed | node_modules/.pnpm/node_modules/backend/handlers/handlers.js:82-95 | an insert keeps ids increasing, positive and below the next auto-increment value |
| Tables.MaxBy | node_modules/.pnpm/node_modules/backend/handlers/handlers.js:475-479 | `ORDER BY key DESC LIMIT 1` is empty only for an empty table, and otherwise returns a row whose key is at least every other row's |
| Tables.LatestIsLastInserted | node_modules/.pnpm/node_modules/backend/handlers/handlers.js:795-796 | in a well-formed table the greatest id is the most recently inserted row |
| Tables.ReadAfterInsert | node_modules/.pnpm/node_modules/backend/handlers/handlers.js:795-796 | right after an insert, the greatest-id read returns the inserted row |
| Tables.MaxByAppendGreatest | node_modules/.pnpm/node_modules/backend/handlers/handlers.js:475-479 | appending a row whose key is strictly greater than every earlier key makes it the selected one |
| Tables.RemoveId | node_modules/.pnpm/node_modules/backend/handlers/handlers.js:396-398 | `DELETE ... WHERE id = ?` keeps exactly the rows with another id |
| Tables.RemoveIdConcat | node_modules/.pnpm/node_modules/backend/handlers/handlers.js:396-398 | deleting distributes over concatenation, so survivors keep their order |
| Tables.RemoveIdAbsent | node_modules/.pnpm/node_modules/backend/handlers/handlers.js:400-405 | deleting an id no row has changes nothing, so a repeated delete is a no-op |
| Tables.RemoveIdGone | node_modules/.pnpm/node_modules/backend/handlers/handlers.js:396-398 | after a delete no row with that id remains |
| Tables.RemoveIdOne | node_modules/.pnpm/node_modules/backend/handlers/handlers.js:396-411 | with unique ids, deleting a present id removes exactly one row (`affectedRows` is 1) |
| Tables.RemoveIdWellFormed | node_modules/.pnpm/node_modules/backend/handlers/handlers.js:396-398 | a delete keeps the table well formed |
| Tables.RemoveIdAbsentSize | node_modules/.pnpm/node_modules/backend/handlers/handlers.js:400-405 | `affectedRows` is zero exactly when no row had the id |
| Tables.InsertDesc | node_modules/.pnpm/node_modules/backend/handlers/handlers.js:358-363 | inserting into a descending list keeps it descending and adds exactly that element |
| Tables.SortDesc | node_modules/.pnpm/node_modules/backend/handlers/handlers.js:358-363 | `ORDER BY key DESC` returns the same rows as a multiset, in descending key order |
| Tables.FirstWhere | node_modules/.pnpm/node_modules/backend/handlers/handlers.js:122-125 | the first row satisfying a `WHERE` condition, or none exactly when no row satisfies it |
| Tables.SelectFirst | node_modules/.pnpm/node_modules/backend/handlers/handlers.js:122-130 | the scan for `rows[0]` of a `SELECT` finds exactly `FirstWhere`'s row |
| Tables.FirstWhereUnique | node_modules/.pnpm/node_modules/backend/handlers/handlers.js:122-125 | a satisfying row preceded only by non-satisfying rows is the one selected |
| Jwt.Issue | node_modules/.pnpm/node_modules/backend/handlers/handlers.js:132-137 | the signed payload carries the id, names and role, with `exp` two hours after an `iat` taken from the clock in whole seconds |
| Auth.ValidateUser | backend/index.js:10-15 | a payload is accepted, and becomes the credentials, only with a present id and a non-empty role |
| Auth.RefusedPayloads | backend/index.js:10-15 | a missing or zero id, a missing or empty role, or no payload is refused |
| Auth.OnlyIdAndRoleChecked | backend/index.js:10-15 | names and times never decide acceptance |
| Auth.AnyRoleAccepted | backend/index.js:10-15 | any non-empty role passes, not only the three account statuses |
| Auth.IssuedTokenAccepted | backend/index.js:10-15 | every payload the login handler signs for a stored account is accepted |
| Auth.EffectiveStrategy | backend/index.js:46-52 | a route authenticates unless its `auth` is `false`, with its named strategy or else the default |
| Auth.DefaultStrategyRequiresToken | backend/index.js:52 | a route that names no strategy uses `jwt` |
| Accounts.MatchesOwnPasswordOnly | node_modules/.pnpm/node_modules/backend/handlers/handlers.js:127-130 | a digest accepts exactly the password it was made from |
| Accounts.StatusesDistinct | node_modules/.pnpm/node_modules/backend/handlers/handlers.js:34-37 | the accepted statuses are the three distinct strings dosen, mahasiswa, staff |
| Accounts.IsLowerToLower | node_modules/.pnpm/node_modules/backend/handlers/handlers.js:54-57 | lower-casing yields lower-case text and fixes exactly the lower-case strings |
| Accounts.SameKeysUnique | node_modules/.pnpm/node_modules/backend/handlers/handlers.js:336-354 | a table that agrees row by row on ids, e-mails, NIDNs and NIMs with a unique one is unique |
| Accounts.SameKeysPreserve | node_modules/.pnpm/node_modules/backend/handlers/handlers.js:336-354 | such a table keeps lower-case e-mails, uniqueness and well-formed ids |
| Accounts.EmailPatternIntro | node_modules/.pnpm/node_modules/backend/handlers/handlers.js:29-32 | every `a@b.c` with non-empty parts free of white space and `@` matches the e-mail pattern |
| Accounts.EmailPatternElim | node_modules/.pnpm/node_modules/backend/handlers/handlers.js:29-32 | every match splits as `a@b.c` with non-empty parts |
| Accounts.EmailPatternNoSpace | node_modules/.pnpm/node_modules/backend/handlers/handlers.js:29-32 | a matching e-mail holds no white space |
| Accounts.NormalisedEmail | node_modules/.pnpm/node_modules/backend/handlers/handlers.js:54-57 | for a valid e-mail, lower-casing then trimming gives a lower-case value that trimming leaves alone |
| Accounts.FieldRejection | node_modules/.pnpm/node_modules/backend/handlers/handlers.js:23-52 | a payload passing the 400 checks has every required field, a matching e-mail, a known status and the identity number its status needs |
| Accounts.FieldChecksPass | node_modules/.pnpm/node_modules/backend/handlers/handlers.js:23-52 | conversely, a payload with every required field, a matching e-mail, a known status and the identity number its status needs passes all 400 checks |
| Accounts.Conflict | node_modules/.pnpm/node_modules/backend/handlers/handlers.js:54-80 | no conflict exactly when no row holds the lower-cased e-mail and, for a kept NIDN or NIM, no row holds it; a conflict is one of the three 409 messages |
| Accounts.NewAccount | node_modules/.pnpm/node_modules/backend/handlers/handlers.js:82-95 | the inserted row takes the status as its role, has no picture, and has a NIDN exactly for a dosen and a NIM exactly for a mahasiswa |
| Accounts.Registration | node_modules/.pnpm/node_modules/backend/handlers/handlers.js:11-116 | registration answers 400 or 409 when it refuses, and the created row takes the next id |
| Accounts.NidnConflict | node_modules/.pnpm/node_modules/backend/handlers/handlers.js:62-70 | a dosen whose e-mail is free but whose NIDN some row holds is refused with 409 "NIDN already registered" (`NidnTaken`) |
| Accounts.NimConflict | node_modules/.pnpm/node_modules/backend/handlers/handlers.js:72-80 | a mahasiswa whose e-mail is free but whose NIM some row holds is refused with 409 "NIM already registered" (`NimTaken`) |
| Accounts.CreatedWhenFree | node_modules/.pnpm/node_modules/backend/handlers/handlers.js:82-108 | a payload passing the 400 checks whose e-mail, kept NIDN and kept NIM no row holds is created as `NewAccount` under the next id |
| Accounts.FieldChecksFirst | node_modules/.pnpm/node_modules/backend/handlers/handlers.js:23-32 | every field rejection is a 400 whatever the table holds, with missing fields reported before a bad e-mail |
| Accounts.StatusSpecificFields | node_modules/.pnpm/node_modules/backend/handlers/handlers.js:39-52 | a dosen without a NIDN and a mahasiswa without a NIM get their own 400, and a staff member needs neither |
| Accounts.EmailConflictFirst | node_modules/.pnpm/node_modules/backend/handlers/handlers.js:54-60 | a taken lower-cased e-mail is a 409 whatever the NIDN and NIM |
| Accounts.CreatedIsNewAccount | node_modules/.pnpm/node_modules/backend/handlers/handlers.js:82-108 | an accepted payload passed every check and its row is the payload's account under the next id |
| Accounts.NewAccountShape | node_modules/.pnpm/node_modules/backend/handlers/handlers.js:82-95 | the stored row has trimmed names, the lower-cased e-mail, the status as role, and a NIDN only for a dosen and a NIM only for a mahasiswa |
| Accounts.BlankNameStoredEmpty | node_modules/.pnpm/node_modules/backend/handlers/handlers.js:23-27 | a name of spaces passes the presence check and is stored empty |
| Accounts.RegistrationKeepsKeys | node_modules/.pnpm/node_modules/backend/handlers/handlers.js:54-95 | registration keeps stored e-mails lower-case and e-mails, NIDNs and NIMs unique |
| Accounts.NoConflictFacts | node_modules/.pnpm/node_modules/backend/handlers/handlers.js:54-80 | passing the 409 checks means no row has the e-mail, nor the NIDN or NIM when one is given |
| Accounts.AppendKeepsKeys | node_modules/.pnpm/node_modules/backend/handlers/handlers.js:82-95 | appending a lower-case, new e-mail with new identity numbers keeps the table's key invariants |
| Accounts.LoginOutcome | node_modules/.pnpm/node_modules/backend/handlers/handlers.js:119-146 | a refused login is a 404 (unknown e-mail) or a 401 (wrong password) |
| Accounts.LoginUnknownEmail | node_modules/.pnpm/node_modules/backend/handlers/handlers.js:122-125 | an e-mail no account holds exactly is refused with 404 |
| Accounts.LoginIsCaseSensitive | node_modules/.pnpm/node_modules/backend/handlers/handlers.js:122-125 | under exact string comparison of e-mails, an e-mail with an upper-case letter never logs in, since stored e-mails are lower-case |
| Accounts.OtpAccepts | node_modules/.pnpm/node_modules/backend/handlers/handlers.js:181-188 | `verifyOTP` accepts exactly when a record exists for the e-mail, its code is strictly equal to the one given and the clock has not passed its expiry |
| Accounts.LoginChecksTheAccount | node_modules/.pnpm/node_modules/backend/handlers/handlers.js:122-137 | with unique e-mails, login checks the password against that e-mail's own account and signs its id and role |
| Accounts.RequireRole | node_modules/.pnpm/node_modules/backend/handlers/handlers.js:149-160 | the request continues iff the credential role is listed, and is otherwise refused with 403 |
| Accounts.OtpCode | node_modules/.pnpm/node_modules/backend/handlers/handlers.js:174 | the code is six digits between 100000 and 999999 |
| Accounts.Apply | node_modules/.pnpm/node_modules/backend/handlers/handlers.js:175 | an issue overwrites only that e-mail's record with a five-minute expiry, and a reset removes only that record |
| Accounts.LastFor | node_modules/.pnpm/node_modules/backend/handlers/handlers.js:165-196 | the event found concerns the e-mail asked about |
| Accounts.ReplayAccepts | node_modules/.pnpm/node_modules/backend/handlers/handlers.js:165-196 | after any history, a code is accepted iff the last event for that e-mail issued exactly that code and it has not expired |
| Accounts.LastIndex | node_modules/.pnpm/node_modules/backend/handlers/handlers.js:296 | finds the last occurrence of a character, or none when it is absent |
| Accounts.ExtName | node_modules/.pnpm/node_modules/backend/handlers/handlers.js:296 | `path.extname` is empty or a dotted suffix with no other dot that is not the whole name |
| Accounts.UploadRejection | node_modules/.pnpm/node_modules/backend/handlers/handlers.js:295-315 | an upload is accepted iff its lower-cased extension is allowed and its MIME type, when given, is allowed; a refusal is a 400 |
| Accounts.NoEmptyExtension | node_modules/.pnpm/node_modules/backend/handlers/handlers.js:298-304 | a file name without an extension is refused |
| Accounts.AcceptedUploadName | node_modules/.pnpm/node_modules/backend/handlers/handlers.js:296-304 | an accepted name has a `.` after its first character followed by an allowed extension |
| Accounts.ExtensionDot | node_modules/.pnpm/node_modules/backend/handlers/handlers.js:296 | a non-empty extension is the lower-cased text after a dot that is not the first character |
| Accounts.UpdateNames | node_modules/.pnpm/node_modules/backend/handlers/handlers.js:336-354 | the update rewrites names (and the picture when given) of exactly the rows with the id |
| Accounts.UpdateNamesSameKeys | node_modules/.pnpm/node_modules/backend/handlers/handlers.js:336-354 | the profile update changes no id, e-mail, NIDN or NIM |
| Accounts.NewPicture | node_modules/.pnpm/node_modules/backend/handlers/handlers.js:240-242 | the picture column changes exactly when a photo was uploaded |
| Accounts.UpdatedRow | node_modules/.pnpm/node_modules/backend/handlers/handlers.js:336-354 | the updated row carries the new names and, when given, the new picture, and keeps its keys |
| Accounts.SetPassword | node_modules/.pnpm/node_modules/backend/handlers/handlers.js:190-196 | exactly the rows with that e-mail get the new digest, the others are unchanged |
| Accounts.SetPasswordSameKeys | node_modules/.pnpm/node_modules/backend/handlers/handlers.js:190-196 | a reset changes no id, e-mail, NIDN or NIM |
| Accounts.LoginAfterReset | node_modules/.pnpm/node_modules/backend/handlers/handlers.js:190-196 | after a reset the new password logs in to that account and the previous one no longer does (unless equal) |
| Accounts.JoinLogins | node_modules/.pnpm/node_modules/backend/handlers/handlers.js:358-374 | every joined entry comes from one login row of an existing user, with its id, time and the user's columns |
| Accounts.JoinLoginsComplete | node_modules/.pnpm/node_modules/backend/handlers/handlers.js:358-374 | every login row whose user exists yields a joined entry, and the join has exactly as many entries as there are such rows |
| Accounts.CheckFields | node_modules/.pnpm/node_modules/backend/handlers/handlers.js:23-52 | the sequence of 400 checks finds exactly `FieldRejection` and the NIDN and NIM kept per status |
| Accounts.AccountStore.constructor | node_modules/.pnpm/node_modules/backend/handlers/handlers.js:165 | the store starts with empty tables and an empty OTP map |
| Accounts.AccountStore.FindConflict | node_modules/.pnpm/node_modules/backend/handlers/handlers.js:54-80 | the three uniqueness lookups, in order, find exactly `Conflict` |
| Accounts.AccountStore.RegisterUser | node_modules/.pnpm/node_modules/backend/handlers/handlers.js:11-116 | answers `Registration` and appends the created row and nothing else, keeping the key invariants |
| Accounts.AccountStore.Login | node_modules/.pnpm/node_modules/backend/handlers/handlers.js:119-146 | answers `LoginOutcome`; an accepted login appends exactly one history row for that user, a refused one changes nothing |
| Accounts.AccountStore.ForgotPassword | node_modules/.pnpm/node_modules/backend/handlers/handlers.js:167-179 | an unknown e-mail is a 404 with the ledger unchanged; a known one gets a fresh six-digit code expiring in five minutes |
| Accounts.AccountStore.VerifyOtp | node_modules/.pnpm/node_modules/backend/handlers/handlers.js:181-188 | answers 200 exactly when the stored code equals the given one and has not expired, otherwise 400 |
| Accounts.AccountStore.ResetPassword | node_modules/.pnpm/node_modules/backend/handlers/handlers.js:190-196 | rewrites the digest of the e-mail's accounts and drops its OTP, without consulting the ledger |
| Accounts.AccountStore.UpdateProfile | node_modules/.pnpm/node_modules/backend/handlers/handlers.js:226-275 | a missing name is a 500, a refused photo is its 400, otherwise the split name and new picture are stored and read back |
| Accounts.AccountStore.StoreProfile | node_modules/.pnpm/node_modules/backend/handlers/handlers.js:251-266 | the update is applied, and the reply succeeds iff the account exists, carrying its stored picture |
| Accounts.AccountStore.GetLoginHistory | node_modules/.pnpm/node_modules/backend/handlers/handlers.js:356-382 | the joined entries, newest login first, as a permutation of the join |
| Accounts.AccountStore.DeleteLoginHistoryByUserId | node_modules/.pnpm/node_modules/backend/handlers/handlers.js:384-419 | 400 without an id, 404 when no row has it, otherwise exactly that login row goes |
| Accounts.AccountStore.DeleteAllLoginHistory | node_modules/.pnpm/node_modules/backend/handlers/handlers.js:421-429 | the login history is emptied and nothing else changes |
| Routes.Lookup | backend/routes/routes.js:29-222 | the position of the first route whose method and path pattern match, or none exactly when no route does |
| Routes.RouteAt | backend/routes/routes.js:29-222 | the route at each of the 24 positions of `authRoutes`: method, path pattern, handler, auth setting and `pre` check |
| Routes.AuthRoutes | backend/routes/routes.js:29-222 | the table `authRoutes` as a sequence of the 24 routes |
| Routes.Dispatch | backend/routes/routes.js:29-222 | a request is answered 404 exactly when no route matches it, and a request that proceeds reaches the handler of a route matching it |
| Routes.MatchBothOverlap | backend/routes/routes.js:29-222 | a request path matched by two path patterns shows the patterns overlap segment by segment |
| Routes.NoOverlap | backend/routes/routes.js:29-222 | two routes with the same method never have overlapping path patterns |
| Routes.RoutesDisjoint | backend/routes/routes.js:29-222 | no request matches two routes, so the first match in table order is the route hapi picks |
| Routes.Admit | backend/routes/routes.js:29-222 | a public route proceeds without credentials; a token route refuses an invalid payload with 401; only the `pre` role check refuses with 403 |
| Routes.PublicRoutesAreExactlyTheListed | backend/routes/routes.js:29-222 | of the 24 routes, exactly those of the eleven public handlers are served without a token |
| Routes.PublicHandlersRouted | backend/routes/routes.js:29-222 | every public handler has a route |
| Routes.TokenRoutesUseJwt | backend/routes/routes.js:29-222 | every route that needs a token authenticates with `jwt` |
| Routes.UnroutedHandlers | backend/routes/routes.js:29-222 | no route dispatches to `saveManualTemperature` or `deleteAllLoginHistory` |
| Routes.ManualTemperatureRoute | backend/routes/routes.js:190-197 | `POST /api/feature/temperature/manual` is served by `handleTemperature` and needs a token |
| Routes.NoDeleteAllLoginHistoryRoute | backend/routes/routes.js:90-105 | `DELETE /api/auth/login-history` matches no route and is answered 404 whatever the token |
| Routes.ResetPasswordIsPublic | backend/routes/routes.js:54-59 | the password reset reaches its handler with or without a token |
| Routes.ProfileRoute | backend/routes/routes.js:60-68 | `GET /api/auth/profile` is served by the one route with a role check |
| Routes.ProfileRoleGate | backend/routes/routes.js:60-68 | the profile request continues exactly for a valid token whose role is an account status |
| Routes.TokenRoutesNeedValidToken | backend/routes/routes.js:29-222 | every token route turns away a request without an acceptable payload with 401 |
| Routes.DeleteRoutesCarryId | backend/routes/routes.js:98-105 | a path reaching a delete-by-id handler always ends in a non-empty id segment |
| Routes.DeleteHandlersRoutes | backend/routes/routes.js:98-210 | the two delete-by-id handlers are served by routes 8 and 21 only |
| Display.Interpolated | node_modules/.pnpm/node_modules/backend/handlers/handlers.js:609 | a present claim prints as itself in a template literal |
| Display.FormattedTime | node_modules/.pnpm/node_modules/backend/handlers/handlers.js:661-662 | `hours:minutes:00` from the parts of the time split at `:`, with "undefined" for missing minutes |
| Display.TextUsage | node_modules/.pnpm/node_modules/backend/handlers/handlers.js:445-449 | the `Edit Text` usage row: the editor, its name and `Teks diubah menjadi: <text>` |
| Display.DateUsage | node_modules/.pnpm/node_modules/backend/handlers/handlers.js:604-612 | the `Edit Date` usage row: `Tanggal diubah menjadi: <date> (<mode>)` under the account's name |
| Display.TimeUsage | node_modules/.pnpm/node_modules/backend/handlers/handlers.js:670-678 | the `Edit Time` usage row: `Jam diubah menjadi: <time> (<mode>)` under the account's name |
| Display.TemperatureUsage | node_modules/.pnpm/node_modules/backend/handlers/handlers.js:738-746 | the `Edit Temperature` usage row: `Suhu diubah menjadi: <T>°C (<mode>)` under the account's name |
| Display.AllSpaceJoin | node_modules/.pnpm/node_modules/backend/handlers/handlers.js:434-435 | a first and last name joined by a space are all white space exactly when both are |
| Display.TextEditorName | node_modules/.pnpm/node_modules/backend/handlers/handlers.js:434 | the logged name is empty, the case the handler warns about, exactly when each name claim is absent or all white space; otherwise it has no white space at either end |
| Display.FormattedHoursMinutes | node_modules/.pnpm/node_modules/backend/handlers/handlers.js:661-662 | `HH:MM` is stored as `HH:MM:00` |
| Display.FormattedDropsSeconds | node_modules/.pnpm/node_modules/backend/handlers/handlers.js:661-662 | any seconds sent are dropped and replaced by `:00` |
| Display.FormattedWithoutColon | node_modules/.pnpm/node_modules/backend/handlers/handlers.js:661-662 | a value without `:` is stored with an `undefined` minutes field |
| Display.ShownDay | node_modules/.pnpm/node_modules/backend/handlers/handlers.js:634-637 | the shown day is the UTC day of the stored instant plus seven hours |
| Display.ShownDayIsStoredDay | node_modules/.pnpm/node_modules/backend/handlers/handlers.js:621-653 | the stored date is shown unchanged iff the server's UTC offset lies in (-17 h, +7 h] |
| Display.SpeedReply | node_modules/.pnpm/node_modules/backend/handlers/handlers.js:809-823 | always 200: the default "50" on an empty settings table, else the first row's speed in decimal |
| Display.LatestText | node_modules/.pnpm/node_modules/backend/handlers/handlers.js:473-497 | 404 exactly on an empty table, otherwise a row with the latest `updated_at` |
| Display.LatestDateTime | node_modules/.pnpm/node_modules/backend/handlers/handlers.js:621-653 | 404 exactly on an empty table, otherwise the greatest-id row with its date shifted by seven hours |
| Display.LatestTime | node_modules/.pnpm/node_modules/backend/handlers/handlers.js:687-702 | 404 exactly on an empty table, otherwise time and mode of the greatest-id row |
| Display.LatestTemperature | node_modules/.pnpm/node_modules/backend/handlers/handlers.js:792-807 | 404 exactly on an empty table, otherwise value and mode of the greatest-id row |
| Display.LatestReadsLastRow | node_modules/.pnpm/node_modules/backend/handlers/handlers.js:687-807 | on well-formed tables the time and temperature reads return the last inserted row |
| Display.DisplayStore.constructor | node_modules/.pnpm/node_modules/backend/handlers/handlers.js:809-823 | the store starts with empty display tables and the given speed settings |
| Display.DisplayStore.AppendDateTime | node_modules/.pnpm/node_modules/backend/handlers/handlers.js:584-685 | one date/time row is inserted, and the time read then returns it |
| Display.DisplayStore.AppendDisplayTemperature | node_modules/.pnpm/node_modules/backend/handlers/handlers.js:704-790 | one display row is inserted, and the temperature read then returns it |
| Display.DisplayStore.AppendReading | node_modules/.pnpm/node_modules/backend/handlers/handlers.js:704-790 | one log row is inserted; a sensor row is tagged `auto` |
| Display.DisplayStore.HandleEditText | node_modules/.pnpm/node_modules/backend/handlers/handlers.js:431-456 | one running-text row and one usage row; when the stored `NOW()` value is later than every earlier row's `updated_at`, the new text is the latest |
| Display.DisplayStore.HandleDateTime | node_modules/.pnpm/node_modules/backend/handlers/handlers.js:584-619 | stores the chosen date (or today's) at midnight, logs one usage row, and the time read then shows midnight |
| Display.DisplayStore.HandleEditTime | node_modules/.pnpm/node_modules/backend/handlers/handlers.js:655-685 | stores today's date with `hours:minutes:00` and one usage row, or, when the time is missing, stores nothing and answers 500 "Gagal menyimpan jam." |
| Display.DisplayStore.GetSpeed | node_modules/.pnpm/node_modules/backend/handlers/handlers.js:809-823 | the speed setting as the reply of `SpeedReply`: the stored speed, or "50" when no setting is stored |
| Display.DisplayStore.AppendText | node_modules/.pnpm/node_modules/backend/handlers/handlers.js:440-443 | appends one running-text row under the next id and changes no other table |
| Display.DisplayStore.Log | node_modules/.pnpm/node_modules/backend/handlers/handlers.js:445-449 | appends one usage row under the next id and changes no other table |
| Display.DisplayStore.ReceiveSensorTemperature | node_modules/.pnpm/node_modules/backend/handlers/handlers.js:704-726 | one log row and one display row tagged `auto`, no usage row, and the display read returns the value |
| Display.DisplayStore.HandleTemperature | node_modules/.pnpm/node_modules/backend/handlers/handlers.js:755-790 | the value and mode go to the display table, the log and the usage log, and the display read returns them |
| Display.DisplayStore.SaveManualTemperature | node_modules/.pnpm/node_modules/backend/handlers/handlers.js:728-753 | only the log and the usage log grow; the display table is untouched |
| Display.DisplayStore.GetFeatureUsage | node_modules/.pnpm/node_modules/backend/handlers/handlers.js:458-471 | every usage row, newest `used_at` first, as a permutation of the table |
| Display.DisplayStore.DeleteFeatureUsageById | node_modules/.pnpm/node_modules/backend/handlers/handlers.js:499-533 | 400 without an id, 404 when no row has it, otherwise exactly that row goes |
| Display.DisplayStore.DeleteAllFeatureUsage | node_modules/.pnpm/node_modules/backend/handlers/handlers.js:535-550 | the usage log is emptied and nothing else changes |
| TokenValidation.PayloadSegment | node_modules/.pnpm/node_modules/frondend/src/service/tokenValidation.js:7 | the second `.`-separated segment, absent exactly when the token has no `.` |
| TokenValidation.ValidateToken | node_modules/.pnpm/node_modules/frondend/src/service/tokenValidation.js:2-20 | no token or an unreadable payload is invalid; otherwise valid unless a non-zero `exp` lies in the past |
| TokenValidation.ReadPayload | node_modules/.pnpm/node_modules/frondend/src/service/tokenValidation.js:7 | the payload of the token's second `.`-separated segment, or a throw when there is none |
| TokenValidation.PastExpiry | node_modules/.pnpm/node_modules/frondend/src/service/tokenValidation.js:8-11 | a present, non-zero `exp` in seconds that lies before the clock in milliseconds |
| TokenValidation.IsTokenExpired | node_modules/.pnpm/node_modules/frondend/src/service/tokenValidation.js:22-34 | no token or an unreadable payload counts as expired; otherwise expired iff a non-zero `exp` lies in the past |
| TokenValidation.ValidIffNotExpired | node_modules/.pnpm/node_modules/frondend/src/service/tokenValidation.js:2-34 | the two checks always agree |
| TokenValidation.NoExpNeverExpires | node_modules/.pnpm/node_modules/frondend/src/service/tokenValidation.js:9-11 | a payload without `exp`, or with `exp` 0, never expires |
| TokenValidation.SecondSegmentRead | node_modules/.pnpm/node_modules/frondend/src/service/tokenValidation.js:7 | of `header.payload.signature` only the payload is read |
| TokenValidation.SignatureIgnored | node_modules/.pnpm/node_modules/frondend/src/service/tokenValidation.js:2-34 | tokens differing only in header or signature get the same verdicts |
| TokenValidation.IssuedTokenWindow | node_modules/.pnpm/node_modules/frondend/src/service/tokenValidation.js:2-20 | a backend-issued token whose payload segment atob can read is valid for up to two hours after issue and invalid afterwards |
| TokenValidation.HandleAuthError | node_modules/.pnpm/node_modules/frondend/src/service/tokenValidation.js:36-42 | the stored token is removed, other storage is kept, an alert is added when asked, and the page goes to `/` |
| TokenValidation.NoTokenAfterAuthError | node_modules/.pnpm/node_modules/frondend/src/service/tokenValidation.js:36-42 | after the auth error handler, every later token check fails |
| RegisterForm.Set | frontend/src/pages/auth/Register.jsx:70-73 | the field takes the value and the others keep theirs |
| RegisterForm.WithError | frontend/src/pages/auth/Register.jsx:75-80 | the field's error takes the text and the others keep theirs |
| RegisterForm.NoErrorsIffNoKey | frontend/src/pages/auth/Register.jsx:63-64 | "no key in `errors`" means no field has an error |
| RegisterForm.NewErrors | frontend/src/pages/auth/Register.jsx:23-62 | the checks, run one after another, give every field its own rule's message, and none iff the form is valid |
| RegisterForm.Agreement | frontend/src/pages/auth/Register.jsx:23-64 | errors built from the per-field rules agree with them everywhere and are empty iff the form is valid |
| RegisterForm.IdentityErrors | frontend/src/pages/auth/Register.jsx:45-49 | a dosen with an empty NIDN, or a mahasiswa with an empty NIM, gets that error only; staff get neither |
| RegisterForm.BuildPayload | frontend/src/pages/auth/Register.jsx:110-122 | the body has trimmed names, a trimmed lower-case e-mail, the status and password, and only the identity number the status needs |
| RegisterForm.EmailPatternLower | frontend/src/pages/auth/Register.jsx:34-39 | lower-casing keeps an e-mail inside the pattern |
| RegisterForm.ValidFormPassesServerChecks | frontend/src/pages/auth/Register.jsx:99-136 | a body built from a valid form with a selected status passes every 400 check of the server |
| RegisterForm.ServerStoresWhatClientSent | frontend/src/pages/auth/Register.jsx:110-136 | the account the server would create holds exactly the body's values |
| RegisterForm.RegisterPage.constructor | frontend/src/pages/auth/Register.jsx:7-21 | the page starts with an empty form, no errors, no banner and not loading |
| RegisterForm.RegisterPage.ValidateForm | frontend/src/pages/auth/Register.jsx:23-65 | the shown errors become the current rule errors, and the answer is whether the form is valid |
| RegisterForm.RegisterPage.HandleChange | frontend/src/pages/auth/Register.jsx:67-97 | the field takes the value, a status change clears NIDN and NIM, that field's shown error and the banner clear |
| RegisterForm.RegisterPage.HandleSubmit | frontend/src/pages/auth/Register.jsx:99-154 | posts `BuildPayload` iff the form is valid; success resets the form with a success banner, failure keeps it with the error banner |
| ProfileModal.NameError | node_modules/.pnpm/node_modules/frondend/src/components/modals/ProfileModalComponent.jsx:81-92 | no error iff the trimmed name has 2 to 50 characters; too short and too long each get their message |
| ProfileModal.PhotoRejection | node_modules/.pnpm/node_modules/frondend/src/components/modals/ProfileModalComponent.jsx:46-63 | a photo is accepted iff its type is allowed and it is at most 5 MiB, with the type checked first |
| ProfileModal.SameTypesAsServer | node_modules/.pnpm/node_modules/frondend/src/components/modals/ProfileModalComponent.jsx:51-52 | the client accepts exactly the MIME types the server's upload check accepts |
| ProfileModal.Updated | node_modules/.pnpm/node_modules/frondend/src/components/modals/ProfileModalComponent.jsx:153-166 | the updated user has the server's name split, the same id, e-mail and role, and the returned picture when there is one |
| ProfileModal.KeptPictureLosesUrl | node_modules/.pnpm/node_modules/frondend/src/components/modals/ProfileModalComponent.jsx:153-166 | without a returned picture the user keeps the old one yet loses its URL |
| ProfileModal.SameSplitAsServer | node_modules/.pnpm/node_modules/frondend/src/components/modals/ProfileModalComponent.jsx:153-155 | the client splits the name it sent exactly as the server splits what it received |
| ProfileModal.FirstNameNotEmpty | node_modules/.pnpm/node_modules/frondend/src/components/modals/ProfileModalComponent.jsx:95-98 | a name passing the length check never yields an empty first name |
| ProfileModal.ProfileModalState.constructor | node_modules/.pnpm/node_modules/frondend/src/components/modals/ProfileModalComponent.jsx:17-24 | the modal starts with an empty name, no photo or preview, no errors and not saving |
| ProfileModal.ProfileModalState.Open | node_modules/.pnpm/node_modules/frondend/src/components/modals/ProfileModalComponent.jsx:26-36 | opening shows the user's trimmed full name and clears the photo, preview and errors |
| ProfileModal.ProfileModalState.HandleNameChange | node_modules/.pnpm/node_modules/frondend/src/components/modals/ProfileModalComponent.jsx:81-92 | the input takes the value and its error follows the length rule |
| ProfileModal.ProfileModalState.HandlePhotoChange | node_modules/.pnpm/node_modules/frondend/src/components/modals/ProfileModalComponent.jsx:46-79 | a refused file shows its error and clears only the file input, keeping the earlier photo and preview; an accepted one becomes the photo with a preview |
| ProfileModal.ProfileModalState.Fail | node_modules/.pnpm/node_modules/frondend/src/components/modals/ProfileModalComponent.jsx:185-189 | both errors clear and the failure is alerted |
| ProfileModal.ProfileModalState.HandleSave | node_modules/.pnpm/node_modules/frondend/src/components/modals/ProfileModalComponent.jsx:94-193 | nothing is sent for a bad name or without a token; otherwise the trimmed name and photo are sent, and a 2xx answer updates the user and clears the photo and preview, while an error is alerted; every path but a 2xx answer keeps the photo and its preview |
| ProfileModal.ProfileModalState.Succeed | node_modules/.pnpm/node_modules/frondend/src/components/modals/ProfileModalComponent.jsx:153-183 | the context gets the updated user, the photo state clears, success is alerted and the modal closes |
| ProfileModal.ProfileModalState.HandleCancel | node_modules/.pnpm/node_modules/frondend/src/components/modals/ProfileModalComponent.jsx:195-208 | name, photo, preview and errors reset and the modal closes |
| LoginHistoryContext.Transport | node_modules/.pnpm/node_modules/frondend/src/LoginHistoryContext.jsx:15-20 | a request refused before its handler rejects, otherwise it ends as the handler answered |
| LoginHistoryContext.AfterFetch | node_modules/.pnpm/node_modules/frondend/src/LoginHistoryContext.jsx:10-27 | the list after a fetch: the server's data on a successful answer with a token, else the list unchanged |
| LoginHistoryContext.AfterDeleteById | node_modules/.pnpm/node_modules/frondend/src/LoginHistoryContext.jsx:29-44 | the list after a delete by id: that id filtered out on an answered request with a token, else unchanged |
| LoginHistoryContext.AfterDeleteAll | node_modules/.pnpm/node_modules/frondend/src/LoginHistoryContext.jsx:46-61 | the list after a delete-all: empty on an answered request with a token, else unchanged |
| LoginHistoryContext.NoTokenNoChange | node_modules/.pnpm/node_modules/frondend/src/LoginHistoryContext.jsx:10-61 | without a stored token no operation changes the list |
| LoginHistoryContext.FetchReplacesOrKeeps | node_modules/.pnpm/node_modules/frondend/src/LoginHistoryContext.jsx:10-27 | a fetch replaces the list with a successful answer's data and otherwise keeps it |
| LoginHistoryContext.DeleteByIdDropsOnlyThatId | node_modules/.pnpm/node_modules/frondend/src/LoginHistoryContext.jsx:29-44 | a successful delete drops exactly the entries with that id and keeps the order of the rest |
| LoginHistoryContext.DeleteAllNeverClears | node_modules/.pnpm/node_modules/frondend/src/LoginHistoryContext.jsx:46-61 | the delete-all request is rejected by the server's routing, so the list is never cleared |
| LoginHistoryContext.DeleteMatchesRefetch | node_modules/.pnpm/node_modules/frondend/src/LoginHistoryContext.jsx:29-44 | deleting locally from the fetched list leaves it newest first and with the entries a refetch after the server's delete would bring |
| LoginHistoryContext.JoinRemoveId | node_modules/.pnpm/node_modules/backend/handlers/handlers.js:358-374 | deleting a login row before the join drops the same entries as deleting after it |
| LoginHistoryContext.RemoveIdSorted | node_modules/.pnpm/node_modules/frondend/src/LoginHistoryContext.jsx:37 | a local delete keeps a newest-first list newest first |
| LoginHistoryContext.LoginHistoryProvider.constructor | node_modules/.pnpm/node_modules/frondend/src/LoginHistoryContext.jsx:6 | the shared list starts empty |
| LoginHistoryContext.LoginHistoryProvider.FetchLoginHistory | node_modules/.pnpm/node_modules/frondend/src/LoginHistoryContext.jsx:10-27 | a request is sent iff a token is stored, to `GET /api/auth/login-history` with that bearer token, and the list becomes `AfterFetch` of the answer |
| LoginHistoryContext.LoginHistoryProvider.DeleteHistoryById | node_modules/.pnpm/node_modules/frondend/src/LoginHistoryContext.jsx:29-44 | a request is sent iff a token is stored, to `DELETE /api/auth/login-history/{id}`, and the list becomes `AfterDeleteById` of the answer |
| LoginHistoryContext.LoginHistoryProvider.DeleteAllHistory | node_modules/.pnpm/node_modules/frondend/src/LoginHistoryContext.jsx:46-61 | a request is sent iff a token is stored, to `DELETE /api/auth/login-history`, and the list becomes `AfterDeleteAll` of the answer |
| TemperatureModal.LeadingDigits | node_modules/.pnpm/node_modules/frondend/src/components/modals/TemperatureModal.jsx:110 | the length of the longest all-digit prefix |
| TemperatureModal.TempPatternIff | node_modules/.pnpm/node_modules/frondend/src/components/modals/TemperatureModal.jsx:108-115 | the input filter accepts exactly the strings of digits with at most one dot |
| TemperatureModal.TempPattern | node_modules/.pnpm/node_modules/frondend/src/components/modals/TemperatureModal.jsx:112 | the input filter `^[0-9]*\.?[0-9]*$`: leading digits, then optionally a dot followed only by digits |
| TemperatureModal.ParseTyped | node_modules/.pnpm/node_modules/frondend/src/components/modals/TemperatureModal.jsx:72 | what `parseFloat` gives on a filtered string: whole digits plus fraction digits scaled down, NaN with no digit |
| TemperatureModal.TypedNaNIff | node_modules/.pnpm/node_modules/frondend/src/components/modals/TemperatureModal.jsx:72-76 | of the strings the filter accepts, only "" and "." are not numbers, and every number is non-negative |
| TemperatureModal.AboveHintAccepted | node_modules/.pnpm/node_modules/frondend/src/components/modals/TemperatureModal.jsx:108-115 | "51", outside the 0 to 50 hint, passes the filter and parses to 51 |
| TemperatureModal.Authorization | node_modules/.pnpm/node_modules/frondend/src/components/modals/TemperatureModal.jsx:89 | the header is `Bearer ` and the token, or `Bearer null` when none is stored |
| TemperatureModal.PollAnswerOf | node_modules/.pnpm/node_modules/frondend/src/components/modals/TemperatureModal.jsx:22-24 | a 404 from the server rejects the poll, a found row resolves it with status `success` |
| TemperatureModal.TypedSubmitIff | node_modules/.pnpm/node_modules/frondend/src/components/modals/TemperatureModal.jsx:64-81 | for a filtered value, a submit sends iff the mode is manual and the field is neither "" nor "." |
| TemperatureModal.ManualSaveStopsPollUpdates | node_modules/.pnpm/node_modules/frondend/src/components/modals/TemperatureModal.jsx:17-40 | after a manual value is stored, a poll no longer updates the field; after a sensor row, an auto-mode poll does |
| TemperatureModal.TemperatureModalState.constructor | node_modules/.pnpm/node_modules/frondend/src/components/modals/TemperatureModal.jsx:7-11 | the modal starts in auto mode with an empty field and no reading |
| TemperatureModal.TemperatureModalState.Open | node_modules/.pnpm/node_modules/frondend/src/components/modals/TemperatureModal.jsx:56-61 | showing the modal returns it to auto mode with an empty field |
| TemperatureModal.TemperatureModalState.HandleModeChange | node_modules/.pnpm/node_modules/frondend/src/components/modals/TemperatureModal.jsx:131-136 | the mode follows the toggle; switching to auto shows the last reading with one decimal, if any |
| TemperatureModal.TemperatureModalState.HandleTempChange | node_modules/.pnpm/node_modules/frondend/src/components/modals/TemperatureModal.jsx:108-115 | the field takes a value only when the filter accepts it, so it always matches the filter's pattern |
| TemperatureModal.TemperatureModalState.Poll | node_modules/.pnpm/node_modules/frondend/src/components/modals/TemperatureModal.jsx:17-40 | only in auto mode, a successful answer with an `auto` row sets the reading and the field, a failure toasts an error |
| TemperatureModal.TemperatureModalState.HandleSubmit | node_modules/.pnpm/node_modules/frondend/src/components/modals/TemperatureModal.jsx:64-105 | a request is sent iff the mode is manual and the value parses to a number, carrying that number, mode `manual` and the bearer header; auto mode toasts a warning and a value that parses to NaN toasts an error |
| TemperatureModal.TemperatureModalState.Settle | node_modules/.pnpm/node_modules/frondend/src/components/modals/TemperatureModal.jsx:95-104 | a `success` answer toasts the value and closes the modal; a rejection toasts the server's message or the default |

## Left out

- `Tables.MaxBy`: among rows sharing the greatest key, `ORDER BY ... DESC LIMIT 1` may return any; the function fixes the latest-inserted one. Nothing else relies on that choice, and `Display.DisplayStore.HandleEditText` promises the new text only when its stored time is strictly later than every earlier row's (`NOW()` stores whole seconds, so two edits in one second tie).
- `TokenValidation.IssuedTokenWindow`: assumes `decode` reads the payload segment of a backend-issued token. That segment is base64url; `atob` expects base64 and throws on a `-` or `_` in it, in which case the client sees an invalid token early.
- Payload field types: the handlers' payload fields are taken as absent or present strings. A missing password in `login` or `resetPassword` makes `bcrypt` throw (answered 500), a non-string `name` makes `.trim()` throw (answered 500), and a numeric `otp` never equals the stored string code; none of these is modelled.
- `Accounts.ExtName`: assumes the file name has no `/`. `path.extname` only looks at the part after the last `/`.
- `Accounts.AccountStore.StoreProfile`: the reply's user is the whole stored row. The handler's `SELECT` (handlers.js:253) returns only the id, names, e-mail, role and picture.
- `getProfile`, `saveTextTemplate` and `getTemplatesHandler`: these handlers only appear as route-table entries. Their bodies are not part of this model.
- The bcrypt salt and cost are not modelled. `Hash` is taken to determine its password (injective).
- JWT signing and signature verification are out. The strategy's verification result is the `verified` parameter.
- Sending mail, writing uploaded files with `fs`, and multipart parsing are out. The upload is the `Upload` value formidable would produce.
- SQL collation is not modelled: `WHERE email = ?` is taken as exact string equality. Database failures, and the 500 answers that come from them, are left out, except where the handler's own code produces the 500.
- Unicode is not modelled. `toLowerCase` is ASCII-only, and lengths count characters rather than UTF-16 code units.
- Floating point is not modelled. Temperatures stay the strings the server received. The client's `parseFloat` and `toFixed` are parameters, pinned only on the strings the input filter accepts.
- Concurrency is left out: interleaved requests, the `setInterval` timer and React's render scheduling. A poll or a save is one method call with its answer as a parameter.
- `LoginHistoryContext.LoginHistoryProvider.FetchLoginHistory`: the `loginTime` the server sends is an ISO string; the model abstracts it as the millisecond integer it encodes.
- `Routes.Lookup`: the request path is taken as already split into segments. hapi's URL normalisation and the conversion of `{id}` to a number are not modelled.
- `Tables.SortDesc`: among entries with equal keys the model fixes one order, while MySQL leaves it unspecified.
- `TokenValidation.IsTokenExpired`: for an absent or zero `exp` the function returns that falsy value itself, not `false`. The model keeps only its truth value.
- `RegisterForm.RegisterPage.HandleSubmit`: the banner text of a failed request (frontend/src/pages/auth/Register.jsx:156-249) is derived from the error response's status and body. The model takes that text as a parameter.
- `ProfileModal.ProfileModalState.HandleSave`: the case of a modal opened with no user in the context is not modelled.
- `ProfileModal.ProfileModalState`: object URLs and their revocation are not modelled. A preview is only a value.
- `ProfileModal.ProfileModalState`: the `onProfileUpdate` callback and the unused `_isEditing` state are not modelled.
- `TemperatureModal.TemperatureModalState`: the transient `isLoading` and `isAutoRefreshing` values seen during a request are not modelled. Only their values after the request settles are stated.
- Logging to the console and all UI rendering are out.
