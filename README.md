# simple-user-dashboard-app: the account store and its credential rules

This project models the account core of a small Express/Sequelize backend.
It covers four things:

- The request handlers of `controllers/users.js`: sign up, verify the mailed token, resend the verification mail, change the password, change the username, show the account and gate authenticated routes.
- The `User` record of `models/users.js` they act on.
- The three credential validators of `services/users.js`.
- The legacy `local-signup` strategy of `services/passport.js`, over the older record of `models/user.js`.

## Layout

- `common.dfy` (module `Common`): `Option`, and the `Faults` record. It names which of a handler's external calls fail: the lookup, the write, or the mail.
- `text.dfy` (module `Text`): `Split`, `Join` and `LastIndexOf` on strings, and lemmas relating them.
- `validators.dfy` (module `Validators`): `validateEmail`, `validatePassword` and `validateUsername`.
  - Each regular expression appears twice. A ghost predicate reads the pattern literally: an existential per concatenation, a recursion per repetition, a quantified prefix per lookahead. An executable check is built from `Split` and `LastIndexOf`.
  - Lemmas prove the two readings agree on every string.
- `accounts.dfy` (module `Accounts`): the `User` record and the class `UserTable`.
  - The class holds `users: map<string, User>`, keyed by the primary key `providerId`, and one method per handler.
  - `getUserInfo` and `ensureAuthenticated` are functions.
- `legacy_signup.dfy` (module `LegacySignup`): the older record, and a class `LegacyUserTable` whose rows are a sequence, with the `local-signup` callback as a method.
- `scenarios.dfy` (module `Scenarios`): request sequences against a fresh table. Each holds for every sign-up that passes validation.

The model's conventions for the source's external calls:

- The random token (`crypto.randomBytes(20).toString('hex')`) is a parameter, and so is the current time.
- Whether the database or the mail service fails is a parameter.
- `User.hashPassword` and `User.comparePassword` are uninterpreted functions, fixed when the table is built.

A handler returns the first response it sends:

- `Fail(reason)` stands for a 400.
- `Error(DatabaseError | EmailServiceError)` stands for a 503.
- `LoggedIn(user)` stands for the dashboard redirect after `req.login`.
- `Fail(UnknownToken)` stands for the `/verifyError` redirect.

## Table properties

These are the properties of the table:

- **`KeysMatch`**: every row sits under its own `providerId`. It is the class invariant `Valid()`, and every handler keeps it.
- **`TokensUnique`**: no two rows share a verification token. Every handler keeps it whenever the new token it is handed is unused. This is the stated model of `crypto.randomBytes`.
- **`VerifiedHaveNoToken`**: a verified row has no token. Every handler keeps it except `resendVerificationMail` as written. See "## Findings".

## Model

| member | source | states |
|---|---|---|
| Validators.ValidatePassword | services/users.js:20-29 | accepts exactly what the lookahead pattern accepts: 8 or more characters, no line terminator, and at least one ASCII digit, one `a-z`, one `A-Z` and one ASCII punctuation character |
| Validators.PunctuationRanges | services/users.js:26 | the range test used for the symbol class holds exactly for the 32 characters of the bracket expression |
| Validators.PasswordConditionsNecessary | services/users.js:22-26 | a string shorter than 8, holding a line terminator, or missing any one of the four classes is rejected |
| Validators.PasswordAcceptsExample | routes/users.js:27 | `Aa123123!` is a valid password |
| Validators.PasswordRejectsNoUpper | services/users.js:24 | `abcdefg1!` (no upper-case letter) is rejected |
| Validators.PasswordRejectsNoDigit | services/users.js:22 | `Abcdefgh!` (no digit) is rejected |
| Validators.ValidateUsername | services/users.js:36-38 | the `validateUsername` check itself: a value is valid when it is a string. It has no ensures of its own; its contract is `Validators.UsernameIsAnyString` |
| Validators.UsernameIsAnyString | services/users.js:36-38 | a username is valid exactly when it is a string, the empty string included |
| Validators.ValidateEmail | services/users.js:6-13 | the `validateEmail` check itself: split at the last `@`, then test the local part and the domain. It has no ensures of its own; its contract is `Validators.ValidateEmailMatchesRegex` |
| Validators.ValidateEmailMatchesRegex | services/users.js:7-12 | the executable check accepts exactly the strings the anchored email pattern matches |
| Validators.LocalPartMatchesRegex | services/users.js:8-9 | the local part matches exactly when it is non-empty atoms separated by single dots (no `<>()[]\.,;:@"`, no whitespace), or a double quote, one or more non-line-terminators, and a double quote |
| Validators.AddressLiteralMatchesRegex | services/users.js:9 | the bracketed domain matches exactly when it is `[`, four dot-separated runs of 1 to 3 ASCII digits, and `]`, with no range check |
| Validators.DottedDomainMatchesRegex | services/users.js:10 | the dotted domain matches exactly when it has at least one `label.` prefix of `[A-Za-z0-9-]+` and a last label of 2 or more ASCII letters |
| Validators.DomainHasNoAt | services/users.js:9-10 | no domain the pattern accepts contains `@`, so the match splits at the last `@` |
| Validators.EmailOfParts | services/users.js:8-10 | for a domain without `@`, `local@domain` is valid exactly when both sides are |
| Validators.EmailNeedsAt | services/users.js:7-12 | a string without `@`, the empty string included, is rejected |
| Validators.EmailAcceptsExample | routes/users.js:18 | `test@test.com` is accepted |
| Validators.EmailAcceptsAddressLiteral | services/users.js:9 | `a@[999.999.999.999]` is accepted |
| Validators.EmailAcceptsQuotedLocalPart | services/users.js:9 | `"b c@d"@x.io` is accepted |
| Validators.EmailRejectsShortTopLabel | services/users.js:10 | `a@b.c` is rejected |
| Validators.EmailRejectsBareDomain | services/users.js:10 | `a@com` is rejected |
| Validators.EmailRejectsEmptyAtom | services/users.js:8 | `a..b@x.io` is rejected |
| Validators.EmailRejectsThreeNumbers | services/users.js:9 | `a@[1.2.3]` is rejected |
| Accounts.UserTable.constructor | models/users.js:43-46 | a table is built only from rows stored under their own primary key |
| Accounts.UserTable.SignUpInputCheck | controllers/users.js:16-44 | the address is checked first, then the password, then the username; the first failing check names the refusal |
| Accounts.UserTable.SignUp | controllers/users.js:11-109 | an invalid field is refused with nothing looked up. A failed lookup or insert changes nothing. A taken address gives `EmailAddressTaken` and no change. Otherwise exactly one row is added under the address (`local`, the hashed password, unverified, holding the token, zero logins) and the token is mailed. A mail failure keeps the row. Other rows never change, and both token properties are kept |
| Accounts.InsertUnverified | controllers/users.js:70-83 | a new unverified row under an unused key with an unused token keeps every table property |
| Accounts.UserTable.VerifyUser | controllers/users.js:247-291 | a token no row holds changes nothing and fails. Otherwise the one row holding it becomes verified with no token, nothing else changes, and the session gets the row as read. The token then matches no row |
| Accounts.ConsumeToken | controllers/users.js:268-274 | clearing the token of the row that holds it leaves the token unused and keeps both token properties |
| Accounts.UserTable.ResendVerificationMail | controllers/users.js:298-379 | an invalid address is refused unlooked-up, and an unknown address gets `NotExisted`, both with no change. A known address gets the new token and a mail, even when verified, in which case the response is `AlreadyVerified` |
| Accounts.UserTable.ResendVerificationMailCorrected | controllers/users.js:336-344 | as above, but a verified account is refused and left alone; the old token stops working and both token properties are kept |
| Accounts.Reissue | controllers/users.js:346-353 | giving a row an unused token keeps tokens unique, and the token it held before then matches no row |
| Accounts.UserTable.UpdateUserInfo | controllers/users.js:153-187 | a non-string name is refused. Otherwise only the `username` of the session's row changes; a session without a row changes nothing and still succeeds |
| Accounts.UserTable.UpdateUserPassword | controllers/users.js:194-240 | the new password is checked before the old one is compared. On success only the `password` of the session's row changes, to the hash of the new password |
| Accounts.OrNotAvailable | controllers/users.js:142-143 | a column shows as `N/A` exactly when it is null, empty or `N/A` itself, and otherwise shows its value |
| Accounts.GetUserInfo | controllers/users.js:136-146 | the name and address of the session's account, each `N/A` when null or empty |
| Accounts.EnsureAuthenticated | controllers/users.js:118-129 | a request passes, with its account, exactly when it has a session; otherwise it is refused |
| LegacySignup.LegacyUserTable.LocalSignup | services/passport.js:10-35 | a taken address is refused with `EmailAddressTaken` and no change. Otherwise one row is appended, with the password unhashed, the address as username and zero logins. A store failure never signs up. Existing rows never change, and unique addresses stay unique |
| LegacySignup.AppendNewEmail | services/passport.js:21-28 | appending a row with a new address keeps addresses unique |
| Scenarios.ExampleInputsAcceptable | routes/users.js:18-28 | the documented address, password and username pass all three checks |
| Scenarios.SignUpVerifyReplay | controllers/users.js:253-274 | sign up, verify, verify again: the second use of the token fails |
| Scenarios.SignUpTwice | controllers/users.js:47-68 | a second sign-up with the same address is refused and one account remains |
| Scenarios.ResendAfterVerify | controllers/users.js:336-361 | after verification, a resend answers `AlreadyVerified` yet stores and mails a new token on the verified account |
| Scenarios.ResendAfterVerifyCorrected | controllers/users.js:336-344 | with the `return` restored, the same resend only refuses, and no verified account holds a token |
| Scenarios.MailOutageThenResend | controllers/users.js:93-103 | a mail failure keeps the unverified account; after a resend only the new token verifies it |
| Scenarios.ChangePassword | controllers/users.js:209-226 | a wrong old password is refused; the right one changes only the digest |
| Scenarios.EmptyUsername | controllers/users.js:157-173 | an empty username is accepted and then shown as `N/A` |
| Scenarios.LegacySignupTwice | services/passport.js:14-28 | the legacy strategy stores the password as given and refuses the same address twice |

## Left out

- Password hashing: bcrypt's salting and work factor are not modelled. `hash` and `compare` are arbitrary functions, and no law relating them is assumed.
- Random tokens and the clock: these are parameters. Unique tokens are assumed only where a contract says so.
- Mail transport: the handlers call `userService.sendMail`, which `services/users.js` does not define, so each call at `controllers/users.js:95` and `:365` throws and the handler answers `EmailServiceError`. In the model the call is only a step that may fail: the `mail` fault.
- HTTP: status codes, JSON bodies, redirects and the session written by `req.login` are not modelled; a `Response` value stands in for them. `ensureAuthenticated` takes the session's account as an `Option`.
- Repeated responses: after the unreturned refusal in `resendVerificationMail`, the handler tries to send a second response, which throws as an unhandled rejection. The model keeps the first response and the state changes the handler makes before that point.
- Non-string request fields: a non-string address or password is coerced by `RegExp.test`. A non-string or missing `oldPassword` or session password makes `bcrypt` throw, and a missing token makes Sequelize reject the `undefined` lookup. A repeated `token` query parameter arrives as an array, and `findOne` at `controllers/users.js:253` then looks it up as an `IN` query, so one request tests several tokens and verifies whichever row holds one of them; the model takes the token as one string. It takes the other fields as strings as well. Only the username, the one field whose type the code checks, is a `JsValue`.
- Column length: `DataTypes.STRING` columns (`models/users.js:44-54`) are `VARCHAR(255)`, so a longer address or username passes the validators but its `create` or `update` fails with `DatabaseError`. The model has no length limit; that outcome is reachable only through the `write` fault.
- Characters: JavaScript strings are UTF-16 code units. The model works on Dafny characters (Unicode scalar values), so a surrogate pair counts as one character here and two there.
- Concurrency: the race between two sign-ups that both see a free address is not modelled; the handlers run one at a time. In the code the losing insert raises a uniqueness error, answered as `DatabaseError`, not `EmailAddressTaken`.
- `findOne` order: when tokens are not unique, `VerifyUser` picks any row holding the token, as an unordered query may.
- The legacy strategy's schema: `services/passport.js` imports the current model from `models/index.js`, whose primary key `local-signup` never sets. The strategy is modelled against the older `models/user.js` record it was written for, and its rows have no key.
- Work no shown code does: counting logins, updating `sessionTimestamp`, the federated strategies, the `local` login strategy, and session serialisation. `loginTimes` is only ever set to 0.
- Statistics and listing (`models/statistics.js`, `listUsers`, `getUsersStatistics`), database wiring, route declarations, API documentation and front-end scripts are plumbing or have no implementation shown.

## Findings

| source | as written | input that shows it | evidently intended | confidence | as-written member | corrected member |
|---|---|---|---|---|---|---|
| controllers/users.js:337-344 | the already-verified branch sends a 400 but does not `return`, so the handler goes on. It stores a new `verifiedToken` on the verified account and mails it | sign up, verify with the mailed token, then resend to the same address | refuse and stop, leaving the verified account without a token | high, not executed | Scenarios.ResendAfterVerify | Accounts.UserTable.ResendVerificationMailCorrected |
