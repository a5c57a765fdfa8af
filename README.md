# User-management backend: validators and handler decisions

This project models the decision logic of the Express backend in
`backend/server.js` of a small user-management application. That logic covers:

- the field validators: `validEmail`, `validPassword`, the ten-digit contact
  check and the 50-unit name limit;
- the `POST /login` handler: required credentials, then a lookup of a live
  user row by e-mail and password, then 400/401/403/500/200;
- the `POST /users` handler: an ordered chain of checks, then the `add_user`
  stored procedure, whose success or failure picks one of two fixed replies;
- the `PUT /users/:id` handler: the name and contact checks, then
  `update_user_details`, after which it replies "User Updated" only if the
  call returned.

Every handler is a total function from its inputs to an outcome datatype. The
database enters only as data: a table of rows for the login query, a
function giving the store's answer to `add_user` or `update_user_details`. Status codes and reply texts
are the constants of the source.

Modules, one per file:

- `JsText` (jstext.dfy): a JavaScript string is a sequence of UTF-16 code
  units (`CodeUnit`). `length`, `.` and `{8,12}` count code units, so the model
  counts them the same way. `Utf16` encodes Dafny text, and lemmas give its
  length.
- `Regex` (regex.dfy): the regular-expression fragment the validators use.
  It covers `^` and `$` without the `m` flag, bracket classes, `\d`, `.`
  without the `s` flag (no line terminators), `+`, `*`, `{m,n}` and `(?=…)`.
  Its relational match semantics gives `Test`, which is `RegExp.prototype.test`.
- `Validation` (validation.dfy): each validator as an explicit predicate. Each
  source regex is also transcribed term by term as a `Pattern`, and a lemma
  proves the predicate equals `Test` of that pattern.
- `Login` (login.dfy): rows, the WHERE-clause filter `Query`, and the handler `HandleLogin`.
- `Users` (users.dfy): the create and update handlers, specified by the
  first failing check of an ordered list (`FirstFailure`).
- `Options` (options.dfy): `Option`.

Points where the code is stricter or broader than it may look:

- Lengths are UTF-16 code units, not characters. A name of 26 characters
  above U+FFFF is 52 code units, so it is "too long" (backend/server.js:81).
- The login handler answers 500 "Server error" when the query throws
  (backend/server.js:50-53), as well as 400, 401, 403 and 200.
- The e-mail check is the whole anchored regex, not just a test that the
  address ends in `@gmail.com` (backend/server.js:10). `ann@gmail.com`
  followed by a line feed is rejected, because `$` without the `m` flag
  matches only at the true end of the input.

## Model

| member | source | states |
|---|---|---|
| `Regex.AnchoredTest` | backend/server.js:10 | a pattern starting with `^` (no `m` flag) is found iff it matches from position 0 |
| `Regex.LiteralThen` | backend/server.js:10 | a literal run such as `@gmail\.com` matches exactly those code units, then the rest of the pattern |
| `Regex.PlusThenLiteralToEnd` | backend/server.js:10 | `^k+w$` accepts exactly a non-empty run of class k followed by w at the end of the input |
| `Regex.RepeatToEnd` | backend/server.js:14 | `atom{min,max}$` matches iff the rest of the input has min..max units, all in the class |
| `Regex.FindAhead` | backend/server.js:14 | `(?=.*X)` succeeds at i iff a unit of class X follows with no line terminator before it |
| `Validation.ValidEmail` | backend/server.js:9-11 | `validEmail`: longer than `@gmail.com`, ending in it, and every unit before it one of `[a-zA-Z0-9._%+-]` (tied to the regex by `ValidEmailIsRegex`) |
| `Validation.ValidPassword` | backend/server.js:13-15 | `validPassword`: 8 to 12 code units, no line terminator, at least one ASCII upper, lower, digit and one of `#@$&` (tied to the regex by `ValidPasswordIsRegex`) |
| `Validation.ValidContact` | backend/server.js:84 | the contact check: exactly ten code units, each an ASCII digit (tied to `/^\d{10}$/` by `ValidContactIsRegex`) |
| `Validation.NameTooLong` | backend/server.js:81 | the name check: first or last name longer than 50 code units (JavaScript `length`) |
| `Validation.ValidEmailIsRegex` | backend/server.js:9-11 | `ValidEmail` holds exactly for the strings `/^[a-zA-Z0-9._%+-]+@gmail\.com$/` matches |
| `Validation.ValidEmailShape` | backend/server.js:9-11 | an e-mail is accepted iff it is L + `@gmail.com` with L non-empty and every unit of L in `[a-zA-Z0-9._%+-]` |
| `Validation.ValidEmailSingleAt` | backend/server.js:10 | an accepted e-mail holds exactly one `@`, the one that starts the `@gmail.com` suffix |
| `Validation.EmailTrailingLineFeedRejected` | backend/server.js:10 | `ann@gmail.com` followed by a line feed does not match: `$` does not stop before a final newline |
| `Validation.ValidPasswordIsRegex` | backend/server.js:13-15 | `ValidPassword` (8 to 12 units, no line terminator, an ASCII upper, lower, digit and one of `#@$&`) holds exactly for the strings the look-ahead regex matches |
| `Validation.PasswordRegexParts` | backend/server.js:14 | the password regex is four look-aheads checked at position 0, then `.{8,12}` up to the end |
| `Validation.PasswordExamples` | backend/server.js:13-15 | `Abcd123#` is accepted, `abc12345` is rejected |
| `Validation.ValidContactIsRegex` | backend/server.js:84 | the contact check holds exactly for the strings `/^\d{10}$/` matches: ten units, each `0`-`9` |
| `Validation.ThreeUnitLocalValid` | backend/server.js:87 | any three lower-case letters followed by `@gmail.com` pass the e-mail check |
| `Validation.SampleEmailValid` | backend/server.js:87 | `ann@gmail.com` passes the e-mail check |
| `Validation.SamplePasswordValid` | backend/server.js:90 | `Abc123#4` passes the password check |
| `Validation.SampleContactValid` | backend/server.js:84 | `1234567890` passes the contact check |
| `Login.Query` | backend/server.js:28-31 | the query returns the selected columns of matching rows only (same e-mail, same password, not deleted), includes every matching row, and its first row comes from the first matching row of the table |
| `Login.HandleLogin` | backend/server.js:20-53 | 400 iff a credential is absent or empty; 500 iff the query throws; 401 iff no live row has both credentials; 403 iff the first such row is inactive; 200 iff it is active, with that row's id, names, e-mail and image and no password |
| `Login.MissingCredentialsIgnoreTable` | backend/server.js:23-25 | without both credentials the response is 400 whatever the database holds or does |
| `Login.QueryIgnoresDeletedRows` | backend/server.js:29 | the query gives the same rows on the table and on the table without its soft-deleted rows |
| `Login.LoginIgnoresDeletedRows` | backend/server.js:28-49 | soft-deleted rows never affect a login's outcome, so a deleted user never logs in |
| `Login.LoggedInRowIsLiveAndActive` | backend/server.js:37-49 | a 200 response comes from a row that is not deleted, is active, has exactly the submitted e-mail and password, and matches the body sent |
| `Users.FirstFailure` | backend/server.js:81-93 | the first check of an ordered list that the form fails; None iff every check passes |
| `Users.CreateUser` | backend/server.js:78-104 | the reply is the rejection of the first failing check, in the order name length, contact, e-mail, password, and add_user is not called; when all pass, add_user is called with the six fields in order and the reply is "User Added" if it returns, "Email already exists" if it throws |
| `Users.CreateUsesOnlyStoreSuccess` | backend/server.js:95-103 | the create reply depends on the store only through whether add_user returned, not on the error, and not at all when a check fails |
| `Users.UpdateUser` | backend/server.js:117-131 | name length, then contact, and update_user_details is not called when one fails; when both pass, update_user_details gets id, names, contact and address, and the reply is "User Updated" iff that call returns; if it throws, the handler sends nothing (no catch) |
| `Users.UpdateUsesOnlyStoreSuccess` | backend/server.js:126-131 | the update result depends on the store only through whether update_user_details returned, and not at all when a check fails |
| `Users.FirstFailureAppend` | backend/server.js:81-93 | checking a + b consults the checks of b only when every check of a passes |
| `Users.CreateAndUpdateShareChecks` | backend/server.js:120-124 | update rejects a form (calls no procedure) exactly when create rejects it for its names or contact, and with the same reply |
| `Users.UpdateIgnoresEmailAndPassword` | backend/server.js:117-128 | two bodies that agree on names, contact and address get the same update call and reply, whatever their e-mail and password |
| `Users.AstralNameTooLong` | backend/server.js:81 | a first name of 26 characters above U+FFFF is 52 code units, so both handlers reply "Name too long" |

## Left out

- The React frontend (`frontend/src/App.js`): view state, fetch calls and layout, with no backend decision logic.
- `GET /users`, `DELETE /users/:id`, `PATCH /users/status/:id` and `PATCH /users/:id/profile-image`. `GET /users` takes no input and sends the rows `get_active_users()` returns (backend/server.js:109-112). The profile-image route passes `profile_image` and the id to an UPDATE, echoes `profile_image`, and answers 500 when the UPDATE throws (backend/server.js:59-73). `DELETE /users/:id` and `PATCH /users/status/:id` pass the id to a procedure. They send "User Soft Deleted" and "Status Updated" only once it returns; neither has a catch, so a rejected call leaves the request to Express (backend/server.js:137-148). The procedures' bodies are not part of this model, so nothing about listing, soft-delete, toggling or images is claimed.
- What `add_user` does inside the database (the unique e-mail constraint, say): its outcome is an input, the function `addUser`.
- Users.UpdateUser: a rejected `update_user_details` call is modelled as `Unanswered`: the handler sends nothing, because it has no catch (backend/server.js:126-131). What the client then gets (an error page, a hang or a crash, depending on the Express and Node versions) is not part of this model.
- Express, CORS, JSON parsing, the `pg` pool, `console.error` and `app.listen`. Replies are modelled as outcome values with their status codes and texts.
- Request bodies whose fields are missing or not strings; every field of `UserForm` is a string. In the code, a missing or null `first_name` throws at `first_name.length` (backend/server.js:81, :120), and so does a missing or null `last_name` once `first_name` is short enough. A missing `contact`, `email` or `password` reaches `RegExp.prototype.test` as `undefined`, which is tested as the string "undefined", so the reply is that field's rejection text (backend/server.js:84, :87, :90, :123). A missing `address` is passed on to the stored procedure. A number as a name has no `length`, `undefined > 50` is false, and the check passes. Login fields are modelled as absent, null or a string; numbers, booleans and objects are not modelled.
- Login.Query: the SQL has no ORDER BY. The model reads the rows in table order, so which row counts as first when several match is the table's order.
- Login.Query: compares e-mails and passwords as exact code-unit sequences, but the database sees the parameters only after they are encoded for the wire. If they travel as UTF-8, a lone surrogate becomes U+FFFD, so two different strings can match the same row. A U+0000 code unit makes the query throw, which gives 500 in the code but not in the model unless the database is `Failing`. A database collation that is not deterministic is not modelled either.
- Concurrency between requests: the code has no logic for it.
