# Users controller: a verified model

This project models the user-account controller of a small REST service
(`src/controllers/UsersController.js`). The controller has five handlers over
one `users` table. `create` (POST /users), `index` (GET /users),
`show` (GET /users/:id), `delete` (DELETE /users/:id) and `update`
(PUT /users/:id) each run a short chain of checks. The first check that fails
raises an error. When every check passes, the handler reads or changes the
table.

The model has four modules:

- `Accounts` (`accounts.dfy`) holds the rows and the table. The table is a
  `map<int, User>`. A request field is `Option<string>`, and `Present` is
  JavaScript truthiness for a string. The stored password is a `Digest`.
  `Digest` is a type separate from `string`, and `Create` and `Update` fill
  the password column only through `Hash`. `Hash` simply wraps the password:
  the model relies only on its injectivity. `Compare(p, h)` holds
  exactly when `h == Hash(p)`. The module also states the table invariant: no
  two rows share an email, and no stored email is empty.
- `Validation` (`validation.dfy`) writes each handler's chain of
  `if (...) throw` statements as an ordered list of checks. `FirstError` says
  which error such a chain reports. `CreateCheck` and `UpdateCheck` give the
  outcome of the chains of `create` and `update`.
- `Controller` (`users_controller.dfy`) is the class `UsersController`. It
  holds the table and the store's next id. Each handler is a method written
  step by step, like the source. Each method's contract ties its reply to the
  validation chain, says what the table is afterwards, and keeps the
  invariant.
- `Scenarios` (`scenarios.dfy`) holds client request sequences: create then
  show, a duplicate create, delete twice, update then show, and so on. Each
  is proved from the handlers' contracts alone.

Three behaviours of the code that a reader might not expect are kept as
written:

- `index` and `show` send whole rows, password hash included
  (UsersController.js:47, :59). `Listing` and `Found` carry the `Digest`.
- `update` checks `checkOldPassword === checkNewPassword` (line 114). That
  compares two booleans, not two passwords. But the check only runs after
  `checkOldPassword` was found true (line 110). So it fails exactly when the
  new password also matches the stored hash. With an injective hash, that
  means the new password equals the old one (bcrypt's 72-byte truncation is
  not modelled; see below).
  `Validation.SameComparisonMeansSamePassword` proves this: the guard rejects
  exactly a new password equal to the current one.
- `update` sets the name with `name ?? user.name` (line 118). An empty-string
  name therefore replaces the stored name, even though `create` refuses an
  empty name (line 15).

## Model

| member | source | states |
|---|---|---|
| `Accounts.HashInjective` | src/controllers/UsersController.js:27 | two passwords have the same hash exactly when they are equal |
| `Accounts.OwnEmailNotHeld` | src/controllers/UsersController.js:90-97 | in a well-formed table, no other user holds a user's own current email, so re-stating it in an update is never "email in use" |
| `Accounts.InsertKeepsWellFormed` | src/controllers/UsersController.js:9-13 | inserting under a fresh id a row whose non-empty email nobody holds keeps emails unique and non-empty |
| `Accounts.ReplaceKeepsWellFormed` | src/controllers/UsersController.js:90-97 | rewriting row `id` with a non-empty email that no other row holds keeps emails unique and non-empty |
| `Accounts.RemoveKeepsWellFormed` | src/controllers/UsersController.js:71 | deleting a row keeps emails unique and non-empty |
| `Accounts.Present` | src/controllers/UsersController.js:15-25 | a field passes a `!x` presence test exactly when it is neither absent nor the empty string (also the tests at lines 86 and 102-108) |
| `Accounts.EmailHeld` | src/controllers/UsersController.js:90-95 | the lookup `where({ email })`, optionally `.whereNot("id", id)`, finds a row; an absent email matches no row (also the lookup at lines 9-11) |
| `Validation.CreateChecks` | src/controllers/UsersController.js:9-25 | create runs four checks; the first is the email lookup, before every presence check; no two checks share an error |
| `Validation.Matches` | src/controllers/UsersController.js:99-100 | `compare(password, user.password)` on the row at `id`; it never holds for an absent password or a missing row |
| `Validation.UpdateChecks` | src/controllers/UsersController.js:80-116 | update runs seven checks; the first is the id lookup and the last is the literal `checkOld != checkNew` of line 114; no two checks share an error |
| `Validation.FirstError` | src/controllers/UsersController.js:80-116 | a chain of checks reports nothing exactly when every check passes; otherwise it reports the error of the first failing check, in list order |
| `Validation.CreateCheck` | src/controllers/UsersController.js:9-25 | create succeeds exactly when no row holds the email and name, email and password are all present; "email in use" whenever any row holds the email, whatever the other fields; otherwise the first missing field, in the order name, email, password |
| `Validation.UpdateCheck` | src/controllers/UsersController.js:80-116 | update succeeds exactly when the user exists, the email is present and no other user holds it, both passwords are present, the old password matches the stored hash and the new password differs from the old one |
| `Validation.SameComparisonMeansSamePassword` | src/controllers/UsersController.js:99-116 | once the old password matched, `checkOldPassword === checkNewPassword` holds exactly when the new password equals the old one |
| `Validation.UpdateCheckOrder` | src/controllers/UsersController.js:80-116 | each update error is raised exactly when every earlier check passes and its own check fails, in the order: user not found, email required, email in use, old password required, new password required, old password mismatch, same password |
| `Controller.UsersController.constructor` | src/controllers/UsersController.js:5 | a new controller starts on an empty table that satisfies the invariant |
| `Controller.UsersController.Create` | src/controllers/UsersController.js:6-38 | the reply is the outcome of the create chain; on failure the table and the id counter are unchanged; on success exactly one row is added, under an id not in use before, holding the given name and email and `Hash(password)`; every other row is unchanged; the invariant is kept |
| `Controller.UsersController.Index` | src/controllers/UsersController.js:40-48 | fails with "no users registered" exactly when the table is empty; otherwise returns the whole table; never changes it |
| `Controller.UsersController.Show` | src/controllers/UsersController.js:50-60 | fails with "user not found" exactly when the id is absent; otherwise returns that row; never changes the table |
| `Controller.UsersController.Delete` | src/controllers/UsersController.js:62-74 | fails with "user not found" and changes nothing when the id is absent; otherwise removes exactly that row; the invariant is kept |
| `Controller.UsersController.Update` | src/controllers/UsersController.js:76-132 | the reply is the outcome of the update chain; on failure the table is unchanged; on success only row `id` changes: name is the given name if one was given, else the old name; email is the given email; password is `Hash(new password)`; the invariant is kept |
| `Scenarios.CreateThenShow` | src/controllers/UsersController.js:6-60 | a valid create with a free email succeeds and adds one row; showing it returns the name and email, and a hash that only the submitted password matches |
| `Scenarios.CreateDuplicate` | src/controllers/UsersController.js:9-13 | a second create with the same email fails with "email in use", whatever its name and password; afterwards the table holds the old rows plus only the first create's row |
| `Scenarios.CreateThenIndex` | src/controllers/UsersController.js:29-47 | after a successful create, listing returns the whole table and never "no users registered" |
| `Scenarios.DeleteTwice` | src/controllers/UsersController.js:50-74 | deleting an existing id succeeds; deleting it again, or showing it, fails with "user not found"; exactly that row is gone |
| `Scenarios.UpdateThenShow` | src/controllers/UsersController.js:76-132 | after an allowed update, show gives the new name (or the old one when none was given) and the new email; the new password matches the stored hash and the old one no longer does |
| `Scenarios.UpdateOwnEmail` | src/controllers/UsersController.js:90-97 | an update that re-states the user's own email, with a correct old password and a different new one, succeeds |
| `Scenarios.UpdateWrongPassword` | src/controllers/UsersController.js:110-112 | an update whose old password does not match fails with "old password mismatch" and leaves the table unchanged |
| `Scenarios.UpdateTakenEmail` | src/controllers/UsersController.js:90-97 | an update to an email that another existing user holds fails with "email in use" and leaves the table unchanged |

## Left out

- Routing (`src/routes/users.routes.js`) only maps HTTP verbs and paths to the handlers. HTTP status codes, response objects and the exact Portuguese message text are not modelled. Each distinct message is a constructor of `Error`.
- The database layer is not modelled: knex query building, SQL and the connection (`src/database/knex` is not part of this model). The table is a map.
- `EmailHeld` takes a lookup with an absent email (`where({ email: undefined })`, line 9) to match no row. knex's handling of an undefined binding is library behaviour and is not modelled. In the program, a `create` without an email meets that handling at line 9, before all three presence checks. So for an absent (undefined) email the program never reaches lines 15-25. The model instead answers `NameRequired`, `EmailRequired` or `PasswordRequired` there, whichever comes first.
- Store-assigned ids are modelled as a counter above every key in use. The contracts only promise an id not in use before. `Create` also returns that id so that a client can show the new row. The HTTP reply carries only the confirmation message.
- `created_at` and `updated_at` are set by the store clock, so they are not modelled.
- bcrypt internals are not modelled: one-wayness, 72-byte truncation, salting, cost factor 8, and randomised output. `Hash` wraps the password and is injective, and `Compare(p, h)` is `h == Hash(p)`. Nothing in the model depends on the hash being hard to invert. Because bcrypt only looks at the first 72 bytes of a password, two passwords that share those bytes compare equal in the program. There, `update` answers "same password" (line 114) and `compare` accepts either one (line 99). The model tells them apart.
- `Matches` takes `compare` on an absent password to be false. bcryptjs instead rejects `compare` on an undefined argument, and the `await` at lines 99-100 then throws before the presence checks at lines 102-108. So for an absent `old_password` or `new_password` the program answers with a generic error. It says "old password required" or "new password required" only for `""`. The model answers `OldPasswordRequired` or `NewPasswordRequired` for both.
- The `Number(id)` coercion of the route parameter is not modelled: ids are integers.
- Request fields are strings or absent. Other JSON values (numbers, objects) are not modelled. Email comparison is exact string equality, and the store's collation is not modelled.
- The check-then-act race between the uniqueness query and the insert or update under concurrent requests is not modelled. Handlers run one at a time, each as a single step.
- Store failures (connection loss, constraint violations) are not modelled. They surface as generic errors outside the controller's own checks.
