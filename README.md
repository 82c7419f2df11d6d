# User CRUD service: a verified model

This project models the core of a small Spring/JDBC application that manages `User` records
(`id`, `email`, `login`) in a database table `users`. It has three parts:

- **Validator** (`validator.dfy`): `UserValidator.isNotValid`, a total predicate over a user whose
  `email` and `login` may be null (here `Option<string>`).
- **Service** (`table.dfy`, `service.dfy`): `UserService`. The table is a `map<Int32, User>`
  keyed by the primary key. `table.dfy` gives the effect of each of the four fixed SQL statements
  on that map. `service.dfy` is a class that runs them step by step on a connection: take a
  connection, turn autocommit off, execute, then commit or roll back, then turn autocommit back
  on and close. A failed statement is swallowed, so the method still returns normally.
- **Controller** (`controller.dfy`): `UserController`. The POST handlers check their input,
  call the service or not, and build a redirect URL. The GET handlers put a user into the view
  model and name a view.

Supporting modules: `wrappers.dfy` (`Option`, standing for a nullable reference), `users.dfy`
(the `User` record from `model/User.java`, with a 32-bit `Int32` id), and `decimal.dfy` (Java's
`int`-to-text conversion used in `"redirect:/user/get?id=" + id`, plus a reader for that text).

A statement failure is an explicit `fails: bool` parameter. It stands for any `SQLException`
raised between `prepareStatement` and `commit`. An `INSERT` of an id that is already stored also
fails, because `id` is the primary key. The ghost field `UserService.calls` records the service
calls made. This lets the controller's contracts say exactly when the service is called.

The model follows the code as written: the code swallows
persistence failures instead of reporting them. `getUser` returns null (`None`) both for a
missing row and for a failed query. There is one controller, and its create gate repeats the
validator's rule inline.

## Model

| member | source | states |
|---|---|---|
| Validator.IsNotValid | src/main/java/org/example/validator/UserValidator.java:8-12 | Total: no precondition, and each length is read only after its null test. The result is true exactly when the user is not well formed. Well formed means both fields are present and non-empty, the email is at most 25 characters and the login at most 20. A null or empty email, a null or empty login, or a length over either bound each force true. |
| Validator.IdIrrelevant | src/main/java/org/example/validator/UserValidator.java:8-11 | Changing the id never changes the verdict. |
| Validator.BoundaryLengthsAccepted | src/main/java/org/example/validator/UserValidator.java:11 | An email of exactly 25 characters with a login of exactly 20 is valid: the bounds are inclusive. |
| Validator.JustPastBoundaryRejected | src/main/java/org/example/validator/UserValidator.java:11 | An email of 26 characters, or a login of 21, is invalid. |
| Decimal.NatToDecimal | src/main/java/org/example/controller/UserController.java:50 | The decimal text of a non-negative int is non-empty, all digits, and starts with '0' only for zero. |
| Decimal.IntToDecimal | src/main/java/org/example/controller/UserController.java:50 | The text starts with '-' exactly for negative values, the rest is digits, and the digits have no leading zero (only zero itself is written `0`). |
| Decimal.ParseNatRoundTrip | src/main/java/org/example/controller/UserController.java:50 | Reading the digits of n back gives n. |
| Decimal.ReadIntRoundTrip | src/main/java/org/example/controller/UserController.java:50 | The decimal text of any int, followed by text that does not start with a digit, reads back as that int. |
| Decimal.IntToDecimalInjective | src/main/java/org/example/controller/UserController.java:50 | Two ints with the same decimal text are equal. |
| Table.InsertRow | src/main/java/org/example/service/UserService.java:35-42 | INSERT fails exactly when the id is already stored. Otherwise the table gains `id -> user`, every other row is kept, and rows stay under their own id. |
| Table.SqlEquals | src/main/java/org/example/service/UserService.java:122 | The `email = ?` test of the UPDATE: true only when both sides are non-NULL and equal; a NULL on either side never matches. |
| Table.SelectById | src/main/java/org/example/service/UserService.java:72-87 | SELECT by id finds a row exactly when the id is stored, and that row carries the requested id. |
| Table.UpdateLoginRows | src/main/java/org/example/service/UserService.java:122-129 | The keys stay the same and other rows are untouched. The row's id and email never change. Its login becomes the new one only when the stored email equals the given one under SQL NULL rules. With no match the table is unchanged. |
| Table.DeleteRow | src/main/java/org/example/service/UserService.java:158-163 | The row with that id is removed and every other row is kept. An absent id leaves the table unchanged. |
| Table.Execute | src/main/java/org/example/service/UserService.java:42 | Of the three write statements, only an INSERT of a stored id is refused. Every statement keeps rows under their own ids. |
| Table.InsertThenSelect | src/main/java/org/example/service/UserService.java:35-87 | After inserting a new user, selecting its id returns that user, with all fields equal. |
| Table.MismatchedEmailKeepsTable | src/main/java/org/example/service/UserService.java:122-130 | An update whose email differs from the stored one changes nothing. |
| Table.DeleteIdempotent | src/main/java/org/example/service/UserService.java:158-164 | Deleting the same id twice is the same as deleting it once. |
| Table.DeleteThenSelect | src/main/java/org/example/service/UserService.java:158-164 | After a delete, selecting that id finds nothing. |
| Service.UserService.GetConnection | src/main/java/org/example/service/UserService.java:30 | Needs a closed connection with nothing pending. Leaves a fresh connection open, in autocommit mode. |
| Service.UserService.SetAutoCommit | src/main/java/org/example/service/UserService.java:31 | Needs an open connection; autocommit is switched back on only when nothing is pending. Afterwards autocommit has the requested value. |
| Service.UserService.ExecuteUpdate | src/main/java/org/example/service/UserService.java:42 | Runs only with the connection open and autocommit off. On success the pending view takes the statement's effect. On failure nothing is promised about the pending view. |
| Service.UserService.Commit | src/main/java/org/example/service/UserService.java:43 | The pending view becomes the committed table, and the commit count goes up by one. |
| Service.UserService.Rollback | src/main/java/org/example/service/UserService.java:46 | The pending view is reset to the committed table. |
| Service.UserService.Close | src/main/java/org/example/service/UserService.java:56 | Needs an open connection and leaves it closed. |
| Service.UserService.RunWrite | src/main/java/org/example/service/UserService.java:29-58 | Moves from the state between calls back to it: connection closed, autocommit on, nothing pending. On success the statement's effect is committed once. On failure the table is restored and nothing is committed. |
| Service.UserService.CreateUser | src/main/java/org/example/service/UserService.java:29-58 | Success: the table equals the insert's result and one commit happened. Failure or duplicate id: the table is unchanged and nothing is committed. Either way the method returns normally, the connection is closed and autocommit is on. |
| Service.UserService.GetUser | src/main/java/org/example/service/UserService.java:66-107 | Returns the stored row for the id, or None. None covers both a missing row and a failed query. The table, the commits and autocommit are unchanged, and the connection is closed. |
| Service.UserService.UpdateUser | src/main/java/org/example/service/UserService.java:116-145 | Success: the table equals the update's result. Failure: the table is unchanged. It then ends closed with autocommit on. |
| Service.UserService.DeleteUser | src/main/java/org/example/service/UserService.java:152-179 | Success: the table equals the delete's result. Failure: the table is unchanged. It then ends closed with autocommit on. |
| Controller.UserInfoRedirect | src/main/java/org/example/controller/UserController.java:50 | The URL starts with `redirect:/user/get?id=`, and its id parameter reads back as the given id. |
| Controller.RedirectedIdRoundTrip | src/main/java/org/example/controller/UserController.java:50 | The id is read back from the `redirect:/user/get?id=` URL built from it, whatever non-digit text follows. |
| Controller.CreateGateRejects | src/main/java/org/example/controller/UserController.java:44-46 | The inline create gate equals `Validator.IsNotValid` on every user. |
| Controller.ChangeLoginGateRejects | src/main/java/org/example/controller/UserController.java:92-94 | Passes exactly when the email is non-null and non-empty and the login is non-null, non-empty and at most 20 characters long. Anything it rejects, the validator rejects too. |
| Controller.ChangeLoginGateIgnoresEmailLength | src/main/java/org/example/controller/UserController.java:92-94 | Take an email longer than 25 characters and a valid login. The change-login gate lets it through, though the validator refuses it. |
| Controller.CreateRedirect | src/main/java/org/example/controller/UserController.java:44-50 | The result is `redirect:/user/create` exactly when the gate rejects the user. Otherwise it is exactly `redirect:/user/get?id=` followed by the id's decimal text, and that id reads back. |
| Controller.ChangeLoginRedirect | src/main/java/org/example/controller/UserController.java:92-98 | The result is `redirect:/user/change-login` exactly when the gate rejects the user. Otherwise it is exactly the info-page URL for the id, then `&login=`, then the login; the id reads back. |
| Controller.CreateKeepsRowsValid | src/main/java/org/example/controller/UserController.java:44-49 | An insert the create gate admits keeps every stored row valid. |
| Controller.ChangeLoginKeepsRowsValid | src/main/java/org/example/controller/UserController.java:92-97 | A login update the change-login gate admits keeps every stored row valid. |
| Controller.ViewModel.AddAttribute | src/main/java/org/example/controller/UserController.java:29 | `model.addAttribute`: the named attribute takes the given value, null included, and every other attribute is kept. |
| Controller.UserController.CreateUserGet | src/main/java/org/example/controller/UserController.java:27-32 | The given user is put under `user` and the view is `create_user`. |
| Controller.UserController.CreateUserPost | src/main/java/org/example/controller/UserController.java:40-54 | Calls `createUser` exactly when the gate admits the user. When refused, the table is unchanged. The redirect is `CreateRedirect`, and all-valid rows stay all valid. |
| Controller.UserController.GetUserGet | src/main/java/org/example/controller/UserController.java:63-69 | The model's `user` is exactly what `getUser` returned, None included. The view is `user_info` and the table is unchanged. |
| Controller.UserController.ChangeLoginGet | src/main/java/org/example/controller/UserController.java:75-80 | The given user is put under `user` and the view is `change_user_login`. |
| Controller.UserController.ChangeLoginPost | src/main/java/org/example/controller/UserController.java:88-102 | Calls `updateUser(id, email, login)` exactly when the gate admits the user. The table is then the update's result, or unchanged. The redirect is `ChangeLoginRedirect`, and all-valid rows stay all valid. |
| Controller.UserController.DeleteUserGet | src/main/java/org/example/controller/UserController.java:108-113 | The given user is put under `user` and the view is `delete_user`. |
| Controller.UserController.DeleteUserPost | src/main/java/org/example/controller/UserController.java:121-133 | The redirect is always `redirect:/user/delete`. `deleteUser` is called exactly when an id is given, and the table is then the delete's result. |

## Left out

- The JDBC driver, `PostgresUtil` and the database engine are not part of this model. The table is a map, and any driver or database error is the `fails` flag. Why a statement fails, beyond a duplicate primary key, is outside the code.
- Failures of `rollback`, `close` or `setAutoCommit` themselves are left out, including a `setAutoCommit(false)` that fails before the `try`. A failing `commit` is covered by `fails`, because it also ends in the catch block with nothing committed.
- The schema of `users` is not part of the source. The model assumes `id` is its primary key: the table is a map keyed by id, and an INSERT of a stored id fails.
- Closing the prepared statement and result set is left out: it has no effect on the table or the connection state.
- Transaction isolation and concurrent requests are left out. The code does no coordination of its own.
- `UserExceptionHandler` is left out. It is a constant exception-to-view mapping, and which handler runs is decided by Spring's exception resolution.
- Spring request binding, the internals of `Model`, the Lombok accessors and view rendering are left out. `ViewModel` keeps only the named attributes the handlers set.
- `GetUserGet` takes an `Int32`, not a nullable `Integer`: a required `@RequestParam` never binds null. `DeleteUserPost` takes `Option<Int32>`, because its code tests for null. Its `@RequestParam Integer id` is required too, so in this Spring stack a request without an id is refused before the handler runs, and the `None` branch models code that is never reached there.
- Logging (`printStackTrace`, `System.out.println`) is left out.
- Java's `String.length()` counts UTF-16 code units. Strings here are `seq<char>`, and the length bounds are stated on that.
- `Service.UserService.ExecuteUpdate`: it promises nothing about the pending view after a failed statement, which is weaker than the code's behaviour. This is deliberate: the callers must rely on the rollback alone.
