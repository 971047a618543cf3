# emp-backend, modelled in Dafny

This project models the request handlers, schemas and guards of an Express and
Mongoose back end that manages employees, users, subadmins and admins.

- **Employees** register and log in with a JWT. They list, look up, add and
  delete employees. Each employee carries a referral code and a `referredBy`
  reference.
- **Users** are created, read, updated and deleted through their own handlers.
  A user may name the employee who referred them.
- **Subadmins** register, log in and are listed.
- **Admins** log in and read their own document.

Each MongoDB collection is a `seq` of records in natural order. The
collections the handlers change are classes: `EmployeeModel.EmployeeCollection`,
`UserModel.UserCollection` and `SubadminController.SubadminCollection`. Each
one keeps the unique indexes on `_id` and `email` as its `Valid()` invariant.
Handlers that only read the database are functions over the row sequence.
Handlers that write to it are methods on the collection. Middlewares are
methods that may write `req.user` on an `Http.Request` object.

The outside world is a value of `Platform.Env`:

- bcrypt's `hash` and `compare`;
- jsonwebtoken's `sign` and `verify`;
- `JWT_SECRET` and `JWT_EXPIRE`;
- Mongoose's ObjectId cast;
- the schemas' email and phone regular expressions.

The new `_id`, `Date.now()` and the random part of a referral code are
parameters.

The three possible answers are `Platform.Response`:

- `Reply(status, body)` is `res.status(s).json(body)` with a payload.
- `Refuse(status, message)` is a failure answered by the handler itself.
- `PassOn(error)` is `next(err)`, or an error thrown inside `asyncHandler`.

Module by module:

- `Js`: the JavaScript string and number behaviour the handlers rely on: truthiness, `split`/`join`, `trim`, ASCII case mapping and `parseInt`.
- `Platform`: the oracles above, the claims of a token, the database errors with their `code` and `message`, and the response shape.
- `Rows`: collections as sequences: lookup by key, select, reject, replace, the skip/limit window and the newest-first sort.
- `EmployeeModel`: `models/Employee.js`.
- `UserModel`: `models/User.js`.
- `EmployeeController`: `controllers/employeeController.js`.
- `UserController`: `controllers/userController.js`.
- `AuthController`: `controllers/authController.js`.
- `SubadminController`: `controllers/subadminController.js` and the two fields and hook of `models/Subadmin.js` that it relies on.
- `AdminController`: `controllers/adminController.js`.
- `Http` and `AuthMiddleware`: `middlewares/authMiddleware.js`.
- `AuthGuard`: `middlewares/auth.js`.
- `LoginCodes`: compares the three login handlers.

## Model

| member | source | states |
|---|---|---|
| EmployeeModel.StatusEnum | models/Employee.js:37-41 | Each status name casts back to its status. An absent status defaults to pending. A present value is accepted exactly when it is one of 'pending', 'active' or 'inactive'. |
| EmployeeModel.IdFailures | models/Employee.js:4 | A client-supplied `_id` fails validation exactly when it does not cast to an ObjectId. |
| EmployeeModel.FullNameFailures | models/Employee.js:5-9 | The name validator reports nothing exactly when a name is given and it is not blank after trimming. |
| EmployeeModel.EmailFailures | models/Employee.js:10-20 | The email validator reports nothing exactly when the trimmed, lower-cased email is non-empty and matches the pattern. |
| EmployeeModel.PasswordFailures | models/Employee.js:21-26 | The password validator reports nothing exactly when a password of at least 6 characters is given. |
| EmployeeModel.ReferredByFailures | models/Employee.js:32-36 | `referredBy` fails validation only when it is present and is not an ObjectId. |
| EmployeeModel.StatusFailures | models/Employee.js:37-41 | `status` fails validation exactly when the enum cast rejects it. |
| EmployeeModel.CastAcceptsExactly | models/Employee.js:4-55 | Creating a document succeeds if and only if every path satisfies its validator, a supplied `_id` included. |
| EmployeeModel.CastWellFormed | models/Employee.js:4-55 | An accepted document is well formed: name trimmed and non-empty; email lower-case, trimmed and matching the pattern; password at least 6 characters; referral code trimmed; `referredBy` an ObjectId. Its `_id` is the one the body supplies, or else the generated one. It keeps the given reference, last login and plain password. Its creation time is the body's when given and now otherwise. Its status defaults to pending. |
| EmployeeModel.BuiltWellFormed | models/Employee.js:5-36 | The setters (trim, lowercase) turn acceptable fields into a well-formed document. |
| EmployeeModel.ReferralCodeShape | models/Employee.js:88-91 | The stored code, after the `referralCode` path's trim setter, is upper case and trimmed. For a non-empty trimmed name and a non-empty base-36 random part the setter cuts nothing. The code is then the upper-cased first three (or fewer) characters of the name followed by the upper-cased random part, and its length is their sum. |
| EmployeeModel.ReferralCodeTrimsPrefix | models/Employee.js:88-91 | Worked instance of the setter: name "Al Bo" with an empty random part stores "AL", not "AL ". |
| EmployeeModel.EmployeeDocument.constructor | models/Employee.js:4-55 | A new document holds the given record and modified flag. |
| EmployeeModel.EmployeeDocument.HashPassword | models/Employee.js:66-74 | A modified password is replaced by its hash. An unmodified document is left unchanged. |
| EmployeeModel.EmployeeDocument.Touch | models/Employee.js:77-80 | `updatedAt` is set to the current time, and nothing else changes. |
| EmployeeModel.EmployeeDocument.Save | models/Employee.js:66-80 | Both hooks run in the order they are registered. `updatedAt` becomes now. The password is hashed exactly when it was modified. No other field changes. |
| EmployeeModel.EmployeeDocument.GenerateReferralCode | models/Employee.js:88-91 | Only `referralCode` changes. It becomes the code computed from the name and the random part, as the path's trim setter stores it. |
| EmployeeModel.SaveNew | models/Employee.js:66-80 | Saving a new document hashes its password and stamps `updatedAt`. |
| EmployeeModel.EmailTakenIn | models/Employee.js:94-100 | The scan answers true exactly when some other employee (not the excluded id) has the email. |
| EmployeeModel.IsEmailTaken | models/Employee.js:94-100 | An exclusion that is not an ObjectId throws a CastError. Otherwise the answer is true if and only if some employee whose id differs from the exclusion has the normalised email. |
| EmployeeModel.EmailTakenAfterInsert | models/Employee.js:94-100 | After an insert, the new email is taken, but not when the new employee itself is excluded. |
| EmployeeModel.FindById | controllers/employeeController.js:149 | An id that is not an ObjectId is a CastError. A found employee is in the collection and has the id. None means no employee has the id. |
| EmployeeModel.FindByEmail | controllers/authController.js:80 | The query email goes through the path's setters. A hit holds that normalised email. A miss means no employee holds it. |
| EmployeeModel.EmployeeCollection.constructor | models/Employee.js:4-55 | An empty collection satisfies the unique-index invariant. |
| EmployeeModel.EmployeeCollection.Create | controllers/employeeController.js:12 | A validation failure leaves the collection unchanged. The document's `_id` (supplied or generated) or email already taken gives error 11000 and leaves it unchanged. Otherwise the saved document, with hashed password and `updatedAt` stamped, is appended. The unique indexes hold throughout. |
| EmployeeModel.EmployeeCollection.Insert | models/Employee.js:13 | The insert is refused on a taken `_id` or email, and otherwise appends the document. The indexes stay unique. |
| EmployeeModel.EmployeeCollection.Delete | controllers/employeeController.js:157 | The employee with the id is removed, and the indexes stay unique. |
| UserModel.TextFailures | models/User.js:5-16 | A text path validates exactly when it is present and its trimmed value has 1 to 50 characters. |
| UserModel.FirstNameFailures | models/User.js:5-10 | `firstName` passes exactly when it is present and its trimmed value has 1 to 50 characters. |
| UserModel.LastNameFailures | models/User.js:11-16 | `lastName` passes exactly when it is present and its trimmed value has 1 to 50 characters. |
| UserModel.CityFailures | models/User.js:40-45 | `city` passes exactly when it is present and its trimmed value has 1 to 50 characters. |
| UserModel.PatternFailures | models/User.js:17-33 | A required pattern path validates exactly when it is present, non-empty and matches. |
| UserModel.EmailFailures | models/User.js:17-25 | The email passes exactly when it is present, non-empty and matches the email pattern. |
| UserModel.PhoneFailures | models/User.js:26-33 | The phone number passes exactly when it is present, non-empty and matches the phone pattern. |
| UserModel.AgeFailures | models/User.js:34-39 | The age passes exactly when it is present and between 18 and 100, both inclusive. |
| UserModel.PasswordFailures | models/User.js:46-51 | The password passes exactly when it is present with at least 6 characters. |
| UserModel.ReferralFailures | models/User.js:52-56 | A referral is optional, but when present it must be an ObjectId. |
| UserModel.FailuresEmpty | models/User.js:4-61 | A document has no validation errors exactly when every path has none. |
| UserModel.CastAcceptsExactly | models/User.js:4-61 | Creating a user succeeds if and only if every path satisfies its validator. |
| UserModel.CastWellFormed | models/User.js:4-61 | An accepted user is well formed: trimmed texts within length, email and phone matching, age in range, referral an ObjectId. It keeps the given id, plain password and referral. Its creation time is the body's when given and now otherwise. |
| UserModel.BuiltWellFormed | models/User.js:5-45 | The trim setters turn acceptable fields into a well-formed user. |
| UserModel.ApplyChangesOnlySupplied | controllers/userController.js:125-128 | An update never touches id, password or referral. Each of the seven updatable paths, creation time included, is unchanged when the patch omits it and takes the patch's value (trimmed for text paths) when the patch supplies it. |
| UserModel.PatchFailuresEmpty | controllers/userController.js:125-128 | With `runValidators`, an update is valid exactly when each supplied path passes its own validator. |
| UserModel.ApplyKeepsWellFormed | controllers/userController.js:125-128 | An update that passes its validators keeps a well-formed user well formed. |
| UserModel.PickTextOk | models/User.js:5-16 | A text path keeps its trimmed-and-bounded shape whether an update supplies it or not. |
| UserModel.RehashBreaksLogin | models/User.js:64-71 | Counterexample for the hook as written: a user whose password matched before a save without a password change no longer matches the document the hook leaves. |
| UserModel.HashIfModifiedKeepsLogin | models/User.js:64-71 | With the corrected hook, a save without a password change keeps every login outcome. A changed password is stored as its hash. No other field changes. |
| UserModel.HooksAgreeOnCreate | models/User.js:64-71 | On a new document, the only save the handlers perform, the hook as written and the corrected hook give the same result. |
| UserModel.UserDocument.constructor | models/User.js:4-61 | A new document holds the given record and modified flag. |
| UserModel.UserDocument.PreSave | models/User.js:64-71 | The corrected hook hashes a modified password and leaves an unmodified document unchanged. |
| UserModel.SaveNew | models/User.js:64-71 | Saving a new user stores the hash of its password. |
| UserModel.FindById | controllers/userController.js:36 | An id that is not an ObjectId is a CastError. A found user is in the collection with the id. None means no user has it. |
| UserModel.UserCollection.constructor | models/User.js:4-61 | An empty collection satisfies the unique-index invariant. |
| UserModel.UserCollection.Create | controllers/userController.js:89-98 | A validation failure leaves the collection unchanged. A taken `_id` or email gives error 11000 and leaves it unchanged. Otherwise the user is appended with its password hashed. The indexes stay unique. |
| UserModel.UserCollection.Insert | models/User.js:17-20 | The insert is refused on a taken `_id` or email, and otherwise appends the document. The indexes stay unique. |
| UserModel.UserCollection.FindByIdAndUpdate | controllers/userController.js:125-128 | The id is cast first, then only the supplied paths are validated. An unknown id gives None. An email held by another user gives error 11000. Otherwise only that user is replaced by the patched record. The indexes stay unique in every case. |
| UserModel.UserCollection.FindByIdAndDelete | controllers/userController.js:158 | The result is what a lookup by id would give. The collection loses exactly the user found, and is unchanged otherwise. |
| EmployeeController.StripReserved | controllers/employeeController.js:24-27 | The filter holds exactly the query keys other than select, sort, page and limit, each with its query value. |
| EmployeeController.Matched | controllers/employeeController.js:32 | An employee is matched if and only if it is in the collection and the filter matches it. |
| EmployeeController.SortClauseReplacesCommas | controllers/employeeController.js:42-44 | Splitting the sort value on commas and joining with spaces replaces each comma by a space. Nothing else changes: the length is the same and no comma is left. |
| EmployeeController.DefaultOrderNewestFirst | controllers/employeeController.js:45-47 | Without `sort`, the listing is a newest-first permutation of the matched employees, and the filter excludes exactly the reserved keys. |
| EmployeeController.PageDefaults | controllers/employeeController.js:49-50 | Page and limit are never 0. Each takes its default (1 and 25) exactly when absent, not a number, 0 or the default itself. |
| EmployeeController.NumeralRead | controllers/employeeController.js:49-50 | A page or limit written as a decimal numeral other than 0 is read as that number. |
| EmployeeController.GetEmployees | controllers/employeeController.js:23-79 | The reply is the page, computed from the requested page and limit, of the filtered and ordered listing, with the total count of matches. |
| EmployeeController.PageIsSlice | controllers/employeeController.js:51-57 | For page and limit at least 1, the data are exactly the existing employees at positions `[(page-1)*limit, page*limit)`, and `count` is their number. |
| EmployeeController.PageBounds | controllers/employeeController.js:51-52 | The start index is non-negative, the end index is one limit past it, and the start is positive exactly after page 1. |
| EmployeeController.NeighbourDescriptors | controllers/employeeController.js:59-71 | `next` appears exactly when employees remain after the page, and `prev` exactly when the page is after the first. Each names its neighbour page with the same limit. |
| EmployeeController.ConsecutivePages | controllers/employeeController.js:51-55 | Page n followed by page n+1 equals the window of twice the limit that starts at page n. |
| EmployeeController.ThirtyMatchesSecondPage | controllers/employeeController.js:49-78 | With 30 matches, page 2 of limit 25 holds 5 employees, has no `next`, and its `prev` is page 1 of limit 25. |
| EmployeeController.GetEmployeesByReferral | controllers/employeeController.js:84-106 | The reply is 404 exactly when no employee has the trimmed code. Otherwise the data are exactly the views of the employees with the code, and `count`, at least one, is the number of documents holding it. |
| EmployeeController.ViewsMembers | controllers/employeeController.js:87-104 | A listing of views holds the view of each employee listed, and nothing else. |
| EmployeeController.GetEmployee | controllers/employeeController.js:111-132 | The reply is 200 if and only if the id is an ObjectId held by an employee, and it returns that employee without password. An unknown id gives the 404. A malformed id gives the CastError. |
| EmployeeController.SortedMembers | controllers/employeeController.js:140 | Sorting keeps exactly the employees found. |
| EmployeeController.ProjectMembers | controllers/employeeController.js:138-140 | Projection keeps membership and keeps newest-first order. |
| EmployeeController.GetMyReferredEmployees | controllers/employeeController.js:137-147 | The data are exactly the employees the caller referred, projected and newest first, and `count` is the number of documents that name the caller as referrer. Without a caller, reading `req.user.id` throws. |
| EmployeeController.DeleteEmployee | controllers/employeeController.js:148-164 | A malformed id throws a CastError and an unknown id gives the 404, both with the collection unchanged. Otherwise exactly the employee with the id is removed. |
| EmployeeController.SecondDeleteNotFound | controllers/employeeController.js:148-157 | A delete removes one employee and keeps every other. The same id is then not found. |
| EmployeeController.AddEmployee | controllers/employeeController.js:8-18 | Never answers a refusal. Without a caller, reading `req.user.id` throws and nothing is stored. Otherwise the whole body, with `referredBy` set to the caller, is cast; a body `_id` that is not an ObjectId is a cast error. A cast error is thrown with its message. A taken id or email throws error 11000 naming that key. In each error case the collection is unchanged. Otherwise the cast employee with the hashed password and the update time set to now is appended and returned with 201. It names the caller as referrer and carries the body's `_id` or else the generated one. |
| UserController.GetUsers | controllers/userController.js:7-29 | Every user is listed without password, newest first, with `count` the number of users. |
| UserController.GetUser | controllers/userController.js:34-60 | The reply is 200 if and only if the id is an ObjectId held by a user. A malformed id gives 400 with the CastError message, and an unknown one gives 404 "User not found". |
| UserController.CreateUser | controllers/userController.js:66-116 | Never passes an error on. A missing required field gives 400. A referral that is not an ObjectId gives 400, and an unknown one gives 404. With the referral accepted, a validation failure gives 400 with its message. A cast user whose id or email is taken gives 400 "Email already exists". Every other cast user gives 201: the reply is that user with the hashed password, its referral is the one given or null, its creation time is now, and it is appended. Any outcome but 201 leaves the collection unchanged. |
| UserController.Persist | controllers/userController.js:89-115 | A validation error gives 400 with its message and stores nothing. A taken id or email gives 400 "Email already exists" and stores nothing. Otherwise the reply is 201 with the cast user and its hashed password, and that user is appended. |
| UserController.UpdateKeepsSecrets | controllers/userController.js:123-125 | An update never changes password, referral or id, whatever the body says. Every supplied updatable path, creation time included, takes the body's value, and every omitted one keeps the stored value. |
| UserController.UpdateUser | controllers/userController.js:120-151 | A malformed id gives 400 CastError and an invalid patch gives 400 ValidationError. An unknown id gives 404, and an email held by another user gives 400 duplicate key. Otherwise the updated user is returned without password and replaces the stored one. |
| UserController.DeleteUser | controllers/userController.js:156-177 | A malformed id gives 400 and an unknown one gives 404, both with the collection unchanged. Otherwise exactly that user is removed. |
| UserController.SecondDeleteNotFound | controllers/userController.js:156-165 | A delete removes one user and keeps every other. A second delete or a get of the same id then answers 404. |
| AuthController.RegisteredShape | controllers/authController.js:21-26 | Registration passes only name, email, password and referral code, so an accepted employee has the generated id, no referrer, status pending, creation time now and the submitted password before hashing. |
| AuthController.Register | controllers/authController.js:8-62 | Mismatched passwords give 400 and store nothing. A validation failure gives 400 with its message. A taken id or email gives 400 "Email already exists" and stores nothing. Otherwise exactly the cast employee, with the hashed password and the update time set to now, is appended. It has the new id, no referrer, status pending and creation time now. The answer is then 201 with the token signed for its claims and the submitted referral code, or 400 with the signing error's message. |
| AuthController.Login | controllers/authController.js:67-127 | Missing fields give 400. The reply is 401 if and only if no employee with the normalised email accepts the password. Conversely, for any employee with that email that accepts the password, the reply is 200 with the token signed for its claims, or 400 with the signing error's message. A 200 reply has an undefined role. |
| AuthController.UnknownAndWrongAlike | controllers/authController.js:82-97 | An unknown email and a wrong password get the same answer. |
| AuthController.GetMe | controllers/authController.js:132-159 | No caller gives 400 with the TypeError message. A malformed id gives 400 with the CastError message, and an unknown id gives 404. The reply is 200 if and only if the caller's id is a well-formed id held by some employee. With unique ids, that employee's own profile is the reply, with an undefined role. |
| SubadminController.SubadminCollection.constructor | models/Subadmin.js:4-7 | An empty collection satisfies the unique-index invariant. |
| SubadminController.SubadminCollection.Save | models/Subadmin.js:4-15 | An empty email or password, or a taken id or email, stores nothing. Otherwise the subadmin is appended with its password hashed. |
| SubadminController.RegisterSubadmin | controllers/subadminController.js:5-21 | A taken email gives 400 "Subadmin already exists". A save that fails gives 500. Otherwise the reply is 201 and the hashed subadmin is appended. |
| SubadminController.LoginSubadmin | controllers/subadminController.js:24-48 | With unique emails: the reply is 404 if and only if no subadmin has the email, and 401 if and only if the holder of the email rejects the password. When the holder accepts it, the reply is 200 with the one-hour token signed for that subadmin and the whole stored document, hash included, or 500 when signing fails. |
| SubadminController.RegisterThenLogin | controllers/subadminController.js:14-44 | A subadmin just registered can log in with its password, and the session returns the hash rather than the password. |
| SubadminController.GetAllSubadmins | controllers/subadminController.js:49-73 | The reply is 404 if and only if there are no subadmins, and 200 if and only if there is at least one. A 200 lists every subadmin without password, in order, with `count` their number. |
| AdminController.WithoutPassword | controllers/adminController.js:36-37 | Deleting `password` removes that key only and keeps every other key and value. |
| AdminController.AdminSecret | controllers/adminController.js:31 | The admin token is never signed with an undefined or empty secret: `JWT_SECRET` when it is truthy, and the fallback 'your_jwt_secret' otherwise. |
| AdminController.LoginAdmin | controllers/adminController.js:6-49 | Validation errors give 400. The reply is 404 if and only if there are no errors and no document has the email. For the first document holding the email: no password key gives 500, a rejected password 401, and an accepted one 200 with the one-day admin token signed for its claims and the document without its password, or 500 when signing fails. |
| AdminController.LoginAdminByHolder | controllers/adminController.js:17-43 | When no two admin documents share an email, the document holding it decides: no password key gives 500, a rejected password 401, and an accepted one 200 carrying that document without its password or 500 when signing fails. |
| AdminController.LoginStripsOnlyPassword | controllers/adminController.js:36-43 | A successful login returns the stored admin minus exactly its password. |
| AdminController.GetCurrentAdmin | controllers/adminController.js:51-59 | With no `req.admin`, or a malformed id, the reply is 500. Otherwise it is 200 with the admin without password, or null when none has the id. |
| AuthMiddleware.NoCookieFallback | middlewares/authMiddleware.js:12-14 | The token is the word after "Bearer ". A missing header or a bare "Bearer" gives no token. |
| AuthMiddleware.Resolve | middlewares/authMiddleware.js:26-31 | Lookup fails if and only if the id is present but malformed. Users are searched first: an id held by a user always resolves to that user, and employees are consulted only when no user has the id. A found identity is the document without password. Nothing found means neither collection holds the id. |
| AuthMiddleware.UserWins | middlewares/authMiddleware.js:26-31 | When a user has the id, the user is attached even if an employee also has it. |
| AuthMiddleware.Protect | middlewares/authMiddleware.js:8-48 | No token gives 401 "No token provided". A token that fails verification or lookup gives 401 "Token verification failed". An unknown id gives 401 "not found". Otherwise the identity is attached and the request proceeds. A refusal never changes `req.user`. |
| AuthMiddleware.VerifyReferral | middlewares/authMiddleware.js:53-79 | Only a POST to a users URL with a referral is checked. A malformed id gives 400 and an unknown one gives 404. A found employee is attached and the request proceeds. |
| AuthMiddleware.ReferralGate | middlewares/authMiddleware.js:54 | A POST to "/api/v1/users" is checked, and a GET to the same URL is not. |
| Http.Request.constructor | middlewares/authMiddleware.js:8-13 | A fresh request carries its method, URL, header, cookies and referral, with nothing attached. |
| AuthGuard.HeaderWins | middlewares/auth.js:9-16 | A well-formed Bearer header gives its token, whatever the cookies hold. |
| AuthGuard.BareBearerNoFallback | middlewares/auth.js:9-13 | A bare "Bearer" header gives no token, and the cookie is not consulted. |
| AuthGuard.CookieFallback | middlewares/auth.js:14-16 | Without a Bearer header the `token` cookie is used. With no cookie parser there is no token. |
| AuthGuard.ResolveUser | middlewares/auth.js:26 | An undefined id finds nothing. Lookup fails if and only if the id is present but malformed. A found user is in the collection with the id, and nothing found means no user has the id. |
| AuthGuard.Protect | middlewares/auth.js:6-38 | No token, a failed verification or a failed lookup passes on 401. An unknown id passes on 404. Otherwise the user is attached and the request proceeds. A refusal never changes `req.user`. |
| AuthGuard.Authorize | middlewares/auth.js:40-52 | No user gives 401. A user proceeds if and only if its role is one of the roles. Otherwise 403 names the role. |
| AuthGuard.AuthorizeAlwaysRefuses | middlewares/auth.js:45-48 | No schema declares a role, so every attached identity gets 403 "User role 'undefined' is not authorized". |
| LoginCodes.UnknownEmailByActor | controllers/subadminController.js:29-31 | An unknown email gives 401 for an employee but 404 for a subadmin or an admin. |
| LoginCodes.WrongPasswordByActor | controllers/adminController.js:23-26 | A known email with a wrong password gives 401 for a subadmin and for an admin. |
| Js.TrimIdempotent | models/User.js:8 | Trimming an already trimmed value changes nothing. |
| Js.ParseShowNat | controllers/employeeController.js:49 | `parseInt` reads back the decimal numeral of any natural number. |
| Rows.OnlyHolder | models/Employee.js:13 | Under a unique index, the document that holds a key is the only one that holds it. |
| Rows.WindowsTile | controllers/employeeController.js:55 | Two adjacent skip/limit windows of one limit together form the window of twice that limit that starts where the first does. |

## Left out

- **Case mapping and whitespace.** `toUpperCase`, `toLowerCase` and `trim` are modelled on ASCII letters and the common whitespace characters. Full Unicode case mapping and the full Unicode whitespace set are not.
- **Filter operators.** The rewrite of `gt|gte|lt|lte|in` into `$` operators (controllers/employeeController.js:30) is not modelled. How MongoDB evaluates a filter document is a parameter (`matches`). The same holds for a custom `sort` (`sortBy`).
- **`select`.** The `select` clause (controllers/employeeController.js:37-40) is not modelled. Its comma rewriting is the one proved for `sort`.
- **`populate`.** `populate` of `referredBy`, `referral` and `referredEmployees` is not modelled. Listings return the stored references.
- **Number types.** Ages, page numbers, limits and skips are exact integers. In JavaScript, `parseInt` and the page arithmetic work on IEEE doubles; that rounding, and a body that gives the age as a string or a float, are not modelled.
- **String lengths.** `minlength` and `maxlength` count the characters of a Dafny string. JavaScript counts UTF-16 code units, so text outside the Basic Multilingual Plane counts differently.
- **Dates.** A date in a body (a user's `createdAt`, an employee's `createdAt` and `lastLogin`) is taken as an already cast timestamp. A value that does not cast to a Date is not modelled.
- **Sort ties.** Newest-first listings order employees with equal creation times by a stable sort, so they keep natural order. MongoDB leaves the order of ties unspecified.
- **JSON.** JSON `null` in an update body, and body keys outside the schema, which strict mode drops, are not modelled.
- UserController.UpdateUser: an `_id` inside the update body is not modelled. The update patch has no `_id` path, so the model does not capture MongoDB refusing a change to the immutable `_id`.
- **Skip and limit edge cases.** A negative skip is passed on as the error the MongoDB server raises, without its exact wording or status. A negative limit is modelled as a window of its absolute value.
- **Error handler.** The application's error handler is not part of this model. It decides the status of a `next(err)` without a status.
- **Libraries.** bcrypt, jsonwebtoken and the two regular expressions are oracles in `Platform.Env`. Their internals (salting, expiry, signature format) are not modelled.
- **Clocks, randomness and new ids.** `Date.now()`, `Math.random()` and new ObjectIds are parameters.
- **Concurrency.** Two requests racing on the same email are not modelled. Each handler runs to completion on the state it starts with.
- **Not part of this model.** `server.js`, the route files (beyond which middleware is mounted where), `middlewares/async.js` and `adminscript.js`.
- **Admin model.** The admin model file is not part of this model. An admin document is a map of string fields looked up by `email` and `_id`.
- **Subadmin model.** `models/Subadmin.js` is modelled only as far as the handlers need: two required fields, unique email, and the password hashed on a new document. The `name` that registration passes is dropped, as in the strict schema.
- **Request bodies.** Subadmin and admin handlers take `email` and `password` as strings. A missing field in those bodies is not modelled.
- **500 bodies.** The `error` field of the subadmin handlers' 500 bodies is dropped. So is the console logging of the admin handlers.
- AdminController.LoginAdmin: the validation errors are a parameter. No validator is mounted on the admin routes, so the parameter is empty in this app. The model does not compute them.
- AdminController.LoginAdmin: a stored admin without a `password` field is answered 500, the error bcrypt throws. The model does not compute bcrypt's message.
- AdminController.GetCurrentAdmin: `req.admin` is never set, because no middleware is mounted on routes/adminRoutes.js:15. The model takes it as a parameter, and the 500 it causes is stated.
- EmployeeController.GetMyReferredEmployees: `protect` is not mounted on the employee routes (routes/employeeRoutes.js:16). The caller is a parameter, None when absent.
- AuthGuard.Protect: with no cookie parser mounted, `req.cookies` is undefined. The cookie is therefore a parameter, None in this app.

## Findings

| source | as written | input that shows it | evidently intended | confidence | as-written member | corrected member |
|---|---|---|---|---|---|---|
| models/User.js:64-71 | When the password is not modified, the hook calls `next()` without returning, so it goes on to hash the already hashed password in the document. | Save an existing user without changing its password. The document's hash is hashed again; the database receives the double hash on that save if the rehash wins the race with the write `next()` started, and on any later save otherwise, after which the original password no longer logs in. No handler here saves an existing user, so the defect is latent in this app. | Return after `next()`, and hash only a modified password, as the Employee and Subadmin hooks do. | not executed | UserModel.RehashBreaksLogin | UserModel.HashIfModifiedKeepsLogin |
