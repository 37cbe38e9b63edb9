# Mira resort-booking backend, modelled in Dafny

This project models the core of the Mira backend, an Express/MongoDB service for booking resorts. It covers:

- **Accounts** (`routes/users.js`, `models/User.js`): registration validates the form, hashes the password with bcrypt (10 rounds) and saves a user whose e-mail is unique. Login validates the form, finds the user by e-mail, compares the password, and issues a one-hour JSON Web Token signed with the fixed key `bezkoder-secret-key`.
- **The `authenticate` middleware** (`server.js`): it takes the second word of the `Authorization` header, verifies it as a token, loads the user it names, and then either calls `next` or answers 401 or 404.
- **Resort image uploads** (`server.js`): the directory name is sanitized, the five image fields are checked, and a resort is saved with its image paths and its moderator.
- **Bookings** (`routes/booking.js`): creating, listing, confirming and cancelling bookings, counting confirmed and pending ones, and the "top resorts" aggregation (confirmed bookings grouped by resort, sorted by count descending, at most three).

How the model is laid out:

- **Collections.** The MongoDB collections are sequences in insertion order. A document's id is its position.
- **State.** The stores the handlers change are classes: `Users.UserStore`, `Bookings.BookingLedger` and `Uploads.ResortCatalog`. One pass through the middleware is `Auth.Exchange`. Their methods state the whole new state.
- **Pure logic.** Validation, the token gate, the sanitizer and the aggregation pipeline are functions, proved against reference definitions and by lemmas.
- **Libraries** (bcrypt, jsonwebtoken, express-validator's `isEmail`):
  - they are parameters: values holding opaque functions;
  - the clock (`now`, `iat`) and the bcrypt salt are parameters too;
  - whatever a proof needs from a library is stated as a `requires` of that lemma, e.g. that `compare(p, hash(p))` holds or that a token verifies within its hour.

Modules:

| module | file |
|---|---|
| `Form`, `Http` | `common.dfy` |
| `UserModel` | `user_model.dfy` |
| `Crypto` | `crypto.dfy` |
| `Users` | `users.dfy` |
| `Auth`, `TokenFlow` | `auth.dfy` |
| `Uploads` | `uploads.dfy` |
| `Bookings` | `bookings.dfy` |
| `Reporting` | `reporting.dfy` |

## Model

| member | source | states |
|---|---|---|
| Form.Text | routes/users.js:12-19 | A validator sees an absent field as "". The text is non-empty exactly when the field is present and non-empty. |
| Form.OrElse | server.js:112 | Definition of `x \|\| fallback` on a body field. What callers rely on is stated by Uploads.UploadDir (the sanitized name or `Unnamed_Resort`) and Uploads.ResortCatalog.Upload (the saved name or "Unnamed Resort"). |
| UserModel.RoleName | models/User.js:7 | Every role's name is one of the three names of the schema's enum. |
| UserModel.ParseRole | models/User.js:7 | A string parses to a role exactly when it is one of "user", "admin", "moderator". Parsing a role's name gives back that role. |
| UserModel.RoleNameRoundTrip | models/User.js:7 | Role names and roles are in one-to-one correspondence. |
| UserModel.NewUser | models/User.js:3-10 | A new document: an absent role becomes "user"; a role outside the enum is refused; `isVerified` is false and there is no verification code. |
| UserModel.FindById | server.js:44 | `findById`: the user at that id, or none when the id is unknown. |
| UserModel.FindByEmail | routes/users.js:53 | `findOne({ email })`: the first user with that e-mail. The result is absent exactly when no user has it. |
| UserModel.FindByEmailUnique | models/User.js:5 | When e-mails are unique, `findOne` finds the one user with that e-mail. |
| Users.RegisterErrors | routes/users.js:12-24 | An error for each failing rule and none for a rule that holds, each with its own path and message (name, email, password length at least 6, role in the enum). The list is empty exactly when all four rules hold. |
| Users.LoginErrors | routes/users.js:42-48 | One error each for an invalid e-mail and an empty password. The list is empty exactly when both are fine. |
| Users.EmailOk | routes/users.js:13 | `isEmail()` on a field: the field is present and non-empty, and the e-mail check accepts it. |
| Users.ClaimsOf | routes/users.js:61-67 | Definition of the claims `/login` signs: the user's id, name, e-mail and role. That the gate recovers the logged-in user from them is stated by TokenFlow.IssuedTokenPassesGate. |
| Users.Login | routes/users.js:42-71 | Invalid input answers 400 with the error list. An unknown e-mail answers 400 "Invalid credentials", and so does a wrong password for a known one. The reply succeeds exactly when the input is valid, the user exists and the password matches. It then carries the token signed over the user's id, name, email and role with the fixed key for one hour, plus the role and id. |
| Users.UnknownEmailAndWrongPasswordAlike | routes/users.js:53-59 | An unknown e-mail and a wrong password get the same reply, so the answer does not reveal which accounts exist. |
| Users.UserStore.constructor | models/User.js:3-12 | The user collection starts empty with its invariants. |
| Users.UserStore.Register | routes/users.js:21-35 | Invalid input answers 400 and saves nothing. An e-mail already taken answers 500 (duplicate key) and saves nothing. Otherwise exactly one user is appended, with the next id, the bcrypt hash of the password (10 rounds) and the parsed role; the reply is 201 "User registered". Ids stay positions and e-mails stay unique. |
| Users.AppendFreshEmail | models/User.js:5 | Appending a user with an unseen e-mail keeps e-mails unique. |
| Users.RegisterFormLogsIn | routes/users.js:12-19 | A form that passes registration also passes login validation. |
| Users.LoginFindsUser | routes/users.js:53-71 | With unique e-mails, logging in with a stored user's e-mail and a matching password succeeds as that user. |
| Users.RegisterThenLogin | routes/users.js:26-71 | After a successful registration, logging in with the same e-mail and password succeeds as the new user with its role, provided bcrypt's compare accepts a password against its own hash. |
| Auth.FirstSpace | server.js:37 | In a string that holds a space: the position of a space with no space before it. |
| Auth.Split | server.js:37 | `split(' ')`: at least one part, and no part contains a space. |
| Auth.JoinSplit | server.js:37 | Joining the parts of a split with spaces gives back the header. |
| Auth.SplitJoin | server.js:37 | Splitting space-free parts joined with spaces gives back the parts. |
| Auth.TokenOf | server.js:37-40 | An absent header gives no token. A token is never empty and never contains a space. |
| Auth.NoSpaceNoToken | server.js:37-39 | A header without a space gives no token, so the answer is "No token provided". |
| Auth.SecondWord | server.js:37-39 | A header with a space is `w + " " + t + rest`, where `rest` is empty or starts at the next space. Its token is the second word `t`, and there is none when `t` is empty. |
| Auth.BearerToken | server.js:37 | `"Bearer " + t`, for a non-empty space-free `t`, yields the token `t`. |
| Auth.Verified | server.js:43 | Definition of `jwt.verify(token, 'bezkoder-secret-key')` on the header's token, or nothing when there is no token. Its consequences are stated by Auth.Gate and Auth.Exchange.Authenticate (401 when nothing verifies) and by TokenFlow.IssuedTokenPassesGate (a token from `/login` verifies within its hour). |
| Auth.Gate | server.js:36-52 | A missing token gives 401 "No token provided". A token that does not verify gives 401 "Unauthorized". A verified token naming no user gives 404 "User not found". The request goes through exactly when the token verifies and its user exists, and then as that stored user. |
| Auth.Exchange.constructor | server.js:36 | A request starts with no `req.user`, no response and `next` not called. |
| Auth.Exchange.Authenticate | server.js:36-52 | `next` runs exactly when the gate lets the request through, and the response is the gate's answer otherwise. `req.user` is assigned only after the token verifies, and it is then the result of looking up the token's id. |
| TokenFlow.IssuedTokenPassesGate | routes/users.js:61-70 | A token issued by login, sent as `Bearer <token>` within its hour, passes the middleware (server.js:43-48) as the user who logged in. This assumes jsonwebtoken verifies what it signed with the same key. |
| Uploads.Sanitize | server.js:66 | `replace(/[^a-zA-Z0-9]/g, '_')`: same length; letters and digits kept; every other character becomes `_`. The result holds only letters, digits and `_`. |
| Uploads.SanitizeIdempotent | server.js:66 | Sanitizing twice is sanitizing once. |
| Uploads.SanitizeFixedPoint | server.js:66 | A string is left unchanged exactly when it holds only letters, digits and `_`. |
| Uploads.DefaultDirNameIsClean | server.js:65 | The fallback directory name survives sanitizing. |
| Uploads.UploadDir | server.js:65-66 | The directory is the sanitized name, or `Unnamed_Resort` when the name is absent or empty. It is always a clean, non-empty segment. |
| Uploads.StorageDir | server.js:66 | `path.join('uploads', dir)`: the directory multer writes the files to. |
| Uploads.StorageDirIsClean | server.js:65-66 | Every upload directory sits directly under `uploads/`, and its name holds only letters, digits and `_`, so no name can escape `uploads/`. |
| Uploads.Fields | server.js:100-102 | The field names of the uploaded files, in order. |
| Uploads.MulterAccepts | server.js:81-87 | multer's `.fields()` with `maxCount: 1` accepts a file only under one of the five image fields, and only if no earlier file came under it. |
| Uploads.AllImagesPresent | server.js:102 | Each of the five image fields has a file. |
| Uploads.UploadRejection | server.js:81-104 | A file under any other field, or a second file under one field, is refused with "Unexpected field". Five accepted fields missing one image are refused with "All images are required". Otherwise there is no refusal. |
| Uploads.MulterAcceptsDistinct | server.js:81-87 | Files multer accepts come under distinct image fields. |
| Uploads.DistinctCard | server.js:81-87 | A sequence without repeats has as many elements as its set. |
| Uploads.AcceptedUploadHasFiveFiles | server.js:81-104 | An upload that is not refused has exactly five files, one per image field. |
| Uploads.ImagePathsAsWritten | server.js:107-109 | The paths as written: an absent name throws (no paths); otherwise one path per file. |
| Uploads.EmptyNameStorageDir | server.js:65-66 | With an empty name, multer stores the files under `uploads/Unnamed_Resort`. |
| Uploads.EmptyNameWrittenPath | server.js:108 | With an empty name, each recorded path is `/uploads//<file>`. |
| Uploads.EmptyNameStoredPath | server.js:65-66 | The public path of a file stored for an empty name is 14 characters longer than that. |
| Uploads.EmptyNamePathMismatch | server.js:108 | With an empty name, no recorded path names the stored file. |
| Uploads.ImagePaths | server.js:63-74 | Each recorded path is the public path of its file in the directory multer stored it in, one per file, in arrival order. |
| Uploads.ImagePathsAgreeWhenNamed | server.js:107-109 | Whenever the name is non-empty, these are exactly the paths server.js builds. |
| Uploads.ResortCatalog.constructor | server.js:111-121 | The resort collection starts empty. |
| Uploads.ResortCatalog.Upload | server.js:90-122 | A refused upload answers 400 with the refusal and saves nothing. Otherwise one resort is appended with the body's fields, the name or "Unnamed Resort", the image paths and the requester as moderator; it has five images and the reply is 200. |
| Bookings.WithStatus | routes/booking.js:93-94 | Setting one booking's status changes that booking's status and nothing else. |
| Bookings.LastTransitionWins | routes/booking.js:87-114 | Of two status changes to the same booking, the last one wins. |
| Bookings.TransitionIdempotent | routes/booking.js:87-114 | Confirming or cancelling twice is the same as doing it once. |
| Bookings.BookingLedger.constructor | routes/booking.js:52-66 | The booking collection starts empty, with the status new bookings receive. |
| Bookings.HasRequiredFields | routes/booking.js:45 | The user, resort, check-in date, check-out date and total cost are each present and non-empty. |
| Bookings.BookingLedger.Create | routes/booking.js:30-67 | A missing user, resort, check-in, check-out or total cost answers 400 "Required fields are missing" and saves nothing. Otherwise exactly one booking is appended with the next id, the form's fields, the screenshot file name if any and the default status; the reply is 201 with that booking. |
| Bookings.BookingLedger.List | routes/booking.js:75-78 | Answers 200 with every booking, in collection order, and changes nothing. |
| Bookings.BookingLedger.Transition | routes/booking.js:87-114 | An unknown id answers 404 "Booking not found" and changes nothing. Otherwise only that booking's status changes, and the reply is 200 with the updated booking. |
| Bookings.BookingLedger.Confirm | routes/booking.js:87-99 | The transition to `confirmed`. |
| Bookings.BookingLedger.Cancel | routes/booking.js:102-114 | The transition to `cancelled`. |
| Reporting.CountByStatus | routes/booking.js:119 | `countDocuments({ status })` is at most the number of bookings. |
| Reporting.CountIsCardinality | routes/booking.js:117-135 | The count is the number of bookings that have that status. |
| Reporting.CountAfterAppend | routes/booking.js:66 | Saving a new booking adds one to the count of its own status only. |
| Reporting.CountAfterTransition | routes/booking.js:87-114 | Confirming or cancelling moves one booking from its old status's count to the new one's. |
| Reporting.CountsPartition | routes/booking.js:117-135 | The pending, confirmed and cancelled counts add up to the number of bookings. |
| Reporting.MatchConfirmed | routes/booking.js:140 | `$match`: exactly the confirmed bookings, as many as the confirmed count. |
| Reporting.UnconfirmedBookingLeavesReport | routes/booking.js:139-149 | Adding a booking that is not confirmed leaves the top-resorts report unchanged. |
| Reporting.ConfirmedAfterTransition | routes/booking.js:87-114 | A status change alters a resort's confirmed count by one when the booking enters or leaves `confirmed`, and not otherwise. |
| Reporting.MatchThenCount | routes/booking.js:140-145 | After `$match`, a resort's number of documents is its number of confirmed bookings. |
| Reporting.Bump | routes/booking.js:144 | `$sum: 1` for one document: that resort's count goes up by one, others unchanged; resorts stay distinct and counts positive. |
| Reporting.Group | routes/booking.js:141-146 | `$group`: one entry per resort present, each with its number of documents; distinct resorts, positive counts. |
| Reporting.InsertPos | routes/booking.js:147 | The insertion point comes after every larger count and before the first count that is not larger. |
| Reporting.InsertAtPos | routes/booking.js:147 | Inserting there keeps the list sorted and adds exactly that entry. |
| Reporting.InsertAtSorted | routes/booking.js:147 | An entry placed after every larger count and before the first count that is not larger keeps a sorted list sorted. |
| Reporting.InsertMultiset | routes/booking.js:147 | Putting an entry at any position adds exactly that entry to the list's entries. |
| Reporting.Insert | routes/booking.js:147 | A sorted list with one more entry. |
| Reporting.SortByCount | routes/booking.js:147 | `$sort: { count: -1 }`: non-increasing counts, same entries (a permutation). |
| Reporting.SortKeepsIds | routes/booking.js:147 | Sorting keeps the entries and so the set of resorts. |
| Reporting.InsertKeepsDistinct | routes/booking.js:147 | Inserting a resort that is not yet listed keeps resorts distinct. |
| Reporting.SortKeepsDistinct | routes/booking.js:147 | Sorting keeps resorts distinct. |
| Reporting.GroupedCounts | routes/booking.js:139-146 | Every grouped entry carries its resort's confirmed bookings, at least one. |
| Reporting.TopResorts | routes/booking.js:139-149 | The aggregation: `$match`, then `$group`, then `$sort`, then `$limit`. The result has at most three entries, in non-increasing order of count. Reporting.TopResortsCorrect states what the entries are. |
| Reporting.TopIsPrefix | routes/booking.js:147-148 | `$limit: 3`: the report is the first (at most three) sorted entries. It is shorter than three only when there are fewer groups. |
| Reporting.TopCounts | routes/booking.js:139-148 | Each listed resort carries its number of confirmed bookings. |
| Reporting.TopLeftOut | routes/booking.js:139-148 | A resort with confirmed bookings is left out only when three resorts are listed, and it has no more bookings than the last of them. |
| Reporting.PastThePrefix | routes/booking.js:147-148 | An entry missing from a prefix of a sorted list lies past it and counts no more than its last entry. |
| Reporting.LocateResort | routes/booking.js:140-147 | A resort with confirmed bookings has an entry in the sorted groups. |
| Reporting.PrefixKeeps | routes/booking.js:148 | A prefix of a sorted list with distinct resorts is sorted and distinct. |
| Reporting.TopResortsCorrect | routes/booking.js:137-149 | The top resorts: at most three distinct resorts in non-increasing order of count, each with its confirmed bookings (at least one); every resort left out has no more confirmed bookings than the last listed. |

## Left out

- `routes/mailer.js` and e-mail verification. The verification fields are modelled only as their initial values.
- I/O is left out: multer's disk writes and `fs.mkdir`, the upload size limits, the screenshot and image file names built from `Date.now()`, the MongoDB connection, `populate` joins, the static file routes and `app.listen`.
  - File names are parameters.
  - A failure in storage or in a library throws. Those replies are not modelled, except for the duplicate e-mail on registration.
  - Most handlers answer such a throw with 500. In `authenticate`, any throw inside its `try` answers 401 "Unauthorized" (server.js:42-51). That includes a failing `User.findById`.
- Malformed ids are left out. An id is a natural number, and an unknown id is one out of range. Mongoose answers a malformed id with a `CastError`:
  - the booking routes answer it with 500;
  - `authenticate` catches it and answers 401 "Unauthorized" (server.js:44, 49-50).
- Request bodies are modelled as optional strings. Non-string JSON values and express-validator's sanitizing are left out.
- Strings are sequences of Dafny characters, and a Dafny character is a Unicode scalar value. JavaScript strings are sequences of UTF-16 code units. The two agree on every character of the Basic Multilingual Plane, but not beyond it.
- Uploads.Sanitize: a character outside the Basic Multilingual Plane becomes one `_`. The regex of server.js:66 has no `u` flag, so it matches each code unit of the surrogate pair and writes two.
- Users.RegisterErrors: the password length counts every character. validator.js's `isLength` (routes/users.js:15) counts a surrogate pair as one character, which agrees. In recent versions it also leaves out the variation selectors U+FE0E and U+FE0F, which the model counts.
- Uploads.ResortCatalog.Upload: assumes the multipart form sends `name` before the files, since multer reads `req.body.name` as each file arrives. It also follows the corrected image paths (see Findings), so an absent name yields `Unnamed_Resort` paths rather than the 500 of the code as written.
- Uploads.UploadRejection: multer's other errors (size limits, malformed multipart) and requests that are not multipart are not modelled.
- Auth.Exchange.Authenticate: a throw inside the `try` is not modelled, whether it comes from `next()` itself or from a failing `User.findById`. The source answers both with 401 "Unauthorized". In the model the user lookup always returns a result.
- Each handler is modelled as one atomic step. The model does not interleave the `await`s of concurrent requests, for instance two `/register` calls with the same e-mail, or the load-then-save of the PATCH handlers.
- `resortController`, `routes/admin.js` and the resort and booking Mongoose models are not part of this model. The default status of a new booking is a constructor parameter of `Bookings.BookingLedger`.
- UserModel.NewUser: the schema's default role "user" cannot be reached through `/register`. There, an absent role reads as "" and fails the role check with 400.
- Users.UserStore.Register: that no password is ever stored in plain text rests on bcrypt. The model only states that the stored value is `hash(password, 10, salt)`.
- Reporting.SortByCount: resorts with equal counts come out in the collection order of each resort's first confirmed booking. MongoDB leaves that order unspecified, so no lemma depends on it.

## Findings

| source | as written | input that shows it | evidently intended | confidence | as-written member | corrected member |
|---|---|---|---|---|---|---|
| server.js:108 | The image paths use `req.body.name` without the fallback applied at line 65. | An upload whose `name` is the empty string: multer stores the files in `uploads/Unnamed_Resort`, but the saved paths are `/uploads//<file>`. An absent `name` throws a TypeError after the files are stored, and the reply is 500. | The paths name the directory the files were stored in. | not executed | Uploads.EmptyNamePathMismatch | Uploads.ImagePathsAgreeWhenNamed |
