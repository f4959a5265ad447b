# Pet adoption: a verified model of the request rules

This project models the pet-adoption web application's request handling in
Dafny, and proves properties of that model. It covers:

- the main Express server (`server.js`): animal listing and lookup, the
  admin routes behind a shared secret, the adoption toggle, adoption
  applications, feedback, the newsletter, signup, login, a user's
  applications and profile update;
- the older server variant (`Pet-adopt/server.js`): an environment-only
  secret, a one-way "mark adopted" and an apply route that stores nothing;
- the client-side field validators `validateEmail` and `validateMobile`;
- the four Mongoose schemas `User`, `Animal`, `Application` and `Feedback`.

The data store is modelled as maps from ids to records. Each map is a field
of a class: `Server.Store` for the main server and
`LegacyServer.LegacyStore` for the variant. A clock counter stands in for
both `Date.now()` and freshly generated ObjectIds. Each route that changes
the store is a method. It states:

- the reply for every branch of the handler;
- the exact new contents of the maps;
- that the store invariant `Valid()` is kept. The invariant says every
  record is stored under its own id, ids are below the clock, every stored
  user, application and feedback record satisfies its schema, and user
  emails are unique. Stored animals need not satisfy their schema, because
  the update route writes them without validation
  (`AnimalModel.PatchBreaksValidity`).

Routes that only read the store are functions over its maps:
`Routes.Listing`, `Routes.GetAnimal`, `Server.Login` and
`Server.UserApplications`. So are the routes that store nothing:
`Routes.Newsletter` and `LegacyServer.LegacyApply`.

Modules, in dependency order:

- `JsValues`: request body values (`Missing`, `Null`, `Text`), JavaScript
  truthiness and `||`, `String.prototype.trim` and an ASCII `toLowerCase`.
- `ObjectIds`: ids and the 24-hex-digit strings that cast to them.
- `Passwords`: bcrypt idealised as a salted digest that is collision-free on
  its 72-character key.
- `Validation`: the two validators. Each regular expression is an explicit
  predicate with an existential over its split points.
- `AnimalModel`, `UserModel`, `ApplicationModel`, `FeedbackModel`: one
  record datatype plus a validity predicate per schema, and the document
  construction (setters, then validators) that `create` and `save` perform.
- `Documents`: `find` with a filter, `findOne`, and `sort({ createdAt: -1 })`.
- `Routes`: behaviour the two servers share.
- `Server`: the main server.
- `LegacyServer`: the older variant.

The model rests on these Mongoose behaviours:

- Schema setters (`trim`, `lowercase`) run on `create`, on `save` and on the
  values of a query filter. So the signup and login lookups compare the
  normalised email with the stored one, and the 409 of signup and the 401
  of login depend on that.
- `save()` validates every path of the loaded document, not only the changed
  ones. So toggling an animal whose stored fields break the schema answers
  500.
- `findByIdAndUpdate` runs no validators, so an update can store an animal
  that breaks the schema. Only the boolean cast of `adopted` can fail.
- Finding by an id string that is not 24 hex digits throws a cast error.

Points where the model shows behaviour the comments or messages suggest
otherwise:

- The mobile examples in the comment on `mobileRegex` are partly wrong.
  `+1 234 567 8900` and `+91 98765 43210` are rejected
  (`Validation.RejectsSpacedInternational`, `Validation.RejectsFiveDigitGroup`),
  while the other listed forms are accepted.
- A `.` separator is allowed by the pattern but always rejected earlier, by
  the "only digits" check (`Validation.MobileDotRejected`).
- Several inputs pass a handler's presence check but fail the schema, and
  then get a 500 "Server error" instead of a 400. Examples are a
  one-character or whitespace-only name, and a message over 1000
  characters. The exact conditions are stated by `Server.FeedbackDocumentAccepted`,
  `Server.FeedbackDocumentRefused`, `Server.SignupDocumentIff` and `Server.OneCharacterNameRefused`.
- In the older server, an unset `ADMIN_SECRET` lets every admin request that
  carries no secret through (`LegacyServer.UnsetSecretAdmitsAnyone`).
- The admin update copies the whole body (`{ ...req.body }`). So without an
  upload, a `photo` value in the body is written too, not only an uploaded
  file's path. The model follows the code here (`Routes.UpdatePatch`).

## Model

| member | source | states |
|---|---|---|
| JsValues.Or | server.js:71 | definition: `a \|\| b` on body values: the first operand when it is truthy, the second otherwise |
| JsValues.Trim | public/js/validation.js:12 | the result has no leading or trailing whitespace and is no longer than the input |
| JsValues.TrimEmptyIffWhitespace | public/js/validation.js:12 | `s.trim()` is empty exactly when `s` is all whitespace |
| JsValues.TrimIdempotent | models/User.js:7 | trimming twice is trimming once |
| JsValues.TrimPadded | public/js/validation.js:15 | whitespace added around a string does not change its trimmed form |
| JsValues.LowerIdempotent | models/User.js:15 | lowercasing twice is lowercasing once |
| JsValues.LowerTrimCommute | server.js:187 | lowercasing and trimming commute |
| JsValues.TrimOrAbsent | server.js:224-225 | `v?.trim() \|\| undefined` is absent for a missing or blank value, and otherwise the non-empty trimmed string |
| ObjectIds.ParseObjectId | server.js:60 | a string casts to an id exactly when it is 24 hex digits |
| ObjectIds.ObjectIdString | server.js:355 | an id prints as 24 lower-case hex digits |
| ObjectIds.ParsePrinted | server.js:355 | parsing an id's printed form gives the id back |
| ObjectIds.PrintParsed | server.js:60 | printing a parsed string gives that string in lower case |
| ObjectIds.SameIdIffSameLowercase | server.js:60 | two id strings denote the same id exactly when they agree ignoring letter case |
| Passwords.Key | server.js:218 | bcrypt reads at most 72 characters: the key is a prefix of the password, and the whole password when it is short enough |
| Passwords.Hash | server.js:217-218 | a fresh hash verifies against its own password and carries its salt |
| Passwords.VerifyHashIff | server.js:257 | an attempt matches a hash exactly when its first 72 characters equal the password's |
| Passwords.ShortPasswordsDistinguished | server.js:257 | two different passwords of at most 72 characters never match each other's hash |
| Passwords.LongPasswordsTruncated | server.js:257 | long passwords sharing their first 72 characters match each other's hash |
| Validation.EmailRegex | public/js/validation.js:4 | definition: the email pattern, as an `@` and a `.` split point with non-empty runs of non-space, non-`@` characters around them |
| Validation.MobileRegex | public/js/validation.js:8 | definition: the mobile pattern, as split points for the optional `+`, two groups of 1 to 4 digits, each with an optional `(` before and `)` after and followed by an optional `-`, whitespace character or `.`, and a last run of 1 to 9 digits |
| Validation.EmailRegexIffWellFormed | public/js/validation.js:4 | the email pattern matches exactly the strings with no whitespace, a single `@` with text before it, and a `.` after it with text on both sides |
| Validation.ValidateEmail | public/js/validation.js:11-19 | an invalid verdict carries one of the two email messages |
| Validation.EmailRequiredIffBlank | public/js/validation.js:12-14 | "Email is required" exactly for empty or whitespace-only input |
| Validation.EmailValidIffWellFormed | public/js/validation.js:15-18 | valid exactly when the trimmed input is a well-formed address |
| Validation.EmailVerdictOfTrimmed | public/js/validation.js:12-15 | the verdict depends only on the trimmed input |
| Validation.EmailPaddingInvariant | public/js/validation.js:12-15 | surrounding whitespace never changes the verdict |
| Validation.StripFormatting | public/js/validation.js:29 | the result has no whitespace, `-`, `(`, `)` or `+` and is no longer than the input |
| Validation.StripAllDigitsIff | public/js/validation.js:29-32 | the stripped string is all digits exactly when every input character is a digit or a formatting character |
| Validation.StripEmptyIff | public/js/validation.js:29-32 | the stripped string is empty exactly when the input is only formatting characters |
| Validation.ValidateMobile | public/js/validation.js:22-46 | an invalid verdict carries one of the three mobile messages |
| Validation.MobileBlankValid | public/js/validation.js:24-26 | empty or whitespace-only input is valid |
| Validation.MobileDigitsOnlyIff | public/js/validation.js:29-34 | the "only digits" message exactly when the input is not blank and either holds a character that is neither a digit nor formatting, or holds no digit at all |
| Validation.MobileDotRejected | public/js/validation.js:29-34 | any input with a `.` gets the "only digits" message, although the pattern allows `.` separators |
| Validation.MobileLengthIff | public/js/validation.js:36-38 | the length message exactly when the input passes the digit check and strips to fewer than 7 or more than 15 digits |
| Validation.MobileValidIff | public/js/validation.js:24-45 | valid exactly when the input is blank, or it strips to 7 to 15 digits and its trimmed form matches the pattern |
| Validation.VerdictOfTrimmedNumber | public/js/validation.js:41-45 | for a trimmed input of 7 to 15 digits, the pattern alone decides between valid and the pattern message |
| Validation.GroupOfDigits | public/js/validation.js:8 | a run of plain digits is a pattern group exactly when it has 1 to 4 digits |
| Validation.ThreeSeparatorsRejected | public/js/validation.js:8 | the pattern admits at most two separators |
| Validation.LongFramedRunRejected | public/js/validation.js:8 | more than four digits between two separators never match the pattern |
| Validation.AcceptsParenthesised | public/js/validation.js:7 | `(123) 456-7890` is valid |
| Validation.AcceptsDashed | public/js/validation.js:7 | `123-456-7890` is valid |
| Validation.AcceptsPlain | public/js/validation.js:7 | `1234567890` is valid |
| Validation.RejectsSpacedInternational | public/js/validation.js:7-8 | `+1 234 567 8900`, listed as accepted in the comment, gets the pattern message |
| Validation.RejectsFiveDigitGroup | public/js/validation.js:7-8 | `+91 98765 43210`, listed as accepted in the comment, gets the pattern message |
| AnimalModel.AnimalValid | models/Animal.js:5-6 | definition: the Animal validators: a non-empty name and, when set, a type from the enum |
| AnimalModel.CreateAnimal | models/Animal.js:4-14 | create succeeds exactly when the name is a non-empty string and any given type is `dog`, `cat` or `other`; the new record is valid, has the type `dog` by default, is not adopted, carries the new id and clock time, and copies the other fields |
| AnimalModel.DefaultKindIsDog | models/Animal.js:6 | an animal created without a type has the type `dog` |
| AnimalModel.CastBoolean | models/Animal.js:12 | definition: Mongoose's boolean cast: true for `true`, `1`, `yes`, false for `false`, `0`, `no`, a cast failure otherwise |
| AnimalModel.SetPath | server.js:92-94 | definition: an update leaves a path unset in the body unchanged, clears it for null and sets it for a string |
| AnimalModel.ApplyPatch | server.js:94 | `findByIdAndUpdate` without validators: fails only when `adopted` does not cast; keeps id and createdAt; sets every other path as `SetPath` says |
| AnimalModel.EmptyPatchIdentity | server.js:92-94 | an update with an empty body changes nothing |
| AnimalModel.PatchBreaksValidity | server.js:94 | since no validators run, an update can store an empty name and a type outside the enum |
| UserModel.UserValid | models/User.js:5-32 | definition: the User validators on stored values: trimmed name of 2 to 100 characters, non-empty trimmed lowercase email, optional trimmed mobile of at most 20 and address of at most 500 characters |
| UserModel.EmailsUnique | models/User.js:17 | definition: the `unique` index: no two stored users share an email |
| UserModel.NormalEmail | models/User.js:12-16 | the stored email is trimmed and lower case |
| UserModel.NormalEmailOfLower | server.js:212 | lowercasing the email first, as the handlers do, does not change the stored email |
| UserModel.NormalEmailOfNormal | models/User.js:12-16 | a stored email is its own normal form |
| UserModel.TrimOption | models/User.js:23-32 | definition: an optional path is trimmed when present and stays absent when absent |
| UserModel.UserDocument | models/User.js:3-37 | create or save succeeds exactly when the trimmed name has 2 to 100 characters, the email is not blank, mobile trims to at most 20 and address to at most 500 characters; the stored user is valid and holds the trimmed and lowercased values |
| UserModel.LowerWhitespaceIff | models/User.js:12-16 | the email is blank after lowercasing exactly when it was blank before |
| UserModel.SaveValidUser | models/User.js:3-37 | saving a valid user stores it unchanged |
| ApplicationModel.ApplicationValid | models/Application.js:15-29 | definition: the Application validators on stored values: non-empty trimmed name, non-empty trimmed lowercase email, trimmed message when set |
| ApplicationModel.TrimmedField | models/Application.js:26-29 | definition: the optional message is trimmed when it is a string and absent otherwise |
| ApplicationModel.ApplicationDocument | models/Application.js:3-34 | create succeeds exactly when the animal id casts and name and email are not blank; the record is valid, keeps the optional user ref, and holds the trimmed name, the trimmed lowercased email and the trimmed message |
| FeedbackModel.FeedbackValid | models/Feedback.js:5-24 | definition: the Feedback validators on stored values: trimmed name of 2 to 100 characters, non-empty trimmed lowercase email, non-empty trimmed message of at most 1000 characters |
| FeedbackModel.FeedbackDocument | models/Feedback.js:3-28 | create succeeds exactly when the trimmed name has 2 to 100 characters, email and message are not blank and the trimmed message has at most 1000 characters; the record is valid and holds the trimmed values with the email lowercased |
| FeedbackModel.HandlerValuesSettle | server.js:185-189 | the values the handler has already trimmed and lowercased come out of the schema setters unchanged |
| Documents.IdsBelow | server.js:50 | enumerates exactly the collection's ids below the clock, in increasing order |
| Documents.Select | server.js:50 | `find` with a filter: every result is a stored document at an enumerated id passing the filter; every such document is in the result; over increasing ids of a collection whose documents carry their own ids, no document is returned twice |
| Documents.DistinctPermutation | server.js:50 | sorting a list without repeats leaves it without repeats |
| Documents.FindFirst | server.js:212 | `findOne`: a found id is enumerated, stored and passes the filter; no result means no enumerated document passes |
| Documents.InsertByTime | server.js:50 | inserting into a newest-first list keeps it newest first and adds exactly the one element |
| Documents.SortNewestFirst | server.js:50 | `sort({ createdAt: -1 })`: a permutation of the input ordered by non-increasing time |
| Routes.MatchesType | server.js:47-49 | definition: the type filter applies only when the query value is truthy, and then requires that type |
| Routes.Listing | server.js:45-55 | `GET /api/animals`: only stored animals of the queried type are listed; every such animal is listed; the list is newest first; when each animal is stored under its own id, none is listed twice |
| Routes.ListedOnce | server.js:47-51 | when each animal is stored under its own id, every stored animal of the queried type occurs exactly once in the list |
| Routes.ListingUnfiltered | server.js:47-49 | without a truthy type query every stored animal is listed |
| Routes.ListingExcludesOtherTypes | server.js:49-50 | with a type query no animal of another type is listed |
| Routes.GetAnimal | server.js:58-64 | 400 "invalid id" exactly when the id does not cast, 404 exactly when no animal has it, and the stored animal otherwise |
| Routes.GetAnimalByPrintedId | server.js:60-62 | looking up an animal by its printed id, in either letter case, returns it |
| Routes.Newsletter | server.js:170-175 | 400 "missing email" exactly when the email is not truthy, `{ ok: true }` otherwise |
| Routes.UploadPath | server.js:81 | definition: an upload is served under `/uploads/` followed by its file name |
| Routes.FormValue | server.js:74-82 | definition: a body value reaches `Animal.create` exactly when it is a string |
| Routes.CreateForm | server.js:74-82 | the create payload copies each body field; the photo is the upload's path when a file came and the body's photo otherwise |
| Routes.UpdatePatch | server.js:92-93 | the update is the whole body, with the photo replaced by the upload's path when a file came |
| Server.AdminSecret | server.js:67 | the secret is the environment value when it is non-empty and `supersecret` otherwise, so it is never empty |
| Server.Authorized | server.js:71-72 | a truthy header alone decides; otherwise the body secret must equal the admin secret |
| Server.NoSecretRefused | server.js:67-72 | a request with neither header nor body secret is always refused |
| Server.Toggled | server.js:107-109 | the new flag is the negation of "adopted is true", so unset counts as false; nothing else changes |
| Server.ToggleTwiceFromAvailable | server.js:107-110 | two toggles on an animal that is not adopted leave it not adopted, with the flag false |
| Server.ToggleTwiceIdentity | server.js:107-110 | two toggles on an animal with a set flag restore it |
| Server.ToggleKeepsValidity | server.js:108-110 | a toggle neither creates nor repairs a schema violation |
| Server.OrNull | server.js:234-235 | definition: `v \|\| null`: absent for an absent or empty value, the value otherwise |
| Server.SafeUserOf | server.js:228-236 | definition: the user projection: id, name and email copied; mobile and address through `\|\| null` |
| Server.SafeUserHidesSecrets | server.js:262-270 | the projection does not depend on the password hash or the timestamps |
| Server.FindByEmail | server.js:212 | finds a user whose stored email is the request email's normal form, or shows that none exists |
| Server.FindByEmailIff | server.js:212-215 | the lookup with the lowercased email succeeds exactly when the email is taken |
| Server.InsertKeepsEmailsUnique | models/User.js:17 | adding a user whose email no one has keeps emails unique |
| Server.Login | server.js:245-276 | 400 exactly when email or password is missing; every other failure is the single 401 "Invalid email or password"; an untaken email gets that 401; success is a 200 with a stored user of that email whose hash verifies |
| Server.LoginSucceedsIff | server.js:252-271 | with unique emails, login succeeds exactly when a stored user has the email and a hash the password verifies against, and then returns that user's projection |
| Server.LoginAfterSignup | server.js:252-271 | a stored user can log in with the email and password it signed up with |
| Server.ResolveApplicant | server.js:137-148 | a truthy user id that does not cast fails the request; a resolved user supplies name, email and the ref; otherwise the body values are used with no ref |
| Server.ResolvedApplicantHasDetails | server.js:141-152 | a resolved valid user always passes the "missing user details" check |
| Server.FeedbackDocumentAccepted | server.js:185-195 | the handler's trimmed values are stored when the trimmed name has 2 to 100 characters, email and message are not blank and the message has at most 1000 characters |
| Server.FeedbackDocumentRefused | server.js:185-198 | in every other case the schema refuses the handler's values, so the route answers 500 |
| Server.SignupDocumentIff | server.js:220-240 | for the handler's values, the schema fails, and the route returns 500, exactly when the trimmed name is outside 2 to 100 characters or mobile or address is too long |
| Server.OneCharacterNameRefused | models/User.js:9 | a one-character name passes the presence check but never the schema |
| Server.ViewOf | server.js:301-313 | definition: an application's projection: id, createdAt and message; the animal's id, name, type and breed when the reference resolves, null otherwise |
| Server.Views | server.js:301 | definition: `applications.map(...)`: one projection per application, in order |
| Server.ApplicationsOf | server.js:287-313 | newest first; every entry projects an application of that user; every application of that user is projected; when each application is stored under its own id, no entry occurs twice |
| Server.DistinctViews | server.js:301-313 | distinct applications stored under their own ids have distinct projections, since a projection carries the id |
| Server.SortedViews | server.js:289-301 | projecting keeps the newest-first order |
| Server.ViewsOfSelection | server.js:287-313 | projecting a permutation of the selected applications yields exactly their projections |
| Server.UserApplications | server.js:279-319 | 500 exactly when the id does not cast, 404 exactly when no user has it, otherwise 200 with the user's projection and their applications |
| Server.SetOptional | server.js:343-348 | `undefined` leaves a field unchanged; null or a blank string clears it; otherwise it is stored trimmed |
| Server.ProfileEdit | server.js:341-350 | the edited user keeps id, hash and creation time; for a valid user, save succeeds exactly when the trimmed name has 2 to 100 characters and mobile and address fit, and the result holds the trimmed name and the edited fields |
| Server.ProfileEditKeepsIdentity | server.js:341-350 | a successful profile edit of a stored user keeps its id, email and password hash |
| Server.Store.constructor | server.js:67 | an empty valid store with the configured admin secret |
| Server.Store.InsertAnimal | models/Animal.js:4-14 | a valid animal under a fresh id is stored and the clock advances; the invariant holds |
| Server.Store.ReplaceAnimal | models/Animal.js:4-14 | an existing animal is replaced and nothing else changes |
| Server.Store.InsertUser | models/User.js:17 | a valid user with an unused email is stored under a fresh id, keeping emails unique |
| Server.Store.ReplaceUser | models/User.js:3-37 | a user is replaced by a valid user with the same email |
| Server.Store.InsertApplication | models/Application.js:3-34 | a valid application is stored under a fresh id |
| Server.Store.InsertFeedback | models/Feedback.js:3-28 | a valid feedback record is stored under a fresh id |
| Server.Store.AddAnimal | server.js:70-85 | 401 and no change without the secret; otherwise the created animal is stored under a fresh id and returned, or the request is unanswered when create fails |
| Server.Store.UpdateAnimal | server.js:88-96 | 401 without the secret; an id that does not cast leaves the request unanswered; null for an unknown id; otherwise the patched animal is stored and returned |
| Server.Store.ToggleAdopted | server.js:99-129 | 401 without the secret; 500 for an id that does not cast; 404 for an unknown id; 500 when saving fails the schema; otherwise the toggled animal is stored and returned with a boolean flag |
| Server.Store.Apply | server.js:132-167 | 400 for a missing animal id; 500 for an invalid user id; 400 for missing details; 500 when the schema fails; otherwise exactly one application is stored, with the resolved name, email and ref |
| Server.Store.SubmitFeedback | server.js:178-200 | 400 unless name, email and message are truthy; 500 exactly when the schema fails; otherwise 201 and the trimmed, lowercased record is stored |
| Server.Store.Signup | server.js:205-242 | 400 for a missing field; 409 with no change exactly when the email is taken; 500 when the schema fails; otherwise 201 with the new user's projection, and that user can then log in |
| Server.Store.UpdateProfile | server.js:322-366 | 400 for an invalid id before the name rule; 400 for a short name; 404 for an unknown user; 500 when save fails; otherwise 200 with the edited user; emails and hashes never change |
| LegacyServer.LegacyAuthorized | Pet-adopt/server.js:68-69 | compares with the environment value; with it unset, exactly the requests with no secret pass |
| LegacyServer.UnsetSecretAdmitsAnyone | Pet-adopt/server.js:68-69 | with the variable unset, a request with no secret is authorised |
| LegacyServer.SetSecretAsMainServer | Pet-adopt/server.js:68-69 | with a non-empty value set, the gate is the main server's |
| LegacyServer.Marked | Pet-adopt/server.js:100 | the flag becomes true and nothing else changes |
| LegacyServer.MarkIdempotent | Pet-adopt/server.js:100 | marking twice is marking once |
| LegacyServer.LegacyApply | Pet-adopt/server.js:105-115 | 400 "missing fields" exactly unless animal id, name and email are all truthy; nothing is stored |
| LegacyServer.LegacyStore.constructor | Pet-adopt/server.js:69 | an empty store reading the secret from the environment |
| LegacyServer.LegacyStore.AddAnimal | Pet-adopt/server.js:67-82 | 401 without the secret; otherwise the created animal is stored and returned, or the request is unanswered |
| LegacyServer.LegacyStore.UpdateAnimal | Pet-adopt/server.js:85-93 | as in the main server, behind the environment-only gate |
| LegacyServer.LegacyStore.MarkAdopted | Pet-adopt/server.js:96-102 | 401 without the secret; unanswered for an id that does not cast; null for an unknown id; otherwise the animal with the flag true is stored and returned |

## Left out

- Timestamps: `updatedAt` is not modelled. `createdAt` comes from the clock counter, not the wall clock. Sort order between records with equal `createdAt` is not stated.
- Ids: a new document's id is `ObjectId(clock)`. `ObjectId.isValid` is modelled as "24 hex digits", so its acceptance of 12-character strings is not modelled.
- Body values: only absent, null and string values are modelled. Numbers, booleans, arrays and objects in a JSON body are not.
- Routes.FormValue: a JSON null passed to `Animal.create` is treated like an absent value.
- Routes.UpdatePatch: keys outside the Animal schema, and `_id` or `createdAt` keys in an update body, are not modelled.
- Strings: lengths count characters, not UTF-16 code units. Case mapping is ASCII only. bcrypt's 72-byte limit is modelled as 72 characters.
- Passwords.Hash: bcrypt is idealised as collision-free on its 72-character key: two passwords verify alike exactly when their first 72 characters agree. Its cost factor and the real hash function are not modelled. The salt (`genSalt`) is a parameter of `Server.Store.Signup`, because it comes from randomness.
- Documents.Select: no repeats are promised only for collections whose documents carry their own ids (`Injective`), which the store invariant guarantees; over an arbitrary map the result is not pinned beyond membership.
- `populate('animal')`: it is resolved against the animal map.
- Unhandled rejections: a rejected promise outside any `try` (create and update of animals, legacy mark-adopted) is the `Unhandled` reply. Express's behaviour after that is not modelled.
- Database failures: connection errors and any failure other than a cast or validation error are not modelled. Neither is the `details` text of a 500.
- Uploads: multer storage, the generated file name, static serving and the `*` catch-all are not modelled. The upload's file name is a parameter. The upload happening before the secret check is not modelled.
- Concurrency: requests run one at a time. The toggle's lost-update race and the race between the signup email check and the unique index are not modelled.
- Logging: `console.log` and `console.error` calls are not modelled.
- Client code: the DOM helpers of `public/js/validation.js` (`addInputValidation` and its wiring, lines 49-109) and the page scripts (`auth.js`, `app.js`, `admin.js`, `adopt.js` and their `Pet-adopt/public/js/` copies) are not part of this model. They are browser plumbing whose checks repeat the server's.
