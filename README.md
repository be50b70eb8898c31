# VIS School Management System — a verified model of the API core

The server of the VIS School Management System is an Express application over
MongoDB. Teachers and students keep chapters and questions. An admin keeps
the taxonomy those refer to: subjects, grades (a name plus a list of subject
ids) and question types. Users register and log in, and every protected
request carries a JSON Web Token, in the `accessToken` cookie or in the
`Authorization` header. On the client, a Redux slice remembers who is signed
in.

This project models, in Dafny:

- the request handlers of the chapter, question, grade, subject, question
  type and user controllers;
- the `verifyJWT` and `verifyAdmin` middleware;
- the `ApiError` and `ApiResponse` envelopes and the error-handling
  middleware;
- the client's `authSlice` reducers.

## How it is modelled

- A handler is either a function returning a `Reply`, or a method on the
  `Database.Store` class. A `Reply` is a JSON response with its status, or
  the failure the handler throws.
- A handler that reads only is a function. A handler that writes changes
  only the one collection it touches: its `modifies` clause names that one
  field of the store.
- Each collection is a `Tables.Table`. It holds documents by id, their
  insertion order and a counter. The counter stands in for the `createdAt`
  timestamp, so "sort by `createdAt` descending" becomes "newest inserted
  first". Each table's invariant is `Valid`, and the store's invariant keeps
  natural keys unique: chapter key per creator, question text, user email,
  grade name, subject name and question-type name.
- The question handlers and `addGrade` list their validation steps as
  `Check`s in source order. `Envelope.FirstFailure` is the error such an
  early-exit chain throws, and each of these handlers is proved to throw
  exactly `FirstFailure` of its list. The other handlers check through a
  `Result` function (`CheckAdd`, `CheckUpdate`, `Guard`, `CheckNamed`,
  `CheckRegister`, `CheckLogin`) whose ensures state each step's failure in
  source order. Every writing handler is proved to write exactly the
  documented record when its checks pass, and nothing otherwise.
- Foreign code is held abstract in `Records.Env`:
  `mongoose.Types.ObjectId.isValid`, `bcrypt.hash` and `bcrypt.compare`,
  `jwt.sign` and `jwt.verify`, and the message of the cast error
  `findById` raises for a malformed id.
- A new document's id is a parameter of the writing method. The method
  requires the id to be fresh and well formed.
- An error that is not an `ApiError` is `Failure.Internal`. That covers a
  Mongoose validation error, bcrypt's argument error and a cast error. The
  error handler answers such an error with 500.
- JavaScript's `trim` is `Strings.Trim`, which removes ECMAScript white
  space and line terminators. A string is "truthy" when it is present and
  non-empty (`Values.Given`).

Where the code behaves otherwise than its declarations or its comments
suggest, the model follows the code:

- The user schema's role enum is `admin | user`, with default `user`. The
  client's `User` type expects `admin | teacher | student`. The model keeps
  both, each where it is used.
- Chapter uniqueness is scoped to the creator when a chapter is added: the
  key is (grade, subject, chapter name, creator). When a chapter is updated,
  the check is global: (grade, subject, chapter name) against every other
  chapter. `ChapterController.CheckAdd` and `ChapterController.CheckUpdate`
  state both rules, and `ChapterController.CreateScopedToCreator` shows the
  create-side scope.
- `addQuestion` checks for a duplicate text (409) before it checks the
  requester (401).
- `registerUser` refuses only fields that are present and blank. A request
  without an email looks up `{ email: undefined }`. Mongoose drops the
  `undefined` value, so the query is `findOne({})`: once any user is
  stored, the request gets the 409 "User with email or username already
  exists" (`UserController.MissingEmailConflicts`). While no user is
  stored, it fails in the schema's `required` validator with a 500, not
  with 400 (`UserController.EmptyRegistrationReachesSchema`).
- `addGrade` does not refuse a name that is blank after trimming. The
  schema's `required` validator rejects that name at save time, with a 500,
  after the subject checks have passed.
- The grade schema declares `subjects` as plain strings with no `ref`. So
  `populate('subjects')` leaves the ids in place, and a grade is answered
  with the ids as stored.
- A login's comparison of a missing password makes bcrypt throw, which gives
  a 500. Any failure inside `getAccessToken` becomes a 401.
- `questionType.model.ts` exports its model as `Question` and registers it
  under the model name 'Question' (server/src/models/questions/questionType.model.ts:23).
  That is the name `question.model.ts` registers too. The question and
  question type controllers import a `QuestionType` export, which the file
  does not have. As written, the question-type lookups would fail, or the
  build would. The model assumes the separate question-type collection the
  controllers intend: `Database.Store.questionTypes`.
- The chapter schema has no `createdBy` path, although the controller writes
  one and reads it back. The model keeps the controller's view: every
  chapter records its creator.
- `getChapterById` runs `populate('createdBy')` before the ownership test
  (server/src/controlllers/chapter.controller.ts:92-99). If `createdBy` were
  the declared reference to a user, `toString()` of the populated user would
  print the whole document rather than its id. A non-admin owner would then
  get 403. With the schema as written (no `createdBy` path) the populate or
  the `toString` fails, and the answer is 500. `ChapterController.GetChapterById`
  models the rule the handler's comment states at line 79 instead: it
  compares the creator's id with the requester's id and answers 200 to the
  owner or an admin.

## Model

| member | source | states |
|---|---|---|
| Strings.TrimSpec | server/src/controlllers/chapter.controller.ts:18 | `trim` returns the slice after the leading and before the trailing white space; the result neither starts nor ends with white space, and it is empty exactly when the input is all white space |
| Strings.TrimOfPadded | server/src/middlewares/auth.middleware.ts:21-23 | trimming white space padding on both sides of a string that is already trimmed gives that string back |
| Strings.TrimIdempotent | server/src/controlllers/chapter.controller.ts:41-46 | trimming a trimmed value again changes nothing, so a stored trimmed value is what a later lookup by the trimmed input finds |
| Strings.TrimOrClear | server/src/controlllers/chapter.controller.ts:205 | a blank optional field clears the stored value, and any other value is stored trimmed and non-empty |
| Strings.TrimIfGiven | server/src/controlllers/question.controller.ts:79 | a present, non-empty optional value is stored trimmed, and an absent or empty one is left unset |
| Envelope.NewApiError | server/src/utils/ApiError.ts:15-31 | an `ApiError` keeps its status code, defaults its message to "Something went wrong" and its errors to empty, never reports success, and keeps a supplied stack or else captures one |
| Envelope.NewApiResponse | server/src/utils/ApiResponse.ts:14-19 | an `ApiResponse` keeps its status code and data, defaults its message to "Success", and reports success exactly when the code is below 400 |
| Envelope.Fail | server/src/utils/ApiError.ts:15-31 | the two-argument `throw new ApiError(code, message)` is an API error with that code and message, no errors, no success and a captured stack |
| Envelope.FirstFailure | server/src/controlllers/question.controller.ts:17-74 | a chain of early exits throws nothing exactly when every step passes; otherwise it throws the failure of a step that did not pass |
| Envelope.FirstFailureAt | server/src/controlllers/question.controller.ts:27-39 | when every step before `k` passes and step `k` fails, the chain throws step `k`'s failure |
| Envelope.FirstFailureAppend | server/src/controlllers/question.controller.ts:17-74 | running two chains one after the other throws what the first throws, or else what the second throws |
| Envelope.Send | server/src/utils/ApiResponse.ts:14-19 | a response sent with a code below 400 has the given HTTP status, code and data, and reports success |
| Envelope.HandleError | server/src/middlewares/errorHandler.middleware.ts:4-15 | the status is an `ApiError`'s own code and 500 for any other error; the body repeats the status, never reports success, carries the error's message or "Internal Server Error" when that is empty, and carries the stack exactly when `NODE_ENV` is "development" |
| Tables.Table.Keys | server/src/controlllers/subject.controller.ts:20-24 | a key is among the stored keys exactly when a `findOne` by that key finds a document |
| Tables.Table.NewestFirst | server/src/controlllers/chapter.controller.ts:66-72 | `find(filter).sort({ createdAt: -1 })` lists every stored document matching the filter, only those, exactly as stored, with strictly decreasing creation stamps |
| Tables.Table.SelectSound | server/src/controlllers/chapter.controller.ts:66-72 | every listed document is a stored one that matches the filter |
| Tables.Table.SelectComplete | server/src/controlllers/chapter.controller.ts:66-72 | every stored document that matches the filter is listed |
| Tables.Table.SelectDescending | server/src/controlllers/chapter.controller.ts:66-72 | walking the insertion order backwards lists documents newest first |
| Tables.Table.InsertValid | server/src/controlllers/chapter.controller.ts:48 | saving a document under a fresh id keeps the collection's invariant: ids match their documents, the order lists exactly the stored ids, and stamps increase along it |
| Tables.Table.ReplaceValid | server/src/controlllers/chapter.controller.ts:227-231 | `findByIdAndUpdate` on a stored id keeps the collection's invariant |
| Tables.Table.RemoveValid | server/src/controlllers/chapter.controller.ts:267 | `findByIdAndDelete` keeps the invariant: the remaining order is still oldest to newest |
| Tables.Table.InsertUnique | server/src/controlllers/chapter.controller.ts:28-48 | inserting a record whose key no stored document has keeps the key unique |
| Tables.Table.ReplaceUnique | server/src/controlllers/chapter.controller.ts:208-231 | replacing a record with one whose key no other document has keeps the key unique |
| Tables.Table.RemoveUnique | server/src/controlllers/chapter.controller.ts:267 | deleting a document keeps every key unique |
| Tables.Without | server/src/controlllers/chapter.controller.ts:267 | removing an id from the insertion order keeps exactly the other ids |
| Tables.WithoutSubsequence | server/src/controlllers/chapter.controller.ts:267 | removing an id from the insertion order keeps the others in their order |
| Records.ProfileOf | server/src/middlewares/auth.middleware.ts:33 | `select("-password ...")` keeps the id, names, email and role, never the password hash, and the access token only when it is not also excluded |
| Database.Store.constructor | server/src/db/index.ts:5-13 | the model's starting state: every collection empty and valid; the handlers' contracts hold from any valid state, so nothing relies on this one |
| Database.Store.InsertChapter | server/src/controlllers/chapter.controller.ts:40-48 | saving a chapter inserts exactly it and keeps the store valid, with the per-creator key unique |
| Database.Store.ReplaceChapter | server/src/controlllers/chapter.controller.ts:227-231 | updating a chapter replaces exactly its fields and keeps the store valid |
| Database.Store.RemoveChapter | server/src/controlllers/chapter.controller.ts:267 | deleting a chapter removes exactly it and keeps the store valid |
| Database.Store.InsertQuestion | server/src/controlllers/question.controller.ts:77-88 | saving a question inserts exactly it and keeps question texts unique |
| Database.Store.ReplaceQuestion | server/src/controlllers/question.controller.ts:205-209 | updating a question replaces exactly its fields and keeps question texts unique |
| Database.Store.RemoveQuestion | server/src/controlllers/question.controller.ts:246 | deleting a question removes exactly it and keeps the store valid |
| Database.Store.InsertGrade | server/src/controlllers/grade.controller.ts:49-54 | saving a grade inserts exactly it and keeps grade names unique |
| Database.Store.InsertSubject | server/src/controlllers/subject.controller.ts:26-31 | saving a subject inserts exactly it and keeps subject names unique |
| Database.Store.InsertQuestionType | server/src/controlllers/questionType.controller.ts:27-32 | saving a question type inserts exactly it and keeps question type names unique |
| Database.Store.InsertUser | server/src/controlllers/user.controller.ts:45-53 | saving a user inserts exactly it and keeps emails unique |
| Database.Store.ReplaceUser | server/src/controlllers/user.controller.ts:13-16 | storing a user's new access token replaces exactly that user and keeps emails unique |
| AuthMiddleware.ExtractToken | server/src/middlewares/auth.middleware.ts:14-25 | a non-empty cookie wins; otherwise a non-empty header gives its text after a case-sensitive "Bearer " prefix, or the whole header, trimmed; with neither there is no token |
| AuthMiddleware.BearerHeaderRoundTrip | server/src/middlewares/auth.middleware.ts:18-24 | a token sent as "Bearer <token>", with white space padding, is recovered exactly |
| AuthMiddleware.BareHeaderRoundTrip | server/src/middlewares/auth.middleware.ts:18-24 | a bare token that does not itself start with "Bearer ", sent with white space padding and an empty cookie, is recovered exactly |
| AuthMiddleware.Unauthorized | server/src/middlewares/auth.middleware.ts:42-47 | a failure that is not an `ApiError` becomes a 401 carrying its message, or "Invalid access token" when the message is empty |
| AuthMiddleware.VerifyJwt | server/src/middlewares/auth.middleware.ts:11-48 | every failure is a 401, no token gives the "No token provided" one, and a verified token without an `_id` claim gives "Invalid Access Token - User not found"; the request goes on exactly when the token verifies to a well-formed id of a stored user, and it carries that user without password or token |
| AuthMiddleware.VerifyAdmin | server/src/middlewares/auth.middleware.ts:50-59 | no attached user gives 401 and a non-admin gives 403; the request goes on, with the same user, exactly when that user is an admin |
| ChapterController.CheckAdd | server/src/controlllers/chapter.controller.ts:13-46 | missing fields give 400, then blank fields give 400, then no requester gives 401, then a chapter of the same requester with the same trimmed tuple gives 409; otherwise the result is the trimmed chapter owned by the requester, whose key no stored chapter has |
| ChapterController.CreateScopedToCreator | server/src/controlllers/chapter.controller.ts:28-37 | after one user stores a chapter, the same body from that user is a 409, and from a different user it is still accepted |
| ChapterController.AddChapter | server/src/controlllers/chapter.controller.ts:9-56 | fails as `CheckAdd` says and changes nothing; otherwise stores exactly that chapter, newer than every other, and answers 201 with it |
| ChapterController.GetAllChapters | server/src/controlllers/chapter.controller.ts:59-77 | no requester gives 401, and only that; otherwise every chapter the requester may see (all for an admin, their own otherwise) and nothing else, newest first |
| ChapterController.GetChaptersByGradeAndSubject | server/src/controlllers/chapter.controller.ts:112-149 | missing, non-string and blank query values give the three 400s in that order, then 401; otherwise exactly the visible chapters with the trimmed grade and subject, newest first |
| ChapterController.Guard | server/src/controlllers/chapter.controller.ts:80-104 | a malformed id gives 400, then no requester 401, then an unknown id 404, then a requester who is neither creator nor admin 403; nothing fails exactly when the requester may act on the chapter |
| ChapterController.GetChapterById | server/src/controlllers/chapter.controller.ts:80-109 | fails with the first guard failure exactly when the requester may not act on the chapter; otherwise answers 200 with the stored chapter |
| ChapterController.BlankFieldError | server/src/controlllers/chapter.controller.ts:183-202 | the first given blank field, in the order grade, subject, chapter name, gives its own 400, and there is none exactly when no given field is blank |
| ChapterController.CheckUpdate | server/src/controlllers/chapter.controller.ts:157-224 | the guard's failure, then a blank field's 400, then, only when a key field is given, a 409 for any other chapter with the resulting tuple, whoever created it; otherwise the patched chapter, still owned by its creator |
| ChapterController.UpdateKeepsKeyFree | server/src/controlllers/chapter.controller.ts:208-224 | an update that passes its checks leaves the per-creator key unique |
| ChapterController.PatchedIdempotent | server/src/controlllers/chapter.controller.ts:180-206 | applying the same update twice leaves the chapter as applying it once |
| ChapterController.BuildPatch | server/src/controlllers/chapter.controller.ts:180-206 | building the update field by field stops at the first blank field and otherwise yields the patched chapter |
| ChapterController.UpdateChapter | server/src/controlllers/chapter.controller.ts:152-236 | fails as `CheckUpdate` says and changes nothing; otherwise replaces exactly that chapter with the patched one, keeps the store valid and answers 200 with it |
| ChapterController.DeleteChapter | server/src/controlllers/chapter.controller.ts:239-272 | fails with the first guard failure and changes nothing; otherwise removes exactly that chapter and answers 200 with its id |
| QuestionController.ValidateShape | server/src/controlllers/question.controller.ts:17-39 | the body checks run in source order (required 400, blank 400, then the four id syntax 400s) and throw the first one that fails |
| QuestionController.ValidateLookups | server/src/controlllers/question.controller.ts:41-74 | the database checks run in source order (four 404s for missing references, 409 for a taken text, then 401) and throw the first one that fails |
| QuestionController.AddChecksPass | server/src/controlllers/question.controller.ts:17-74 | once every step passes, the requester is known, the four references resolve and no stored question has the trimmed text |
| QuestionController.AddQuestion | server/src/controlllers/question.controller.ts:14-96 | throws exactly the first failing step and changes nothing; otherwise stores exactly the new question owned by the requester and answers 201 |
| QuestionController.ValidateGuard | server/src/controlllers/question.controller.ts:102-125 | the shared steps (400, 401, 404, 403) throw the first that fails; when none does, the requester may act on the question |
| QuestionController.PatchedIdempotent | server/src/controlllers/question.controller.ts:127-202 | applying the same update twice leaves the question as applying it once |
| QuestionController.TextStaysFree | server/src/controlllers/question.controller.ts:130-143 | an update whose text steps pass leaves question texts unique |
| QuestionController.PatchChecksPass | server/src/controlllers/question.controller.ts:130-202 | once every update step passes, each reference the update sets names a stored document |
| QuestionController.ValidateText | server/src/controlllers/question.controller.ts:130-143 | a given blank text gives 400, then a text another question has gives 409 |
| QuestionController.ValidateRef | server/src/controlllers/question.controller.ts:149-195 | a given reference must be a well-formed id (400) naming a stored document (404) |
| QuestionController.PatchRefs | server/src/controlllers/question.controller.ts:149-195 | the references are checked in the order grade, subject, chapter, question type; the first failure is thrown, otherwise each given reference is set |
| QuestionController.BuildPatch | server/src/controlllers/question.controller.ts:127-202 | the update steps run field by field in source order; the first failure is thrown, otherwise the result is the patched question |
| QuestionController.UpdateQuestion | server/src/controlllers/question.controller.ts:99-214 | throws exactly the first failing step and changes nothing; otherwise replaces exactly that question with the patched one, keeping its creator, and answers 200 |
| QuestionController.DeleteQuestion | server/src/controlllers/question.controller.ts:217-251 | throws the first failing guard step and changes nothing; otherwise removes exactly that question and answers 200 with its id |
| Catalog.CheckNamed | server/src/controlllers/subject.controller.ts:11-29 | a missing field gives 400, then a blank field gives 400, then a taken trimmed name gives 409; otherwise the trimmed name and description, both non-empty and the name not taken |
| Catalog.StoredFieldsTrimmed | server/src/controlllers/subject.controller.ts:26-29 | resubmitting the stored fields passes the same checks and yields the same fields |
| Catalog.RepeatConflicts | server/src/controlllers/subject.controller.ts:20-24 | sending the same create again, once its name is stored, gives 409 |
| Catalog.FetchById | server/src/controlllers/questionType.controller.ts:49-65 | the steps `getGradeById` and `getQuestionTypeById` share: a malformed id gives 400, an unknown one 404, and the stored document is answered with 200 exactly when neither applies |
| SubjectController.AddSubject | server/src/controlllers/subject.controller.ts:8-36 | fails as `CheckNamed` says against the stored names and changes nothing; otherwise stores exactly one new subject with the trimmed fields and answers 201 with it |
| SubjectController.GetAllSubjects | server/src/controlllers/subject.controller.ts:39-45 | every stored subject, each as stored, newest first, with status 200 |
| QuestionTypeController.AddQuestionType | server/src/controlllers/questionType.controller.ts:9-37 | fails as `CheckNamed` says against the stored names and changes nothing; otherwise stores exactly one new question type with the trimmed fields and answers 201 with it |
| QuestionTypeController.GetAllQuestionTypes | server/src/controlllers/questionType.controller.ts:40-46 | every stored question type, each as stored, newest first, with status 200 |
| QuestionTypeController.GetQuestionTypeById | server/src/controlllers/questionType.controller.ts:49-65 | a malformed id gives 400 and an unknown one 404; it answers 200 with the stored document exactly when neither applies |
| QuestionTypeController.AddedIsFetched | server/src/controlllers/questionType.controller.ts:49-65 | a question type just stored under a well-formed id is fetched back as stored |
| GradeController.IdChecks | server/src/controlllers/grade.controller.ts:33-38 | one id syntax check per listed subject, in list order, each failing with "Invalid subject ID: " and that id |
| GradeController.DistinctCount | server/src/controlllers/grade.controller.ts:41-47 | a list has at most as many distinct ids as entries, and exactly as many when no id repeats |
| GradeController.MatchedCount | server/src/controlllers/grade.controller.ts:41-47 | the count of matched subjects equals the list's length exactly when every listed id is stored and none repeats |
| GradeController.AddChecksPass | server/src/controlllers/grade.controller.ts:13-54 | once every step passes, the name is free and non-blank, and the list is non-empty, well formed, without repeats, and every subject is stored |
| GradeController.NameConflictFirst | server/src/controlllers/grade.controller.ts:26-38 | a taken name gives 409 before any subject id is looked at |
| GradeController.FirstInvalidIdReported | server/src/controlllers/grade.controller.ts:33-38 | the first malformed subject id in list order is the one reported |
| GradeController.RepeatedSubjectRejected | server/src/controlllers/grade.controller.ts:41-47 | a list of well-formed ids of stored subjects in which one id repeats is refused with 404, because the query matches fewer subjects than were listed |
| GradeController.AddGrade | server/src/controlllers/grade.controller.ts:10-62 | throws exactly the first failing step and changes nothing; otherwise stores exactly one new grade with the trimmed name and the ids as sent, and answers 201 |
| GradeController.GetAllGrades | server/src/controlllers/grade.controller.ts:65-71 | every stored grade, each as stored, newest first, with status 200 |
| GradeController.GetGradeById | server/src/controlllers/grade.controller.ts:74-90 | a malformed id gives 400 and an unknown one 404; it answers 200 with the stored grade exactly when neither applies |
| GradeController.AddedIsFetched | server/src/controlllers/grade.controller.ts:74-90 | a grade just stored under a well-formed id is fetched back with its trimmed name and its ids |
| UserController.SchemaErrors | server/src/models/user/user.model.ts:29-43 | the schema finds no error exactly when email and password are present and the role, if given, is in the enum |
| UserController.CheckRegister | server/src/controlllers/user.controller.ts:27-53 | a present blank field gives 400 and only then; then an email already stored, or no email while any user is stored, gives 409; then a schema rejection gives 500; otherwise the new user with a fresh email, a hashed password and a known role |
| UserController.EmptyRegistrationReachesSchema | server/src/controlllers/user.controller.ts:30-53 | while no user is stored, a registration with no fields passes the blank and conflict checks and is rejected by the schema with a 500 naming email and password |
| UserController.MissingEmailConflicts | server/src/controlllers/user.controller.ts:37-43 | once any user is stored, a registration without an email and without blank fields gets 409, as `findOne({})` finds that user |
| UserController.RegisterUser | server/src/controlllers/user.controller.ts:27-67 | fails as `CheckRegister` says and changes nothing; otherwise stores exactly the new user and answers 201 with it, without the password |
| UserController.FindByEmail | server/src/controlllers/user.controller.ts:77 | finds a user exactly when one has the email, and the user it finds has it |
| UserController.CheckLogin | server/src/controlllers/user.controller.ts:70-87 | no email gives 400, an unknown email 404, a missing password 500 (bcrypt's error) and a wrong password 401; otherwise the id of the user with that email |
| UserController.GetAccessToken | server/src/controlllers/user.controller.ts:7-24 | an unknown user gives 401 and changes nothing; otherwise the signed token for the user's id and email is returned and stored on that user alone |
| UserController.LoginUser | server/src/controlllers/user.controller.ts:70-106 | fails as `CheckLogin` says, sets no cookie and changes nothing; otherwise stores the new token on the user, sets it as the cookie and answers 200 with the user (without password or token) and the token |
| UserController.RegisterThenLogin | server/src/controlllers/user.controller.ts:27-106 | after a successful registration, logging in with the same email and password finds the new user (given that bcrypt accepts a password against its own hash), so the login answers 200 with the token signed for that user and sets it as the cookie; emails stay unique |
| UserController.RegisterThenWrongPassword | server/src/controlllers/user.controller.ts:83-87 | after the same registration, a password bcrypt rejects against the stored hash gives 401, so the login sets no cookie and changes nothing |
| UserController.IssuedTokenAuthenticates | server/src/middlewares/auth.middleware.ts:14-40 | when the token service verifies what it signs, the cookie a login sets lets `verifyJWT` attach that user |
| UserController.IssuedTokenAuthenticatesAsBearer | server/src/middlewares/auth.middleware.ts:18-40 | the same token sent as "Bearer <token>" without a cookie attaches that user too |
| AuthSlice.AuthState.constructor | client/src/features/authSlice.ts:26-30 | nobody is signed in, and the state is loading until the session restore settles |
| AuthSlice.AuthState.SetUser | client/src/features/authSlice.ts:41-45 | after a login the user is held, authenticated and not loading |
| AuthSlice.AuthState.Logout | client/src/features/authSlice.ts:48-52 | after a logout no user is held, unauthenticated and not loading |
| AuthSlice.AuthState.RestorePending | client/src/features/authSlice.ts:58-60 | a restore in flight sets loading and changes nothing else |
| AuthSlice.AuthState.RestoreFulfilled | client/src/features/authSlice.ts:61-65 | a restored session leaves the same state a login does |
| AuthSlice.AuthState.RestoreRejected | client/src/features/authSlice.ts:66-70 | a failed restore leaves the same state a logout does |

## Left out

- Concurrency: each request runs alone against the store. The race between a uniqueness check and the write that follows it is not modelled.
- Network, cookies and headers: a request is the handler's parsed inputs, and a response is its status and JSON body. Cookie options (`httpOnly`, `secure`) are not modelled.
- Cryptography and id syntax: bcrypt, `jwt.sign`/`jwt.verify` and `ObjectId.isValid` are abstract functions of `Records.Env`.
- Timestamps: `createdAt` is an insertion counter, and `updatedAt` is not modelled.
- `populate` is not modelled. Grades keep plain string ids, so it would change nothing there. Questions are answered with reference ids. In `getChapterById` it would change the ownership test; that case is described above.
- `asyncHandler` and Express routing are not modelled, nor the order in which routes compose `verifyJWT` and `verifyAdmin`. The mounted routers in `server/src/app.ts` are not modelled either: only users, subjects and grades are mounted.
- Mongoose's `lowercase` on email is left out: emails are compared as sent. The schema's `trim` on first and last name is modelled.
- ObjectId normalisation is left out: ids are compared as the strings sent.
- A body value that is not a string is left out: every field is text or absent, and `subjects` is text, a list of text or absent. Where a handler trims such a value, `trim` throws a `TypeError` and the answer is 500. Where a handler passes it on untrimmed, the outcome depends on Mongoose and is not modelled. That covers the login email, which goes into `User.findOne` and acts as a query operator when it is an object. It also covers reference ids, which go to `ObjectId.isValid` or to an `$in` query.
- ChapterController.UpdateChapter: a blank `bookName` is modelled as clearing the field, as the controller intends. With Mongoose's default stripping of `undefined` in `$set`, the stored value would stay unchanged.
- QuestionController.UpdateQuestion: a blank `answer` is modelled as clearing the field, for the same reason.
- UserController.RegisterUser: the 500 answer for "Something went wrong while registering the user" is not modelled. It needs the user just saved to be missing on the next read, which cannot happen without concurrent deletes.
- UserController.GetAccessToken: the 404 "User not found" inside it is modelled by its outcome. The function's own catch turns it into the 401 "Unable to generate accessToken".
- The "me" endpoint in the auth controller is not modelled. The other client features, thunks and UI are not modelled. The `restoreSession` thunk is taken to yield a user, never `null`.
- The database connection and the server start-up in `server/src/index.ts` are not modelled.
