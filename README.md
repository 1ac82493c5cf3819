# bookshelf-api core in Dafny

A model of the core of bookshelf-api: a book-shelf REST service with users, authors, books and private reading notes. It covers:

- **Request validators.** These are the split modules under `src/validations/` and the older monolithic `src/validation.js`. Each is a chain of checks that throws the first `ValidationError` (message plus offending field). The model proves that the two copies agree on every input.
- **Bearer-token authentication** (`src/auth.js`). It extracts the token, checks it, and the Express middleware sets `req.user`.
- **The SQLite storage module `src/db.js`.** The schema's UNIQUE, foreign-key, cascade and AUTOINCREMENT rules are part of the model. So is the ownership guard on note updates and deletes.
- **The older in-memory store `src/data.js`.** It is two arrays grown by `push`, with ids taken from the array length.
- **The note controllers** (`src/controllers/noteController.js`). Each validates, calls storage with the authenticated user's id, and maps the outcome to an HTTP status.

Modules, one file each:

| module | file | models |
|---|---|---|
| `Base` | base.dfy | `Option`, `Result` |
| `JsValues` | js_values.dfy | JavaScript values as validators see them; truthiness, `Number.isInteger`, `trim` |
| `Numbers` | numbers.dfy | `parseInt(s, 10)` and `String(n)` on naturals |
| `Email` | email.dfy | `EMAIL_REGEX` and a plain predicate equal to it |
| `Errors` | errors.dfy | `ValidationError`; the outcome of a validator |
| `CommonValidations`, `UserValidations`, `BookValidations`, `AuthorValidations`, `NoteValidations` | *_validations.dfy | `src/validations/*.js` |
| `Validation` | validation.dfy | `src/validation.js`, as tables of checks run in order, and its agreement with the split validators |
| `Auth` | auth.dfy | `src/auth.js`; the JWT library is an oracle |
| `Store` | store.dfy | what each `src/db.js` operation does to the four tables, as pure functions; invariants over any history of calls |
| `Db` | db.dfy | class `Database`: the same operations updating the tables in place, each proved equal to `Store` |
| `Data` | data.dfy | class `MemoryStore` over two sequences |
| `NoteController` | note_controller.dfy | the five note controllers; the file as written (see Findings) |

Modelling choices:

- Thrown errors become `Failure`/`Fail` values carrying the error message.
- Hashing (`bcrypt.hash`) happens before the store is called. The store receives the hash.
- The note controllers are modelled against the storage functions of `src/db.js`. The file as written imports them from `src/data.js`; see the Findings.

## Model

| member | source | states |
|---|---|---|
| Errors.NewValidationError | src/validations/errors/ValidationError.js:5-11 | keeps the message and field; `name` is always "ValidationError" |
| Errors.FieldDefaultsToNull | src/validation.js:10-16 | an error built without a field has field `null` and keeps its message |
| Errors.FieldError | src/validations/errors/ValidationError.js:6-9 | an error built with a field reports that field |
| JsValues.TrimStart | src/validations/commonValidations.js:22 | leading whitespace removed: the result is a suffix, what was dropped is all whitespace, the result starts with non-space; empty iff the input is blank |
| JsValues.TrimEnd | src/validations/bookValidations.js:24 | trailing whitespace removed, symmetric to `TrimStart` |
| JsValues.Trim | src/validations/bookValidations.js:24 | `trim()` is empty exactly when the string is all whitespace; it neither starts nor ends with whitespace |
| Numbers.Decimal | src/data.js:29 | `String(n)` is a non-empty digit string without a leading zero |
| Numbers.DigitRun | src/validations/commonValidations.js:22 | the length of the leading run of digits |
| Numbers.ParseDigits | src/validations/commonValidations.js:22 | a number is read exactly when the text starts with a digit |
| Numbers.DigitsValueDecimal | src/data.js:29 | reading back `String(n)` gives `n` |
| Numbers.DigitRunOfDigitsThen | src/validations/commonValidations.js:22 | the digit run of digits followed by a non-digit is exactly those digits |
| Numbers.ParseSigned | src/validations/commonValidations.js:22 | a number is read iff the text starts with a digit or with one sign followed by a digit; only a leading `-` gives a negative result |
| Numbers.ParseInt | src/validations/commonValidations.js:22 | `parseInt(s, 10)`: a number (not NaN) iff, after the leading whitespace, the text starts with a digit or a sign and a digit; negative only after a `-` |
| Numbers.ParseDigitsDecimalThen | src/validations/commonValidations.js:22 | the leading digits of `String(n)` followed by a non-digit read as `n` |
| Numbers.ParseIntSignThen | src/validations/commonValidations.js:22 | one `-` or `+` in front of digits that read as `n` gives `-n` or `n` |
| Numbers.ParseIntSignedDecimalThen | src/validations/commonValidations.js:22-23 | `parseInt("-" + String(n) + rest)` is `-n` and `parseInt("+" + String(n) + rest)` is `n` when `rest` starts with a non-digit (`"-5"` gives -5, refused as not positive) |
| Numbers.ParseIntDecimalThen | src/validations/commonValidations.js:22 | `parseInt(String(n) + rest)` is `n` when `rest` starts with a non-digit (trailing text is ignored) |
| Numbers.ParseIntAllDigits | src/validations/commonValidations.js:22 | text made only of digits reads as the number the digits denote (`"012"` is 12) |
| Numbers.ParseIntDecimal | src/validations/commonValidations.js:22 | `parseInt(String(n)) == n` |
| Numbers.TrimStartBlankPrefix | src/validations/commonValidations.js:22 | leading whitespace does not change what remains after trimming |
| Numbers.ParseIntSkipsSpace | src/validations/commonValidations.js:22 | `parseInt` ignores leading whitespace |
| Numbers.ParseIntNoDigits | src/validations/commonValidations.js:22-23 | text not starting with a digit or sign after whitespace parses to NaN |
| Numbers.DecimalInjective | src/data.js:19-21 | distinct numbers have distinct decimal ids |
| Email.EmailRegexIsEmail | src/validations/commonValidations.js:9 | `/^[^\s@]+@[^\s@]+\.[^\s@]+$/` accepts exactly the strings with no whitespace, one `@` not at either end, and a `.` with a non-empty part on each side after the `@` (both directions) |
| Email.ExampleEmailAccepted | src/validations/commonValidations.js:9 | `test@example.com` matches |
| Email.ExampleEmailsRejected | src/validations/commonValidations.js:9 | `invalid-email` (no `@`) and `a@b` (no dot after the `@`) do not match |
| CommonValidations.ValidateId | src/validations/commonValidations.js:17-28 | a falsy id fails "ID é obrigatório" on field `id`; otherwise success iff `parseInt(id, 10)` is a positive integer, which is returned; every failure names field `id` |
| CommonValidations.ValidateIdDecimal | src/validations/commonValidations.js:17-28 | round trip: `validateId(String(n)) == n` for every `n > 0` |
| CommonValidations.ValidateIdIdempotent | src/validations/commonValidations.js:17-28 | validating the decimal form of an accepted id returns the same id |
| CommonValidations.ValidateIdDecimalThen | src/validations/commonValidations.js:22 | trailing text after the digits is ignored: `String(n) + rest` with `rest` starting with a non-digit validates to `n` (`"12abc"` to 12) |
| CommonValidations.ValidateIdRejectsText | src/validations/commonValidations.js:23-25 | `"abc"` fails as not a positive integer |
| CommonValidations.ValidateIdRejectsZero | src/validations/commonValidations.js:23-25 | `"0"` fails as not a positive integer |
| CommonValidations.ValidateIdRejectsNegative | src/validations/commonValidations.js:23-25 | `"-5"` fails as not a positive integer |
| UserValidations.ValidateUserRegistration | src/validations/userValidations.js:14-51 | passes iff email, password and confirmation are present, the email matches the regex and has at most 255 characters, the password has 6 to 255 characters and equals the confirmation; a failure names the first failing field in check order, with that check's message (email invalid before email too long, password too short before too long, mismatch last) |
| UserValidations.ValidateUserLogin | src/validations/userValidations.js:58-71 | passes iff email and password are present and the email matches the regex (no length rules); failures name the first failing field |
| UserValidations.RegistrationAcceptsExample | src/validations/userValidations.js:14-51 | the test account's registration passes |
| UserValidations.RegistrationShortPasswordReportedFirst | src/validations/userValidations.js:39-41 | a 3-character password is reported on `password` with the minimum-length message |
| UserValidations.LoginPasswordBounds | src/validations/userValidations.js:58-71 | login accepts a 1-character password and rejects an empty one on `password` |
| BookValidations.ValidateBook | src/validations/bookValidations.js:13-43 | passes iff the title is a non-blank string of at most 255 characters and `authorId` is a positive integer; failures name `title` before `authorId`, each with its check's message |
| BookValidations.CheckTitle | src/validations/bookValidations.js:16-30 | passes iff the title is a non-blank string of at most 255 characters; otherwise the message of the first failing check in order: required (falsy), not a string, blank, too long |
| BookValidations.CheckAuthorId | src/validations/bookValidations.js:32-42 | the author-id checks in order: required, integer, positive |
| BookValidations.TitleLengthBoundary | src/validations/bookValidations.js:28-30 | 255 characters pass; 256 fail with the too-long message |
| BookValidations.TitlePasses | src/validations/bookValidations.js:16-30 | a title of 1 to 255 characters starting with a visible one passes every title check |
| BookValidations.AuthorIdTextExample | src/validations/bookValidations.js:36-38 | an author id sent as text (`"7"`) fails as not an integer |
| BookValidations.AuthorIdNumberExamples | src/validations/bookValidations.js:32-42 | author id `0` fails as missing, `-1` as not positive |
| AuthorValidations.ValidateAuthor | src/validations/authorValidations.js:13-42 | passes iff the name is a non-blank string of at most 255 characters and the bio is undefined, null, or a string of at most 1000; failures name `name` before `bio` |
| AuthorValidations.CheckName | src/validations/authorValidations.js:16-30 | passes iff the name is a non-blank string of at most 255 characters; otherwise the message of the first failing check in order: required, not a string, blank, too long |
| AuthorValidations.CheckBio | src/validations/authorValidations.js:33-41 | the bio is checked only when neither undefined nor null: string, at most 1000 |
| AuthorValidations.BioExamples | src/validations/authorValidations.js:33-41 | undefined, null and `""` bios pass; the number 0 fails as not a string |
| NoteValidations.ValidateNote | src/validations/noteValidations.js:13-54 | passes iff the content is a non-blank string of at most 5000 characters, the page number is absent or a positive integer, and `bookId` is a positive integer; failures name content, then pageNumber, then bookId |
| NoteValidations.CheckContent | src/validations/noteValidations.js:16-30 | passes iff the content is a non-blank string of at most 5000 characters; otherwise the message of the first failing check in order: required, not a string, blank, too long |
| NoteValidations.CheckPageNumber | src/validations/noteValidations.js:33-41 | the page number is checked only when present: integer, then positive |
| NoteValidations.CheckBookId | src/validations/noteValidations.js:43-53 | the book-id checks in order |
| NoteValidations.PageNumberExamples | src/validations/noteValidations.js:33-41 | pages `-1` and `0` fail as not positive; an absent page passes |
| Validation.FirstViolation | src/validation.js:23-60 | a chain of checks passes iff no check is violated, and otherwise throws the error of the first violated one |
| Validation.FirstViolationAt | src/validation.js:23-60 | when check `i` is the first violated, the chain throws its error |
| Validation.FirstViolationFour | src/validation.js:90-177 | a chain of four checks throws the error of the first violated one, or passes; it serves the four-check tables for the title (lines 90-104), the name (127-141) and the content (163-177) |
| Validation.FirstViolationAppend | src/validation.js:87-117 | running two chains one after the other is running their concatenation |
| Validation.ValidateUserRegistration | src/validation.js:23-60 | the single-file `validateUserRegistration` throws exactly what the split `validateUserRegistration` throws (or passes exactly when it does), on every input |
| Validation.RegistrationAgrees | src/validation.js:23-60 | its table of checks, run in order, gives the same outcome as the split `validateUserRegistration` on every input |
| Validation.ValidateUserLogin | src/validation.js:67-80 | the single-file `validateUserLogin` throws exactly what the split `validateUserLogin` throws (or passes exactly when it does), on every input |
| Validation.LoginAgrees | src/validation.js:67-80 | its table of checks, run in order, gives the same outcome as the split `validateUserLogin` on every input |
| Validation.TitleAgrees | src/validation.js:90-104 | the title checks agree with the split ones |
| Validation.AuthorIdAgrees | src/validation.js:106-116 | the author-id checks agree with the split ones |
| Validation.ValidateBook | src/validation.js:87-117 | the single-file `validateBook` throws exactly what the split `validateBook` throws (or passes exactly when it does), on every input |
| Validation.BookAgrees | src/validation.js:87-117 | its table of checks, run in order, gives the same outcome as the split `validateBook` on every input |
| Validation.NameAgrees | src/validation.js:127-141 | the name checks agree with the split ones |
| Validation.BioAgrees | src/validation.js:143-152 | the bio checks agree with the split ones |
| Validation.ValidateAuthor | src/validation.js:124-153 | the single-file `validateAuthor` throws exactly what the split `validateAuthor` throws (or passes exactly when it does), on every input |
| Validation.AuthorAgrees | src/validation.js:124-153 | its table of checks, run in order, gives the same outcome as the split `validateAuthor` on every input |
| Validation.ContentAgrees | src/validation.js:163-177 | the content checks agree with the split ones |
| Validation.PageNumberAgrees | src/validation.js:179-188 | the page-number checks agree with the split ones |
| Validation.BookIdAgrees | src/validation.js:190-200 | the book-id checks agree with the split ones |
| Validation.ValidateNote | src/validation.js:160-201 | the single-file `validateNote` throws exactly what the split `validateNote` throws (or passes exactly when it does), on every input |
| Validation.NoteAgrees | src/validation.js:160-201 | its table of checks, run in order, gives the same outcome as the split `validateNote` on every input |
| Validation.ValidateId | src/validation.js:208-219 | the single-file `validateId` returns the same value or throws the same error as the split `validateId`, on every input |
| Validation.IdAgrees | src/validation.js:208-219 | its two checks pass exactly when the split `validateId` succeeds, and otherwise throw the same error |
| Auth.VerifyToken | src/auth.js:11-18 | the verifier's payload when it accepts; `Invalid token` whatever its reason for refusing |
| Auth.IndexOfFrom | src/auth.js:23 | the first occurrence of the pattern at or after the start, or none |
| Auth.ReplaceFirst | src/auth.js:23 | string `replace` changes only the first occurrence; without one the text is unchanged |
| Auth.GetTokenFromContext | src/auth.js:21-25 | a missing Authorization header gives `""`; a header without `"Bearer "` is returned unchanged |
| Auth.Authenticate | src/auth.js:28-34 | an empty token fails `Authentication required` without calling the verifier; otherwise the result is `verifyToken`'s |
| Auth.BearerPrefixStripped | src/auth.js:23 | `"Bearer " + t` yields `t` |
| Auth.BareBearerRequiresAuthentication | src/auth.js:28-32 | a header of exactly `"Bearer "` is treated as no token |
| Auth.BearerRemovedAnywhere | src/auth.js:23 | the prefix is removed wherever it first occurs: `"x Bearer y"` gives `"x y"` |
| Auth.IssuedTokenAuthenticates | src/auth.js:6-8 | a token issued for `{userId, email}` authenticates as exactly those claims, given a verifier that accepts what the signer issues |
| Auth.ExpressAuth | src/auth.js:37-51 | `next` is called iff authentication succeeds; then `req.user` is the payload and the response is untouched; otherwise 401 with `Authentication required` for an empty token, or `Invalid or expired token` |
| Store.OrNull | src/db.js:106 | `x \|\| null` on a number: 0 and absent become null, anything else is kept |
| Store.OrNullText | src/db.js:147 | `x \|\| null` on text: `""` and absent become null |
| Store.CreateUser | src/db.js:68-79 | fails "User already exists" iff the email is stored, leaving the tables unchanged; otherwise inserts one user under the next AUTOINCREMENT id, never used before; consistency preserved |
| Store.CreateBook | src/db.js:101-109 | a falsy title, then a falsy userId, is refused; succeeds iff the owner exists and a non-null author exists; stores `authorId \|\| null`; failures change nothing; fresh id; consistency preserved |
| Store.UpdateBook | src/db.js:111-115 | a missing book changes nothing and gives nothing back; otherwise title and `authorId \|\| null` are set, the owner stays, and the row is returned; an unknown author violates the foreign key and changes nothing |
| Store.DeleteBook | src/db.js:117-120 | the book is removed and, by the cascade in the schema (src/db.js:47), exactly the notes on it; nothing else changes |
| Store.CreateAuthor | src/db.js:139-151 | a falsy name, then an existing name, is refused and nothing changes; otherwise one author with `bio \|\| null` under a fresh id |
| Store.UpdateAuthor | src/db.js:153-159 | a falsy name is refused; a missing author changes nothing; a name another author holds violates UNIQUE; otherwise name and `bio \|\| null` are set |
| Store.DeleteAuthor | src/db.js:161-164 | the author is removed and its books, and only those, get a null author (src/db.js:35); no book is removed |
| Store.GetNotesByBookId | src/db.js:168-171 | exactly the notes matching both the book and the requesting user |
| Store.GetNoteById | src/db.js:173-176 | the note with that id, if it exists |
| Store.CreateNote | src/db.js:178-187 | falsy bookId, userId, content are refused in that order; succeeds iff book and user exist; stores `pageNumber \|\| null`; failures change nothing; fresh id |
| Store.UpdateNote | src/db.js:189-201 | falsy content is refused; a missing note or another user's note is refused as `Unauthorized`, with no change; otherwise only that note's content and page number change, and its book and owner stay |
| Store.DeleteNote | src/db.js:203-212 | succeeds iff the note exists and belongs to the user; then exactly that note is removed; otherwise `Unauthorized` and no change |
| Store.Apply | src/db.js:15-212 | any single call of a writing function, succeeding or throwing, keeps the database consistent, never moves a sequence back, and never changes a surviving note's book or owner |
| Store.Run | src/db.js:15-212 | over any history of calls no sequence goes back and no note changes book or owner |
| Store.FollowsTransitive | src/db.js:15-49 | those guarantees compose over successive calls |
| Store.RunFollows | src/db.js:15-49 | over any sequence of calls: consistency, keys, foreign keys and UNIQUE columns are kept; no sequence goes back and no user, author, book or note id at or below an old sequence is handed to a new row (ids are never reused); notes never change book or owner |
| Store.DeletedNoteStaysDeleted | src/db.js:39-40 | after deletion a note's id never reappears, whatever calls follow (AUTOINCREMENT) |
| Store.DeletedBookStaysDeleted | src/db.js:29-30 | after deletion a book's id never reappears, whatever calls follow (AUTOINCREMENT) |
| Store.DeletedAuthorStaysDeleted | src/db.js:22-23 | after deletion an author's id never reappears, whatever calls follow (AUTOINCREMENT) |
| Store.DeleteBookRemovesEveryonesNotes | src/db.js:117-120 | deleting a book removes every note on it, whoever owns the note (no ownership check) |
| Store.EmptyConsistent | src/db.js:13-49 | a fresh database satisfies the schema |
| Db.Database.constructor | src/db.js:13-49 | `initDb` on a new file: all four tables empty, consistent |
| Db.Database.CreateUser | src/db.js:68-79 | the result and the new tables are those of `Store.CreateUser`; the database stays consistent |
| Db.Database.CreateBook | src/db.js:101-109 | result and new tables as `Store.CreateBook`; stays consistent |
| Db.Database.UpdateBook | src/db.js:111-115 | result and new tables as `Store.UpdateBook`; stays consistent |
| Db.Database.DeleteBook | src/db.js:117-120 | new tables as `Store.DeleteBook` (with the cascade); stays consistent |
| Db.Database.CreateAuthor | src/db.js:139-151 | result and new tables as `Store.CreateAuthor`; stays consistent |
| Db.Database.UpdateAuthor | src/db.js:153-159 | result and new tables as `Store.UpdateAuthor`; stays consistent |
| Db.Database.DeleteAuthor | src/db.js:161-164 | new tables as `Store.DeleteAuthor` (authors of books set to null); stays consistent |
| Db.Database.CreateNote | src/db.js:178-187 | result and new tables as `Store.CreateNote`; stays consistent |
| Db.Database.UpdateNote | src/db.js:189-201 | reads the note, checks the owner, then writes: result and new tables as `Store.UpdateNote` |
| Db.Database.DeleteNote | src/db.js:203-212 | reads the note, checks the owner, then deletes: result and new tables as `Store.DeleteNote` |
| Data.FindIndex | src/data.js:15-21 | `find`: the first position satisfying the predicate, or none when no element does |
| Data.MemoryStore.constructor | src/data.js:4-13 | the seed user `test@example.com` with id "1" and the book "The Hobbit" with id "1"; the invariants hold |
| Data.MemoryStore.FindUserByEmail | src/data.js:15-17 | the first user with that email, or nothing iff none has it |
| Data.MemoryStore.GetUserById | src/data.js:19-21 | the first user with that id, or nothing iff none has it |
| Data.MemoryStore.GetUserByIdIsPosition | src/data.js:19-21 | with ids equal to positions, id `String(k)` finds the k-th user |
| Data.MemoryStore.FindUserByEmailUnique | src/data.js:15-16 | with distinct emails, looking up a user's email finds that user |
| Data.MemoryStore.CreateUser | src/data.js:23-32 | throws "User already exists" iff the email is present, with no change; otherwise pushes exactly one user with id `String(users.length + 1)` and returns it; books untouched; id and email invariants kept |
| Data.MemoryStore.ValidateUserCredentials | src/data.js:34-39 | null for an unknown email; a returned user has that email and a matching password; the found user with a matching password is returned |
| Data.MemoryStore.GetBooks | src/data.js:42-44 | the books array, as stored |
| Data.MemoryStore.CreateBook | src/data.js:46-52 | a falsy title, then a falsy authorId, throws and changes nothing; otherwise pushes exactly one book with id `String(books.length + 1)`, earlier books unchanged |
| NoteController.BadRequest | src/controllers/noteController.js:15-17 | a `ValidationError` is answered 400 with its message and field |
| NoteController.ServerError | src/controllers/noteController.js:18-19 | any other error is answered 500 with its message, or `Internal server error` when the message is empty |
| NoteController.PageOrNull | src/controllers/noteController.js:61 | `pageNumber \|\| null` on a validated page: present iff a page was given |
| NoteController.ListNotesByBook | src/controllers/noteController.js:8-21 | 400 with field `id` iff the book id is invalid; otherwise 200 with exactly the requester's notes on that book, each as stored |
| NoteController.GetNoteById | src/controllers/noteController.js:27-50 | invalid id gives 400 on `id`; missing note gives 404; another user's note gives 403; the owner gets 200 with the note; a returned note always belongs to the requester |
| NoteController.CreateNote | src/controllers/noteController.js:56-70 | an invalid body gives 400 with the validator's message and field, and nothing is created; a created note (201) belongs to the requester, never to a body field, and has page `pageNumber \|\| null`; a valid body gives 201 iff the requester's id is non-zero and both the book and the requester exist, otherwise 500 `userId is required` (id 0) or `FOREIGN KEY constraint failed`, with no change |
| NoteController.UpdateNote | src/controllers/noteController.js:76-92 | invalid id, then invalid body, gives 400 with no change; a note the requester does not own gives 500 `Unauthorized` (not 400) with no change; the owner gets 200 and only that note's content and page change |
| NoteController.DeleteNote | src/controllers/noteController.js:98-111 | invalid id gives 400; the owner gets 204 and the note is gone; otherwise 500 `Unauthorized` and no change |
| NoteController.InvalidIdIgnoresStore | src/controllers/noteController.js:30 | with an invalid id the answer is the same whatever the database holds: storage is not consulted |
| NoteController.OthersNotesUnreadable | src/controllers/noteController.js:38-40 | no response carries, alone or in a list, a note someone else owns |
| NoteController.UpdateLeavesOthersNotes | src/controllers/noteController.js:76-92 | whatever the id and body, an update leaves every note of another user exactly as it was |
| NoteController.DeleteLeavesOthersNotes | src/controllers/noteController.js:98-111 | whatever the id, a delete leaves every note of another user exactly as it was |
| NoteController.CreateLeavesExistingNotes | src/controllers/noteController.js:56-70 | creating a note leaves every existing note as it was |
| NoteController.AsImported | src/controllers/noteController.js:1 | as imported from `src/data.js`, every route answers 400 when its validation fails and 500 `<function> is not a function` exactly when it passes (list, get and delete: `validateId`; create: `validateNote`; update: both) |
| NoteController.AsImportedNeverServesNote | src/controllers/noteController.js:1 | the owner asking for note 1 gets 500 as imported, 200 with the note when wired to `src/db.js` |
| NoteController.ValidateIdOne | src/validation.js:208-219 | `validateId("1")` is 1 |
| NoteController.SqlKey | src/db.js:174 | text matches an integer id exactly when it is non-empty and all digits, and then it matches a non-negative one |
| NoteController.GetNoteByIdAsWritten | src/controllers/noteController.js:27-50 | as written: invalid id gives 400; an id that passes validation but is not all digits finds no note (404) |
| NoteController.ListNotesByBookAsWritten | src/controllers/noteController.js:8-21 | as written: invalid id gives 400; a book id that passes validation but is not all digits lists nothing (200 with no notes); only the requester's notes are ever listed |
| NoteController.UpdateNoteAsWritten | src/controllers/noteController.js:76-92 | as written: invalid id or body gives 400; an id that passes validation but is not all digits is refused as 500 `Unauthorized: you can only edit your own notes`, with no change |
| NoteController.DeleteNoteAsWritten | src/controllers/noteController.js:98-111 | as written: invalid id gives 400; an id that passes validation but is not all digits is refused as 500 `Unauthorized: you can only delete your own notes`, with no change |
| NoteController.DecimalIdReadAlike | src/controllers/noteController.js:29-31 | `validateId` and SQLite read `String(n)` as the same number `n` |
| NoteController.AsWrittenAgreesOnDecimalIds | src/controllers/noteController.js:8-111 | on the canonical decimal form of an id, each of the four id routes as written gives the same response and database as the corrected one |
| NoteController.DigitIdReadAlike | src/controllers/noteController.js:29-31 | an all-digit id that `validateId` accepts is read by it and by SQLite as the same number |
| NoteController.AsWrittenAgreesOnDigitIds | src/controllers/noteController.js:8-111 | on every all-digit id, canonical or not (`"012"`), each of the four id routes as written gives the same response and database as the corrected one |
| NoteController.TrailingTextReadApart | src/controllers/noteController.js:29-31 | `String(n) + rest`, with `rest` starting with a non-digit, validates as `n` but matches no integer id as text |
| NoteController.TrailingTextHidesOwnNote | src/controllers/noteController.js:29-31 | for every note `n` and every `rest` starting with a non-digit (as in `GET /notes/12abc`), the owner gets 404 as written and 200 with the note when the parsed id is used |
| NoteController.TrailingTextEmptiesList | src/controllers/noteController.js:10-12 | for `GET /books/12abc/notes`, the requester's own note on book 12 is missing from the list as written and present when the parsed id is used |
| NoteController.TrailingTextBlocksOwnUpdate | src/controllers/noteController.js:78-83 | for `PUT /notes/12abc` with a valid body, the owner of note 12 gets 500 Unauthorized and no change as written, and 200 with the new content when the parsed id is used |
| NoteController.TrailingTextBlocksOwnDelete | src/controllers/noteController.js:100-102 | for `DELETE /notes/12abc`, the owner of note 12 gets 500 Unauthorized and the note stays as written, and 204 with the note removed when the parsed id is used |

## Left out

- Network, HTTP listening, logging (`console.error`) and process exit hooks: not part of the logic.
- `jsonwebtoken` `sign`/`verify` and `bcryptjs` `hash`/`compare` are function parameters (oracles). The JWT secret, algorithm and 7-day expiry are the oracle's business.
- `Auth.GenerateToken` has no contract of its own, because signing is the oracle. What the source promises about issued claims (`{userId, email}`) is stated by `Auth.IssuedTokenAuthenticates`.
- `Auth.Claims`: a token's `userId` is taken to be the integer id of the users table of `src/db.js`. The tokens the source actually issues (`src/controllers/userController.js:21,48` and `src/resolvers/userResolvers.js:38,54`) carry the string ids of `src/data.js` (`String(users.length + 1)`, the seed `'1'`). The note controllers and `src/db.js:194,206` compare those with `!==` against the integer `user_id`, which never holds. With such tokens even the wired-up controllers would answer 403 or 500 Unauthorized to a note's owner. The model does not capture this; it assumes the token ids and the table ids agree.
- `Auth.ExpressAuth`: `next` is modelled by the returned flag. An exception thrown inside `next` is not modelled; the source would catch it and answer 401.
- `validateId` receives the path parameter as text, or nothing. Numbers passed to `parseInt`, exponent notation and digit strings beyond 2^53 are not modelled.
- User-validator fields are absent/null or text. `EMAIL_REGEX.test` and `.length` on other JavaScript values are not modelled.
- String lengths count characters, not UTF-16 code units.
- `created_at`/`updated_at` timestamps and every `ORDER BY` are not modelled; query results are maps keyed by id. `createNote` returns a `created_at` clock value, which is left out.
- `Store.CreateBook` returns the row as stored, with `authorId || null`. The source echoes `authorId` exactly as passed (for example `0` or `undefined`).
- `Store.UpdateBook` takes a title string. A `null` title, which would fail SQLite's NOT NULL, is not modelled.
- NoteController.SqlKey: SQLite's text-to-integer conversion of a bound parameter is reduced to "all digits". Text such as `" 12"` or `"12.0"`, which SQLite might also convert, is treated as matching no row.
- The read-only getters of `src/db.js` that the controllers do not use (`getBooks`, `getBookById`, `getAuthors`, `getAuthorById`, `getAuthorByName`, `findUserByEmail`, `getUserById`, `validateUserCredentials`). Their effect on uniqueness checks is captured by `Store.EmailTaken` and `Store.NameTaken`.
- There is no operation that deletes a user, so the `ON DELETE CASCADE` from users is not exercised.
- The async gap between the "email exists" check and the insert in `createUser` is concurrency and is not modelled.
- `Data.MemoryStore.GetBooks` returns a copy of the sequence. The source returns the array itself, so a caller could mutate the store through it (aliasing).
- A request body that is missing (`req.body || {}`) is modelled as a note input with every field undefined.
- Identity of the two `ValidationError` classes (`src/validation.js` versus `src/validations/errors/`) for `instanceof` is not modelled. Errors are values.
- The controllers for books, authors and users, the GraphQL resolvers, `src/index.js`, `src/controllers.js` and the Swagger files are not part of this model.

## Findings

| source | as written | input that shows it | evidently intended | confidence | as-written member | corrected member |
|---|---|---|---|---|---|---|
| src/controllers/noteController.js:1 | the five storage functions are destructured from `../data`, and `src/data.js:54-61` exports none of them, so each call throws `TypeError: <name> is not a function` | `GET /notes/1` by the owner of note 1: 500 `getNoteById is not a function` | the note functions of `src/db.js` (which exports them), called with a token whose `userId` is the integer id of that database (see `Auth.Claims` under Left out; the tokens issued today carry `src/data.js`'s string ids) | high; not executed | NoteController.AsImported (shown by NoteController.AsImportedNeverServesNote) | NoteController.GetNoteById |
| src/controllers/noteController.js:29-31 | `validateId(id)` parses `"12abc"` as 12, but its result is discarded and the raw text goes to `getNoteById` (likewise at lines 11-12, 79-83 and 101-102), where SQLite compares the text `'12abc'` with integer ids and finds nothing | `GET /notes/12abc` by the owner of note 12: 404 `Note not found`; likewise `GET /books/12abc/notes` lists nothing, and `PUT`/`DELETE /notes/12abc` by the owner answer 500 Unauthorized | use the id that `validateId` returned (12): 200 with the note (and the list, the update, the delete on note 12) | medium; not executed | NoteController.GetNoteByIdAsWritten, NoteController.ListNotesByBookAsWritten, NoteController.UpdateNoteAsWritten, NoteController.DeleteNoteAsWritten (shown by NoteController.TrailingTextHidesOwnNote, NoteController.TrailingTextEmptiesList, NoteController.TrailingTextBlocksOwnUpdate and NoteController.TrailingTextBlocksOwnDelete with n = 12, rest = "abc") | NoteController.GetNoteById, NoteController.ListNotesByBook, NoteController.UpdateNote, NoteController.DeleteNote |
