/**
 * The note controllers of `src/controllers/noteController.js` as functions from
 * the database and the request to the response (and, for the controllers that
 * write, the database afterwards). Each one validates with `src/validation.js`,
 * calls the storage contract of `src/db.js` (module `Store`) with the
 * authenticated user's id, and maps a `ValidationError` to 400 and anything
 * else thrown to 500.
 *
 * The functions named after the controllers call storage with the id that
 * `validateId` parsed. The members `AsImported` and `GetNoteByIdAsWritten`
 * model the file as written, which differs in two ways (see the README).
 */
module NoteController {
  import opened Base
  import opened JsValues
  import opened Numbers
  import opened Errors
  import opened Store
  import Auth
  import NoteValidations
  import Validation
  import CommonValidations

  /** The JSON body a controller sends. */
  datatype Body =
    | NoteBody(note: NoteRow)
    | CreatedBody(id: int, created: NoteRow)
    | NoteListBody(notes: map<int, NoteRow>)
    | ErrorBody(error: string)
    | FieldErrorBody(message: string, field: Option<string>)
    | NoBody

  datatype Response = Response(status: int, body: Body)

  /** A response and the database after the request. */
  datatype Handled = Handled(response: Response, tables: Tables)

  const NoteNotFound := "Note not found"
  const ForbiddenNote := "Forbidden: you can only view your own notes"
  const InternalServerError := "Internal server error"

  /** `res.status(400).json({ error: err.message, field: err.field })`. */
  function BadRequest(e: ValidationError): (r: Response)
    ensures r.status == 400 && r.body == FieldErrorBody(e.message, e.field)
  {
    Response(400, FieldErrorBody(e.message, e.field))
  }

  /** `res.status(500).json({ error: err.message || 'Internal server error' })`. */
  function ServerError(message: string): (r: Response)
    ensures r.status == 500 && r.body.ErrorBody?
    ensures message != "" ==> r.body.error == message
    ensures message == "" ==> r.body.error == InternalServerError
  {
    Response(500, ErrorBody(if message == "" then InternalServerError else message))
  }

  /** The number in a body field that validated as a positive integer. */
  function IntOf(v: JsValue): int {
    if v.Int? then v.i else 0
  }

  /** The text in a body field that validated as a string. */
  function TextOf(v: JsValue): string {
    if v.Str? then v.s else ""
  }

  /** `pageNumber || null` on a page number that validated as absent or a positive integer. */
  function PageOrNull(v: JsValue): (r: Option<int>)
    ensures OptionalPositiveInteger(v) ==> (r.Some? <==> v.Int?)
    ensures r.Some? ==> v == Int(r.value) && r.value != 0
  {
    if v.Int? && v.i != 0 then Some(v.i) else None
  }

  /**
   * `listNotesByBookController` (GET /books/:bookId/notes): 400 for an invalid
   * book id, otherwise 200 with the requester's notes on that book.
   */
  function ListNotesByBook(t: Tables, bookId: Option<string>, user: Auth.Claims): (r: Response)
    ensures r.status == 200 || r.status == 400
    ensures r.status == 400 <==> Validation.ValidateId(bookId).Failure?
    ensures r.status == 400 ==> r.body == FieldErrorBody(Validation.ValidateId(bookId).error.message, Some("id"))
    ensures r.status == 200 ==>
              r.body.NoteListBody?
              && forall n :: n in r.body.notes <==>
                   n in t.notes && t.notes[n].userId == user.userId
                   && t.notes[n].bookId == Validation.ValidateId(bookId).value
    ensures r.status == 200 ==> forall n :: n in r.body.notes ==> r.body.notes[n] == t.notes[n]
  {
    match Validation.ValidateId(bookId)
    case Failure(e) => BadRequest(e)
    case Success(b) => Response(200, NoteListBody(Store.GetNotesByBookId(t, b, user.userId)))
  }

  /**
   * `getNoteByIdController` (GET /notes/:id): 400 for an invalid id, 404 for a
   * missing note, 403 for someone else's note, 200 with the note for its owner.
   */
  function GetNoteById(t: Tables, id: Option<string>, user: Auth.Claims): (r: Response)
    ensures Validation.ValidateId(id).Failure? ==> r == BadRequest(Validation.ValidateId(id).error)
    ensures Validation.ValidateId(id).Failure? ==> r.body.field == Some("id")
    ensures Validation.ValidateId(id).Success? ==>
              var k := Validation.ValidateId(id).value;
              && (k !in t.notes ==> r == Response(404, ErrorBody(NoteNotFound)))
              && (k in t.notes && t.notes[k].userId != user.userId ==> r == Response(403, ErrorBody(ForbiddenNote)))
              && (k in t.notes && t.notes[k].userId == user.userId ==> r == Response(200, NoteBody(t.notes[k])))
    ensures r.body.NoteBody? ==> r.body.note.userId == user.userId
  {
    match Validation.ValidateId(id)
    case Failure(e) => BadRequest(e)
    case Success(k) =>
      match Store.GetNoteById(t, k)
      case None => Response(404, ErrorBody(NoteNotFound))
      case Some(note) =>
        if note.userId != user.userId then Response(403, ErrorBody(ForbiddenNote))
        else Response(200, NoteBody(note))
  }

  /**
   * `createNoteController` (POST /notes): 400 when `validateNote` fails, and
   * nothing is stored; otherwise the note is created for the requester (the
   * body names no owner) with `pageNumber || null`: 201 with it, or 500 with
   * the storage error.
   */
  function CreateNote(t: Tables, body: NoteValidations.NoteInput, user: Auth.Claims): (r: Handled)
    ensures !NoteValidations.ValidNote(body) ==>
              r.tables == t && r.response.status == 400
              && r.response == BadRequest(NoteValidations.ValidateNote(body).error)
    ensures NoteValidations.ValidNote(body) ==> r.response.status == 201 || r.response.status == 500
    ensures NoteValidations.ValidNote(body) ==>
              (r.response.status == 201 <==> user.userId != 0 && body.bookId.i in t.books && user.userId in t.users)
    ensures NoteValidations.ValidNote(body) && user.userId == 0 ==>
              r.response == Response(500, ErrorBody(UserIdRequired))
    ensures NoteValidations.ValidNote(body) && user.userId != 0 && !(body.bookId.i in t.books && user.userId in t.users) ==>
              r.response == Response(500, ErrorBody(ForeignKeyFailed))
    ensures r.response.status != 201 ==> r.tables == t
    ensures r.response.status == 201 ==>
              && NoteValidations.ValidNote(body)
              && r.response.body.CreatedBody?
              && var (k, note) := (r.response.body.id, r.response.body.created);
              && (Consistent(t) ==> k !in t.notes)
              && note == NoteRow(body.bookId.i, user.userId, body.content.s, PageOrNull(body.pageNumber))
              && k == t.noteSeq + 1
              && r.tables == t.(notes := t.notes[k := note], noteSeq := t.noteSeq + 1)
  {
    match Validation.ValidateNote(body)
    case Fail(e) => Handled(BadRequest(e), t)
    case Pass =>
      var step := Store.CreateNote(t, IntOf(body.bookId), user.userId, TextOf(body.content), PageOrNull(body.pageNumber));
      match step.result
      case Success((k, note)) => Handled(Response(201, CreatedBody(k, note)), step.tables)
      case Failure(message) => Handled(ServerError(message), t)
  }

  /**
   * `updateNoteController` (PUT /notes/:id): 400 for an invalid id or body;
   * otherwise `updateNote` with the requester's id: 200 with the note, or 500
   * when storage refuses (a note someone else owns is a 500, not a 400).
   */
  function UpdateNote(t: Tables, id: Option<string>, body: NoteValidations.NoteInput, user: Auth.Claims): (r: Handled)
    ensures Validation.ValidateId(id).Failure? ==> r == Handled(BadRequest(Validation.ValidateId(id).error), t)
    ensures Validation.ValidateId(id).Success? && !NoteValidations.ValidNote(body) ==>
              r == Handled(BadRequest(NoteValidations.ValidateNote(body).error), t)
    ensures Validation.ValidateId(id).Success? && NoteValidations.ValidNote(body) ==>
              var k := Validation.ValidateId(id).value;
              && (!OwnsNote(t, k, user.userId) ==> r == Handled(Response(500, ErrorBody(NotYourNoteToEdit)), t))
              && (OwnsNote(t, k, user.userId) ==>
                    var note := NoteRow(t.notes[k].bookId, user.userId, body.content.s, PageOrNull(body.pageNumber));
                    r == Handled(Response(200, NoteBody(note)), t.(notes := t.notes[k := note])))
    ensures r.response.status in {200, 400, 500}
  {
    match Validation.ValidateId(id)
    case Failure(e) => Handled(BadRequest(e), t)
    case Success(k) =>
      match Validation.ValidateNote(body)
      case Fail(e) => Handled(BadRequest(e), t)
      case Pass =>
        var step := Store.UpdateNote(t, k, user.userId, TextOf(body.content), PageOrNull(body.pageNumber));
        match step.result
        case Success(note) => Handled(Response(200, NoteBody(note)), step.tables)
        case Failure(message) => Handled(ServerError(message), t)
  }

  /**
   * `deleteNoteController` (DELETE /notes/:id): 400 for an invalid id; 204 when
   * the requester owned the note, which is then gone; 500 otherwise.
   */
  function DeleteNote(t: Tables, id: Option<string>, user: Auth.Claims): (r: Handled)
    ensures Validation.ValidateId(id).Failure? ==> r == Handled(BadRequest(Validation.ValidateId(id).error), t)
    ensures Validation.ValidateId(id).Success? ==>
              var k := Validation.ValidateId(id).value;
              && (OwnsNote(t, k, user.userId) ==> r == Handled(Response(204, NoBody), t.(notes := t.notes - {k})))
              && (!OwnsNote(t, k, user.userId) ==> r == Handled(Response(500, ErrorBody(NotYourNoteToDelete)), t))
  {
    match Validation.ValidateId(id)
    case Failure(e) => Handled(BadRequest(e), t)
    case Success(k) =>
      var step := Store.DeleteNote(t, k, user.userId);
      match step.result
      case Success(_) => Handled(Response(204, NoBody), step.tables)
      case Failure(message) => Handled(ServerError(message), t)
  }

  /** An invalid id is answered without looking at the database. */
  lemma InvalidIdIgnoresStore(t1: Tables, t2: Tables, id: Option<string>, user: Auth.Claims)
    requires Validation.ValidateId(id).Failure?
    ensures GetNoteById(t1, id, user) == GetNoteById(t2, id, user)
    ensures DeleteNote(t1, id, user).response == DeleteNote(t2, id, user).response
    ensures ListNotesByBook(t1, id, user) == ListNotesByBook(t2, id, user)
  {
  }

  /** Nobody reads a note someone else owns, alone or in a book's list. */
  lemma OthersNotesUnreadable(t: Tables, id: Option<string>, user: Auth.Claims, n: int)
    requires n in t.notes && t.notes[n].userId != user.userId
    ensures GetNoteById(t, id, user).body.NoteBody? ==> GetNoteById(t, id, user).body.note != t.notes[n]
    ensures ListNotesByBook(t, id, user).body.NoteListBody? ==> n !in ListNotesByBook(t, id, user).body.notes
  {
  }

  /** Updating, whatever the id and body, leaves every note of another user as it was. */
  lemma UpdateLeavesOthersNotes(t: Tables, id: Option<string>, body: NoteValidations.NoteInput, user: Auth.Claims, n: int)
    requires n in t.notes && t.notes[n].userId != user.userId
    ensures n in UpdateNote(t, id, body, user).tables.notes && UpdateNote(t, id, body, user).tables.notes[n] == t.notes[n]
  {
    if Validation.ValidateId(id).Success? {
      var k := Validation.ValidateId(id).value;
      assert OwnsNote(t, k, user.userId) ==> k != n;
    }
  }

  /** Deleting, whatever the id, leaves every note of another user as it was. */
  lemma DeleteLeavesOthersNotes(t: Tables, id: Option<string>, user: Auth.Claims, n: int)
    requires n in t.notes && t.notes[n].userId != user.userId
    ensures n in DeleteNote(t, id, user).tables.notes && DeleteNote(t, id, user).tables.notes[n] == t.notes[n]
  {
    if Validation.ValidateId(id).Success? {
      var k := Validation.ValidateId(id).value;
      assert OwnsNote(t, k, user.userId) ==> k != n;
    }
  }

  /** Creating a note leaves every existing note as it was (the new one gets a fresh id). */
  lemma CreateLeavesExistingNotes(t: Tables, body: NoteValidations.NoteInput, user: Auth.Claims, n: int)
    requires Consistent(t) && n in t.notes
    ensures n in CreateNote(t, body, user).tables.notes && CreateNote(t, body, user).tables.notes[n] == t.notes[n]
  {
    var r := CreateNote(t, body, user);
    if r.response.status == 201 {
      assert r.response.body.id != n;
    } else {
      assert r.tables == t;
    }
  }

  // ============ The file as written ============

  /** The five routes of the controller file. */
  datatype Route = ListRoute | GetRoute | CreateRoute | UpdateRoute | DeleteRoute

  /** The storage function each route calls. */
  function StorageFunction(route: Route): string {
    match route
    case ListRoute => "getNotesByBookId"
    case GetRoute => "getNoteById"
    case CreateRoute => "createNote"
    case UpdateRoute => "updateNote"
    case DeleteRoute => "deleteNote"
  }

  /**
   * The controllers as the file imports them: the five storage functions are
   * destructured from `../data`, which exports none of them, so each is
   * `undefined` and calling it throws a `TypeError` "<name> is not a function",
   * answered 500 once validation has passed.
   */
  function AsImported(route: Route, id: Option<string>, body: NoteValidations.NoteInput): (r: Response)
    ensures r.status == 400 || r.status == 500
    ensures r.status == 500 ==> r.body == ErrorBody(StorageFunction(route) + " is not a function")
    ensures route in {ListRoute, GetRoute, DeleteRoute} ==> (r.status == 500 <==> Validation.ValidateId(id).Success?)
    ensures route == CreateRoute ==> (r.status == 500 <==> Validation.ValidateNote(body).Pass?)
    ensures route == UpdateRoute ==>
              (r.status == 500 <==> Validation.ValidateId(id).Success? && Validation.ValidateNote(body).Pass?)
  {
    var idCheck := Validation.ValidateId(id);
    var bodyCheck := Validation.ValidateNote(body);
    var thrown := ServerError(StorageFunction(route) + " is not a function");
    match route
    case ListRoute | GetRoute | DeleteRoute =>
      if idCheck.Failure? then BadRequest(idCheck.error) else thrown
    case CreateRoute =>
      if bodyCheck.Fail? then BadRequest(bodyCheck.error) else thrown
    case UpdateRoute =>
      if idCheck.Failure? then BadRequest(idCheck.error)
      else if bodyCheck.Fail? then BadRequest(bodyCheck.error)
      else thrown
  }

  /**
   * As imported, no request ever reaches storage: the owner of a note asking for
   * it gets 500 where the controller wired to `src/db.js` answers 200.
   */
  lemma AsImportedNeverServesNote(t: Tables, user: Auth.Claims)
    requires 1 in t.notes && t.notes[1].userId == user.userId
    ensures AsImported(GetRoute, Some("1"), NoteValidations.NoteInput(Undefined, Undefined, Undefined)).status == 500
    ensures GetNoteById(t, Some("1"), user) == Response(200, NoteBody(t.notes[1]))
  {
    ValidateIdOne();
  }

  /** `validateId("1")` accepts and returns 1. */
  lemma ValidateIdOne()
    ensures Validation.ValidateId(Some("1")) == Success(1)
  {
    assert Decimal(1) == "1";
    ParseIntDecimal(1);
  }

  /**
   * How SQLite matches a bound text parameter against an INTEGER column: text
   * made of digits only is converted to that integer; any other text stays
   * text and equals no integer id.
   */
  function SqlKey(param: string): (r: Option<int>)
    ensures r.Some? <==> |param| > 0 && AllDigits(param)
    ensures r.Some? ==> r.value >= 0
  {
    if |param| > 0 && AllDigits(param) then Some(DigitsValue(param)) else None
  }

  /**
   * `getNoteByIdController` as written (wired to `src/db.js`): `validateId(id)`
   * is called for its check only and its result discarded, so the raw text of
   * the path parameter is what `getNoteById` matches.
   */
  function GetNoteByIdAsWritten(t: Tables, id: Option<string>, user: Auth.Claims): (r: Response)
    ensures Validation.ValidateId(id).Failure? ==> r == BadRequest(Validation.ValidateId(id).error)
    ensures Validation.ValidateId(id).Success? && SqlKey(id.value).None? ==> r == Response(404, ErrorBody(NoteNotFound))
  {
    match Validation.ValidateId(id)
    case Failure(e) => BadRequest(e)
    case Success(_) =>
      match SqlKey(id.value)
      case None => Response(404, ErrorBody(NoteNotFound))
      case Some(k) =>
        match Store.GetNoteById(t, k)
        case None => Response(404, ErrorBody(NoteNotFound))
        case Some(note) =>
          if note.userId != user.userId then Response(403, ErrorBody(ForbiddenNote))
          else Response(200, NoteBody(note))
  }

  /**
   * `listNotesByBookController` as written: the raw text of `bookId` is bound to
   * `book_id = ?`, so text that is not all digits lists nothing.
   */
  function ListNotesByBookAsWritten(t: Tables, bookId: Option<string>, user: Auth.Claims): (r: Response)
    ensures Validation.ValidateId(bookId).Failure? ==> r == BadRequest(Validation.ValidateId(bookId).error)
    ensures Validation.ValidateId(bookId).Success? && SqlKey(bookId.value).None? ==> r == Response(200, NoteListBody(map[]))
    ensures r.body.NoteListBody? ==> forall n :: n in r.body.notes ==> n in t.notes && t.notes[n].userId == user.userId
  {
    match Validation.ValidateId(bookId)
    case Failure(e) => BadRequest(e)
    case Success(_) =>
      match SqlKey(bookId.value)
      case None => Response(200, NoteListBody(map[]))
      case Some(b) => Response(200, NoteListBody(Store.GetNotesByBookId(t, b, user.userId)))
  }

  /**
   * `updateNoteController` as written: `updateNote` looks the note up by the raw
   * text of `id`; when that matches nothing, its ownership guard throws.
   */
  function UpdateNoteAsWritten(t: Tables, id: Option<string>, body: NoteValidations.NoteInput, user: Auth.Claims): (r: Handled)
    ensures Validation.ValidateId(id).Failure? ==> r == Handled(BadRequest(Validation.ValidateId(id).error), t)
    ensures Validation.ValidateId(id).Success? && !NoteValidations.ValidNote(body) ==>
              r == Handled(BadRequest(NoteValidations.ValidateNote(body).error), t)
    ensures Validation.ValidateId(id).Success? && NoteValidations.ValidNote(body) && SqlKey(id.value).None? ==>
              r == Handled(Response(500, ErrorBody(NotYourNoteToEdit)), t)
  {
    match Validation.ValidateId(id)
    case Failure(e) => Handled(BadRequest(e), t)
    case Success(_) =>
      match Validation.ValidateNote(body)
      case Fail(e) => Handled(BadRequest(e), t)
      case Pass =>
        match SqlKey(id.value)
        case None => Handled(ServerError(NotYourNoteToEdit), t)
        case Some(k) =>
          var step := Store.UpdateNote(t, k, user.userId, TextOf(body.content), PageOrNull(body.pageNumber));
          match step.result
          case Success(note) => Handled(Response(200, NoteBody(note)), step.tables)
          case Failure(message) => Handled(ServerError(message), t)
  }

  /**
   * `deleteNoteController` as written: `deleteNote` looks the note up by the raw
   * text of `id`; when that matches nothing, its ownership guard throws.
   */
  function DeleteNoteAsWritten(t: Tables, id: Option<string>, user: Auth.Claims): (r: Handled)
    ensures Validation.ValidateId(id).Failure? ==> r == Handled(BadRequest(Validation.ValidateId(id).error), t)
    ensures Validation.ValidateId(id).Success? && SqlKey(id.value).None? ==>
              r == Handled(Response(500, ErrorBody(NotYourNoteToDelete)), t)
  {
    match Validation.ValidateId(id)
    case Failure(e) => Handled(BadRequest(e), t)
    case Success(_) =>
      match SqlKey(id.value)
      case None => Handled(ServerError(NotYourNoteToDelete), t)
      case Some(k) =>
        var step := Store.DeleteNote(t, k, user.userId);
        match step.result
        case Success(_) => Handled(Response(204, NoBody), step.tables)
        case Failure(message) => Handled(ServerError(message), t)
  }

  /** `validateId` and SQLite read the canonical decimal form of an id as the same number. */
  lemma DecimalIdReadAlike(n: nat)
    requires n > 0
    ensures Validation.ValidateId(Some(Decimal(n))) == Success(n)
    ensures SqlKey(Decimal(n)) == Some(n)
  {
    CommonValidations.ValidateIdDecimal(n);
    DigitsValueDecimal(n);
  }

  /** On the canonical decimal form of an id the file as written and the corrected controllers agree. */
  lemma AsWrittenAgreesOnDecimalIds(t: Tables, n: nat, body: NoteValidations.NoteInput, user: Auth.Claims)
    requires n > 0
    ensures GetNoteByIdAsWritten(t, Some(Decimal(n)), user) == GetNoteById(t, Some(Decimal(n)), user)
    ensures ListNotesByBookAsWritten(t, Some(Decimal(n)), user) == ListNotesByBook(t, Some(Decimal(n)), user)
    ensures UpdateNoteAsWritten(t, Some(Decimal(n)), body, user) == UpdateNote(t, Some(Decimal(n)), body, user)
    ensures DeleteNoteAsWritten(t, Some(Decimal(n)), user) == DeleteNote(t, Some(Decimal(n)), user)
  {
    DecimalIdReadAlike(n);
  }

  /** `validateId` and SQLite read an all-digit id as the same number, when `validateId` accepts it. */
  lemma DigitIdReadAlike(id: string)
    requires |id| > 0 && AllDigits(id)
    ensures SqlKey(id) == Some(DigitsValue(id))
    ensures Validation.ValidateId(Some(id)).Success? ==> Validation.ValidateId(Some(id)).value == DigitsValue(id)
  {
    ParseIntAllDigits(id);
  }

  /**
   * On any all-digit id, canonical or not (`"012"`), `validateId` and SQLite read
   * the same number, so the file as written and the corrected controllers agree.
   */
  lemma AsWrittenAgreesOnDigitIds(t: Tables, id: string, body: NoteValidations.NoteInput, user: Auth.Claims)
    requires |id| > 0 && AllDigits(id)
    ensures GetNoteByIdAsWritten(t, Some(id), user) == GetNoteById(t, Some(id), user)
    ensures ListNotesByBookAsWritten(t, Some(id), user) == ListNotesByBook(t, Some(id), user)
    ensures UpdateNoteAsWritten(t, Some(id), body, user) == UpdateNote(t, Some(id), body, user)
    ensures DeleteNoteAsWritten(t, Some(id), user) == DeleteNote(t, Some(id), user)
  {
    DigitIdReadAlike(id);
  }

  /**
   * An id with trailing text, such as `"12abc"`, passes `validateId` as its
   * leading number, but SQLite keeps it as text, which equals no integer id.
   */
  lemma TrailingTextReadApart(n: nat, rest: string)
    requires n > 0 && |rest| > 0 && !IsDigit(rest[0])
    ensures Validation.ValidateId(Some(Decimal(n) + rest)) == Success(n)
    ensures SqlKey(Decimal(n) + rest).None?
  {
    var id := Decimal(n) + rest;
    CommonValidations.ValidateIdDecimalThen(n, rest);
    assert !IsDigit(id[|Decimal(n)|]);
  }

  /** The discrepancy on GET: the note's owner is told the note does not exist. */
  lemma TrailingTextHidesOwnNote(t: Tables, user: Auth.Claims, n: nat, rest: string)
    requires n > 0 && n in t.notes && t.notes[n].userId == user.userId
    requires |rest| > 0 && !IsDigit(rest[0])
    ensures GetNoteByIdAsWritten(t, Some(Decimal(n) + rest), user) == Response(404, ErrorBody(NoteNotFound))
    ensures GetNoteById(t, Some(Decimal(n) + rest), user) == Response(200, NoteBody(t.notes[n]))
  {
    TrailingTextReadApart(n, rest);
  }

  /** The discrepancy on the book's list: the requester's note `m` on book `n` is not listed. */
  lemma TrailingTextEmptiesList(t: Tables, user: Auth.Claims, n: nat, rest: string, m: int)
    requires n > 0 && m in t.notes && t.notes[m].bookId == n && t.notes[m].userId == user.userId
    requires |rest| > 0 && !IsDigit(rest[0])
    ensures ListNotesByBookAsWritten(t, Some(Decimal(n) + rest), user) == Response(200, NoteListBody(map[]))
    ensures m in ListNotesByBook(t, Some(Decimal(n) + rest), user).body.notes
  {
    TrailingTextReadApart(n, rest);
  }

  /** The discrepancy on PUT: the owner's valid edit is refused as unauthorized and nothing changes. */
  lemma TrailingTextBlocksOwnUpdate(t: Tables, user: Auth.Claims, n: nat, rest: string, body: NoteValidations.NoteInput)
    requires n > 0 && n in t.notes && t.notes[n].userId == user.userId && NoteValidations.ValidNote(body)
    requires |rest| > 0 && !IsDigit(rest[0])
    ensures UpdateNoteAsWritten(t, Some(Decimal(n) + rest), body, user) == Handled(Response(500, ErrorBody(NotYourNoteToEdit)), t)
    ensures UpdateNote(t, Some(Decimal(n) + rest), body, user).response.status == 200
    ensures UpdateNote(t, Some(Decimal(n) + rest), body, user).tables.notes[n].content == body.content.s
  {
    TrailingTextReadApart(n, rest);
  }

  /** The discrepancy on DELETE: the owner's delete is refused as unauthorized and the note stays. */
  lemma TrailingTextBlocksOwnDelete(t: Tables, user: Auth.Claims, n: nat, rest: string)
    requires n > 0 && n in t.notes && t.notes[n].userId == user.userId
    requires |rest| > 0 && !IsDigit(rest[0])
    ensures DeleteNoteAsWritten(t, Some(Decimal(n) + rest), user) == Handled(Response(500, ErrorBody(NotYourNoteToDelete)), t)
    ensures DeleteNote(t, Some(Decimal(n) + rest), user) == Handled(Response(204, NoBody), t.(notes := t.notes - {n}))
  {
    TrailingTextReadApart(n, rest);
  }
}
