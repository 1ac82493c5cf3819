/**
 * The relational effects of `src/db.js` on its four SQLite tables, as functions
 * from the tables before an operation to its result and the tables after it.
 * SQLite is reduced to what the schema declares: AUTOINCREMENT ids (per table,
 * never reused), UNIQUE `users.email` and `authors.name`, enforced foreign keys
 * (`PRAGMA foreign_keys = ON`), `ON DELETE CASCADE` from books to notes and
 * `ON DELETE SET NULL` from authors to books.
 */
module Store {
  import opened Base

  datatype UserRow = UserRow(email: string, password: string)
  datatype AuthorRow = AuthorRow(name: string, bio: Option<string>)
  datatype BookRow = BookRow(title: string, authorId: Option<int>, userId: int)
  datatype NoteRow = NoteRow(bookId: int, userId: int, content: string, pageNumber: Option<int>)

  /**
   * The four tables keyed by id, and each table's AUTOINCREMENT sequence: the
   * largest id it ever handed out.
   */
  datatype Tables = Tables(
    users: map<int, UserRow>,
    authors: map<int, AuthorRow>,
    books: map<int, BookRow>,
    notes: map<int, NoteRow>,
    userSeq: nat,
    authorSeq: nat,
    bookSeq: nat,
    noteSeq: nat)

  /** A freshly initialised database. */
  const Empty := Tables(map[], map[], map[], map[], 0, 0, 0, 0)

  /** The result of an operation and the tables it leaves behind. */
  datatype Step<T> = Step(result: Result<T, string>, tables: Tables)

  const UserExists := "User already exists"
  const TitleRequired := "title is required"
  const UserIdRequired := "userId is required"
  const NameRequired := "name is required"
  const AuthorExists := "Author already exists"
  const BookIdRequired := "bookId is required"
  const ContentRequired := "content is required"
  const NotYourNoteToEdit := "Unauthorized: you can only edit your own notes"
  const NotYourNoteToDelete := "Unauthorized: you can only delete your own notes"
  const ForeignKeyFailed := "FOREIGN KEY constraint failed"
  const AuthorNameTaken := "UNIQUE constraint failed: authors.name"

  /** Every id in the table lies between 1 and the table's sequence. */
  predicate KeysWithin<V>(m: map<int, V>, top: nat) {
    forall k :: k in m ==> 1 <= k <= top
  }

  /**
   * What the schema guarantees of a database: ids within their sequences, every
   * foreign key pointing at an existing row, and the two UNIQUE columns unique.
   */
  predicate Consistent(t: Tables) {
    && KeysWithin(t.users, t.userSeq)
    && KeysWithin(t.authors, t.authorSeq)
    && KeysWithin(t.books, t.bookSeq)
    && KeysWithin(t.notes, t.noteSeq)
    && (forall b :: b in t.books ==> t.books[b].userId in t.users)
    && (forall b :: b in t.books && t.books[b].authorId.Some? ==> t.books[b].authorId.value in t.authors)
    && (forall n :: n in t.notes ==> t.notes[n].bookId in t.books && t.notes[n].userId in t.users)
    && (forall u, v :: u in t.users && v in t.users && t.users[u].email == t.users[v].email ==> u == v)
    && (forall a, b :: a in t.authors && b in t.authors && t.authors[a].name == t.authors[b].name ==> a == b)
  }

  /** `x || null` for an optional integer: 0 becomes null. */
  function OrNull(x: Option<int>): (r: Option<int>)
    ensures r.Some? <==> x.Some? && x.value != 0
    ensures r.Some? ==> r == x
  {
    if x.Some? && x.value != 0 then x else None
  }

  /** `x || null` for an optional string: the empty string becomes null. */
  function OrNullText(x: Option<string>): (r: Option<string>)
    ensures r.Some? <==> x.Some? && x.value != ""
    ensures r.Some? ==> r == x
  {
    if x.Some? && x.value != "" then x else None
  }

  predicate EmailTaken(t: Tables, email: string) {
    exists u :: u in t.users && t.users[u].email == email
  }

  /** Some stored author already has this name (`getAuthorByName(name)` finds a row). */
  predicate NameTaken(t: Tables, name: string) {
    exists a :: a in t.authors && t.authors[a].name == name
  }

  predicate NameTakenByOther(t: Tables, name: string, except: int) {
    exists a :: a in t.authors && a != except && t.authors[a].name == name
  }

  // ============ Users ============

  /**
   * `createUser(email, password)` with `hashed` the password's hash: refuse an
   * email already stored; otherwise insert one user under the next id.
   */
  function CreateUser(t: Tables, email: string, hashed: string): (r: Step<(int, UserRow)>)
    ensures r.result.Failure? <==> EmailTaken(t, email)
    ensures r.result.Failure? ==> r.result.error == UserExists && r.tables == t
    ensures r.result.Success? ==>
              var (id, row) := r.result.value;
              && id == t.userSeq + 1 && row == UserRow(email, hashed)
              && r.tables == t.(users := t.users[id := row], userSeq := id)
    ensures Consistent(t) ==> Consistent(r.tables)
    ensures Consistent(t) && r.result.Success? ==> r.result.value.0 !in t.users
    ensures Follows(t, r.tables)
  {
    if EmailTaken(t, email) then Step(Failure(UserExists), t)
    else
      var id := t.userSeq + 1;
      var row := UserRow(email, hashed);
      Step(Success((id, row)), t.(users := t.users[id := row], userSeq := id))
  }

  // ============ Books ============

  /**
   * `createBook(title, authorId, userId)`: a falsy title or user id is refused;
   * `authorId || null` is stored; the foreign keys must resolve.
   */
  function CreateBook(t: Tables, title: string, authorId: Option<int>, userId: int): (r: Step<(int, BookRow)>)
    ensures r.result.Failure? ==> r.tables == t
    ensures r.result.Success? <==>
              title != "" && userId != 0 && userId in t.users
              && (OrNull(authorId).Some? ==> OrNull(authorId).value in t.authors)
    ensures title == "" ==> r.result == Failure(TitleRequired)
    ensures title != "" && userId == 0 ==> r.result == Failure(UserIdRequired)
    ensures r.result.Success? ==>
              var (id, row) := r.result.value;
              && id == t.bookSeq + 1 && row == BookRow(title, OrNull(authorId), userId)
              && r.tables == t.(books := t.books[id := row], bookSeq := id)
    ensures Consistent(t) ==> Consistent(r.tables)
    ensures Consistent(t) && r.result.Success? ==> r.result.value.0 !in t.books
    ensures Follows(t, r.tables)
  {
    var author := OrNull(authorId);
    if title == "" then Step(Failure(TitleRequired), t)
    else if userId == 0 then Step(Failure(UserIdRequired), t)
    else if (author.Some? && author.value !in t.authors) || userId !in t.users then Step(Failure(ForeignKeyFailed), t)
    else
      var id := t.bookSeq + 1;
      var row := BookRow(title, author, userId);
      Step(Success((id, row)), t.(books := t.books[id := row], bookSeq := id))
  }

  /**
   * `updateBook(id, title, authorId)`: set the title and `authorId || null` of
   * the book (its owner stays), and return it; a missing book is left alone and
   * gives nothing back.
   */
  function UpdateBook(t: Tables, id: int, title: string, authorId: Option<int>): (r: Step<Option<BookRow>>)
    ensures r.result.Failure? ==> r.result.error == ForeignKeyFailed && r.tables == t
    ensures id !in t.books ==> r == Step(Success(None), t)
    ensures id in t.books ==> (r.result.Success? <==> OrNull(authorId).Some? ==> OrNull(authorId).value in t.authors)
    ensures id in t.books && r.result.Success? ==>
              var row := BookRow(title, OrNull(authorId), t.books[id].userId);
              r.result.value == Some(row) && r.tables == t.(books := t.books[id := row])
    ensures Consistent(t) ==> Consistent(r.tables)
    ensures Follows(t, r.tables)
  {
    if id !in t.books then Step(Success(None), t)
    else
      var author := OrNull(authorId);
      if author.Some? && author.value !in t.authors then Step(Failure(ForeignKeyFailed), t)
      else
        var row := t.books[id].(title := title, authorId := author);
        Step(Success(Some(row)), t.(books := t.books[id := row]))
  }

  /** `deleteBook(id)`: remove the book and, by `ON DELETE CASCADE`, every note on it. */
  function DeleteBook(t: Tables, id: int): (r: Tables)
    ensures r.books == t.books - {id}
    ensures forall n :: n in r.notes <==> n in t.notes && t.notes[n].bookId != id
    ensures forall n :: n in r.notes ==> r.notes[n] == t.notes[n]
    ensures r.users == t.users && r.authors == t.authors
    ensures r.userSeq == t.userSeq && r.authorSeq == t.authorSeq && r.bookSeq == t.bookSeq && r.noteSeq == t.noteSeq
    ensures Consistent(t) ==> Consistent(r)
    ensures Follows(t, r)
  {
    t.(books := t.books - {id},
       notes := map n | n in t.notes && t.notes[n].bookId != id :: t.notes[n])
  }

  // ============ Authors ============

  /**
   * `createAuthor(name, bio)`: a falsy name or a name already stored is refused;
   * `bio || null` is stored.
   */
  function CreateAuthor(t: Tables, name: string, bio: Option<string>): (r: Step<(int, AuthorRow)>)
    ensures r.result.Failure? ==> r.tables == t
    ensures r.result.Success? <==> name != "" && !NameTaken(t, name)
    ensures name == "" ==> r.result == Failure(NameRequired)
    ensures name != "" && NameTaken(t, name) ==> r.result == Failure(AuthorExists)
    ensures r.result.Success? ==>
              var (id, row) := r.result.value;
              && id == t.authorSeq + 1 && row == AuthorRow(name, OrNullText(bio))
              && r.tables == t.(authors := t.authors[id := row], authorSeq := id)
    ensures Consistent(t) ==> Consistent(r.tables)
    ensures Consistent(t) && r.result.Success? ==> r.result.value.0 !in t.authors
    ensures Follows(t, r.tables)
  {
    if name == "" then Step(Failure(NameRequired), t)
    else if NameTaken(t, name) then Step(Failure(AuthorExists), t)
    else
      var id := t.authorSeq + 1;
      var row := AuthorRow(name, OrNullText(bio));
      Step(Success((id, row)), t.(authors := t.authors[id := row], authorSeq := id))
  }

  /**
   * `updateAuthor(id, name, bio)`: a falsy name is refused; a missing author is
   * left alone and gives nothing back; a name another author has violates the
   * UNIQUE constraint; otherwise name and `bio || null` are set.
   */
  function UpdateAuthor(t: Tables, id: int, name: string, bio: Option<string>): (r: Step<Option<AuthorRow>>)
    ensures r.result.Failure? ==> r.tables == t
    ensures name == "" ==> r.result == Failure(NameRequired)
    ensures name != "" && id !in t.authors ==> r == Step(Success(None), t)
    ensures name != "" && id in t.authors ==>
              (r.result.Failure? <==> NameTakenByOther(t, name, id))
    ensures r.result.Failure? && name != "" ==> r.result.error == AuthorNameTaken
    ensures r.result.Success? && id in t.authors ==>
              var row := AuthorRow(name, OrNullText(bio));
              r.result.value == Some(row) && r.tables == t.(authors := t.authors[id := row])
    ensures Consistent(t) ==> Consistent(r.tables)
    ensures Follows(t, r.tables)
  {
    if name == "" then Step(Failure(NameRequired), t)
    else if id !in t.authors then Step(Success(None), t)
    else if NameTakenByOther(t, name, id) then Step(Failure(AuthorNameTaken), t)
    else
      var row := AuthorRow(name, OrNullText(bio));
      Step(Success(Some(row)), t.(authors := t.authors[id := row]))
  }

  /** `deleteAuthor(id)`: remove the author; by `ON DELETE SET NULL` its books lose their author and stay. */
  function DeleteAuthor(t: Tables, id: int): (r: Tables)
    ensures r.authors == t.authors - {id}
    ensures r.books.Keys == t.books.Keys
    ensures forall b :: b in t.books ==>
              r.books[b] == if t.books[b].authorId == Some(id) then t.books[b].(authorId := None) else t.books[b]
    ensures r.users == t.users && r.notes == t.notes
    ensures r.userSeq == t.userSeq && r.authorSeq == t.authorSeq && r.bookSeq == t.bookSeq && r.noteSeq == t.noteSeq
    ensures Consistent(t) ==> Consistent(r)
    ensures Follows(t, r)
  {
    t.(authors := t.authors - {id},
       books := map b | b in t.books ::
                  if t.books[b].authorId == Some(id) then t.books[b].(authorId := None) else t.books[b])
  }

  // ============ Notes ============

  /** `getNotesByBookId(bookId, userId)`: the notes on that book that belong to that user, and no others. */
  function GetNotesByBookId(t: Tables, bookId: int, userId: int): (r: map<int, NoteRow>)
    ensures forall n :: n in r <==> n in t.notes && t.notes[n].bookId == bookId && t.notes[n].userId == userId
    ensures forall n :: n in r ==> r[n] == t.notes[n]
  {
    map n | n in t.notes && t.notes[n].bookId == bookId && t.notes[n].userId == userId :: t.notes[n]
  }

  /** `getNoteById(id)`. */
  function GetNoteById(t: Tables, id: int): (r: Option<NoteRow>)
    ensures r.Some? <==> id in t.notes
    ensures r.Some? ==> r.value == t.notes[id]
  {
    if id in t.notes then Some(t.notes[id]) else None
  }

  /**
   * `createNote(bookId, userId, content, pageNumber)`: falsy book id, user id or
   * content is refused in that order; the foreign keys must resolve; the note is
   * stored with `pageNumber || null` under the next id.
   */
  function CreateNote(t: Tables, bookId: int, userId: int, content: string, pageNumber: Option<int>): (r: Step<(int, NoteRow)>)
    ensures r.result.Failure? ==> r.tables == t
    ensures r.result.Success? <==>
              bookId != 0 && userId != 0 && content != "" && bookId in t.books && userId in t.users
    ensures bookId == 0 ==> r.result == Failure(BookIdRequired)
    ensures bookId != 0 && userId == 0 ==> r.result == Failure(UserIdRequired)
    ensures bookId != 0 && userId != 0 && content == "" ==> r.result == Failure(ContentRequired)
    ensures r.result.Success? ==>
              var (id, row) := r.result.value;
              && id == t.noteSeq + 1 && row == NoteRow(bookId, userId, content, OrNull(pageNumber))
              && r.tables == t.(notes := t.notes[id := row], noteSeq := id)
    ensures Consistent(t) ==> Consistent(r.tables)
    ensures Consistent(t) && r.result.Success? ==> r.result.value.0 !in t.notes
    ensures Follows(t, r.tables)
  {
    if bookId == 0 then Step(Failure(BookIdRequired), t)
    else if userId == 0 then Step(Failure(UserIdRequired), t)
    else if content == "" then Step(Failure(ContentRequired), t)
    else if bookId !in t.books || userId !in t.users then Step(Failure(ForeignKeyFailed), t)
    else
      var id := t.noteSeq + 1;
      var row := NoteRow(bookId, userId, content, OrNull(pageNumber));
      Step(Success((id, row)), t.(notes := t.notes[id := row], noteSeq := id))
  }

  /** The ownership guard of `updateNote` and `deleteNote`: the note exists and `note.user_id === userId`. */
  predicate OwnsNote(t: Tables, id: int, userId: int) {
    id in t.notes && t.notes[id].userId == userId
  }

  /**
   * `updateNote(id, userId, content, pageNumber)`: falsy content is refused; a
   * missing note or one owned by someone else is refused as unauthorized;
   * otherwise only that note's content and `pageNumber || null` change.
   */
  function UpdateNote(t: Tables, id: int, userId: int, content: string, pageNumber: Option<int>): (r: Step<NoteRow>)
    ensures r.result.Failure? ==> r.tables == t
    ensures r.result.Success? <==> content != "" && OwnsNote(t, id, userId)
    ensures content == "" ==> r.result == Failure(ContentRequired)
    ensures content != "" && !OwnsNote(t, id, userId) ==> r.result == Failure(NotYourNoteToEdit)
    ensures r.result.Success? ==>
              var row := NoteRow(t.notes[id].bookId, userId, content, OrNull(pageNumber));
              r.result.value == row && r.tables == t.(notes := t.notes[id := row])
    ensures Consistent(t) ==> Consistent(r.tables)
    ensures Follows(t, r.tables)
  {
    if content == "" then Step(Failure(ContentRequired), t)
    else if !OwnsNote(t, id, userId) then Step(Failure(NotYourNoteToEdit), t)
    else
      var row := t.notes[id].(content := content, pageNumber := OrNull(pageNumber));
      Step(Success(row), t.(notes := t.notes[id := row]))
  }

  /** `deleteNote(id, userId)`: the same guard, then exactly that note is removed. */
  function DeleteNote(t: Tables, id: int, userId: int): (r: Step<()>)
    ensures r.result.Failure? ==> r.tables == t
    ensures r.result.Success? <==> OwnsNote(t, id, userId)
    ensures r.result.Failure? ==> r.result.error == NotYourNoteToDelete
    ensures r.result.Success? ==> r.tables == t.(notes := t.notes - {id})
    ensures Consistent(t) ==> Consistent(r.tables)
    ensures Follows(t, r.tables)
  {
    if !OwnsNote(t, id, userId) then Step(Failure(NotYourNoteToDelete), t)
    else Step(Success(()), t.(notes := t.notes - {id}))
  }

  // ============ Histories ============

  /** One call of a mutating storage function, with its arguments. */
  datatype Op =
    | CreateUserOp(email: string, hashed: string)
    | CreateBookOp(title: string, authorId: Option<int>, bookOwner: int)
    | UpdateBookOp(updatedBook: int, newTitle: string, newAuthorId: Option<int>)
    | DeleteBookOp(deletedBook: int)
    | CreateAuthorOp(name: string, bio: Option<string>)
    | UpdateAuthorOp(updatedAuthor: int, newName: string, newBio: Option<string>)
    | DeleteAuthorOp(deletedAuthor: int)
    | CreateNoteOp(noteBook: int, noteOwner: int, content: string, pageNumber: Option<int>)
    | UpdateNoteOp(noteId: int, editor: int, newContent: string, newPageNumber: Option<int>)
    | DeleteNoteOp(deletedNote: int, deleter: int)

  /**
   * The tables after one call, whether it succeeded or threw: any call keeps the
   * database consistent, moves no sequence back and re-homes no note.
   */
  function Apply(t: Tables, op: Op): (r: Tables)
    ensures Consistent(t) ==> Consistent(r)
    ensures Follows(t, r)
  {
    match op
    case CreateUserOp(e, h) => CreateUser(t, e, h).tables
    case CreateBookOp(ti, a, u) => CreateBook(t, ti, a, u).tables
    case UpdateBookOp(b, ti, a) => UpdateBook(t, b, ti, a).tables
    case DeleteBookOp(b) => DeleteBook(t, b)
    case CreateAuthorOp(n, bio) => CreateAuthor(t, n, bio).tables
    case UpdateAuthorOp(a, n, bio) => UpdateAuthor(t, a, n, bio).tables
    case DeleteAuthorOp(a) => DeleteAuthor(t, a)
    case CreateNoteOp(b, u, c, p) => CreateNote(t, b, u, c, p).tables
    case UpdateNoteOp(n, u, c, p) => UpdateNote(t, n, u, c, p).tables
    case DeleteNoteOp(n, u) => DeleteNote(t, n, u).tables
  }

  /** The tables after a sequence of calls; over the whole history no sequence goes back and no note is re-homed. */
  function Run(t: Tables, ops: seq<Op>): (r: Tables)
    ensures Follows(t, r)
    decreases |ops|
  {
    if ops == [] then t
    else
      var u := Apply(t, ops[0]);
      var r := Run(u, ops[1..]);
      FollowsTransitive(t, u, r);
      r
  }

  /**
   * Over one call: no sequence goes back, no id at or below the old sequence
   * belongs to a row that was not already there (ids are never reused), and
   * every note that survives keeps its book and its owner.
   */
  predicate Follows(t: Tables, u: Tables) {
    && t.userSeq <= u.userSeq && t.authorSeq <= u.authorSeq
    && t.bookSeq <= u.bookSeq && t.noteSeq <= u.noteSeq
    && (forall x :: x in u.users && x <= t.userSeq ==> x in t.users)
    && (forall x :: x in u.authors && x <= t.authorSeq ==> x in t.authors)
    && (forall x :: x in u.books && x <= t.bookSeq ==> x in t.books)
    && (forall n :: n in u.notes && n <= t.noteSeq ==>
          n in t.notes && u.notes[n].bookId == t.notes[n].bookId && u.notes[n].userId == t.notes[n].userId)
  }

  lemma FollowsTransitive(t: Tables, u: Tables, v: Tables)
    requires Follows(t, u) && Follows(u, v)
    ensures Follows(t, v)
  {
  }

  /**
   * From any consistent database, whatever calls are made: the database stays
   * consistent, ids are never handed out twice (a sequence never goes back,
   * so an id at or below the old sequence can only belong to a row that was
   * already there), and no call moves a note to another book or another owner.
   */
  lemma {:induction false} RunFollows(t: Tables, ops: seq<Op>)
    requires Consistent(t)
    ensures Consistent(Run(t, ops))
    ensures Follows(t, Run(t, ops))
    decreases |ops|
  {
    if ops != [] {
      var u := Apply(t, ops[0]);
      RunFollows(u, ops[1..]);
      FollowsTransitive(t, u, Run(u, ops[1..]));
    }
  }

  /** A deleted note's id never comes back, whatever happens afterwards. */
  lemma DeletedNoteStaysDeleted(t: Tables, id: int, userId: int, ops: seq<Op>)
    requires Consistent(t) && OwnsNote(t, id, userId)
    ensures id !in Run(DeleteNote(t, id, userId).tables, ops).notes
  {
    var d := DeleteNote(t, id, userId).tables;
    RunFollows(d, ops);
  }

  /** A deleted book's id never comes back, whatever happens afterwards. */
  lemma DeletedBookStaysDeleted(t: Tables, id: int, ops: seq<Op>)
    requires Consistent(t) && id in t.books
    ensures id !in Run(DeleteBook(t, id), ops).books
  {
    RunFollows(DeleteBook(t, id), ops);
  }

  /** A deleted author's id never comes back, whatever happens afterwards. */
  lemma DeletedAuthorStaysDeleted(t: Tables, id: int, ops: seq<Op>)
    requires Consistent(t) && id in t.authors
    ensures id !in Run(DeleteAuthor(t, id), ops).authors
  {
    RunFollows(DeleteAuthor(t, id), ops);
  }

  /**
   * `deleteBook` checks no ownership: deleting a book removes every note on it,
   * whoever wrote them.
   */
  lemma DeleteBookRemovesEveryonesNotes(t: Tables, bookId: int, n: int)
    requires n in t.notes && t.notes[n].bookId == bookId
    ensures n !in DeleteBook(t, bookId).notes
    ensures bookId !in DeleteBook(t, bookId).books
  {
  }

  /** The empty database is consistent. */
  lemma EmptyConsistent()
    ensures Consistent(Empty)
  {
  }
}
