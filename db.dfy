/**
 * The storage module `src/db.js` as an object whose tables change in place.
 * Each method does what the SQL statements do, step by step, and is proved to
 * leave exactly the tables (and return exactly the result) that the relational
 * contract in module `Store` prescribes; the properties of that contract
 * (consistency, fresh ids, owner guard, cascades) therefore hold of the object.
 */
module Db {
  import opened Base
  import opened Store

  class Database {
    var users: map<int, UserRow>
    var authors: map<int, AuthorRow>
    var books: map<int, BookRow>
    var notes: map<int, NoteRow>
    var userSeq: nat
    var authorSeq: nat
    var bookSeq: nat
    var noteSeq: nat

    /** The current contents of the four tables. */
    function Snapshot(): Tables
      reads this
    {
      Tables(users, authors, books, notes, userSeq, authorSeq, bookSeq, noteSeq)
    }

    ghost predicate Valid()
      reads this
    {
      Consistent(Snapshot())
    }

    /** `initDb()` on a new database file: four empty tables. */
    constructor ()
      ensures Valid()
      ensures Snapshot() == Empty
    {
      users, authors, books, notes := map[], map[], map[], map[];
      userSeq, authorSeq, bookSeq, noteSeq := 0, 0, 0, 0;
    }

    method CreateUser(email: string, hashed: string) returns (r: Result<(int, UserRow), string>)
      requires Valid()
      modifies this
      ensures Valid()
      ensures r == Store.CreateUser(old(Snapshot()), email, hashed).result
      ensures Snapshot() == Store.CreateUser(old(Snapshot()), email, hashed).tables
    {
      if EmailTaken(Snapshot(), email) {
        return Failure(UserExists);
      }
      var id := userSeq + 1;
      var row := UserRow(email, hashed);
      users := users[id := row];
      userSeq := id;
      r := Success((id, row));
    }

    method CreateBook(title: string, authorId: Option<int>, userId: int) returns (r: Result<(int, BookRow), string>)
      requires Valid()
      modifies this
      ensures Valid()
      ensures r == Store.CreateBook(old(Snapshot()), title, authorId, userId).result
      ensures Snapshot() == Store.CreateBook(old(Snapshot()), title, authorId, userId).tables
    {
      if title == "" {
        return Failure(TitleRequired);
      }
      if userId == 0 {
        return Failure(UserIdRequired);
      }
      var author := OrNull(authorId);
      if (author.Some? && author.value !in authors) || userId !in users {
        return Failure(ForeignKeyFailed);
      }
      var id := bookSeq + 1;
      var row := BookRow(title, author, userId);
      books := books[id := row];
      bookSeq := id;
      r := Success((id, row));
    }

    method UpdateBook(id: int, title: string, authorId: Option<int>) returns (r: Result<Option<BookRow>, string>)
      requires Valid()
      modifies this
      ensures Valid()
      ensures r == Store.UpdateBook(old(Snapshot()), id, title, authorId).result
      ensures Snapshot() == Store.UpdateBook(old(Snapshot()), id, title, authorId).tables
    {
      if id !in books {
        return Success(None);
      }
      var author := OrNull(authorId);
      if author.Some? && author.value !in authors {
        return Failure(ForeignKeyFailed);
      }
      var row := books[id].(title := title, authorId := author);
      books := books[id := row];
      r := Success(Some(row));
    }

    /** `deleteBook(id)`: the row goes, and with it (`ON DELETE CASCADE`) the book's notes. */
    method DeleteBook(id: int)
      requires Valid()
      modifies this
      ensures Valid()
      ensures Snapshot() == Store.DeleteBook(old(Snapshot()), id)
    {
      books := books - {id};
      notes := map n | n in notes && notes[n].bookId != id :: notes[n];
    }

    method CreateAuthor(name: string, bio: Option<string>) returns (r: Result<(int, AuthorRow), string>)
      requires Valid()
      modifies this
      ensures Valid()
      ensures r == Store.CreateAuthor(old(Snapshot()), name, bio).result
      ensures Snapshot() == Store.CreateAuthor(old(Snapshot()), name, bio).tables
    {
      if name == "" {
        return Failure(NameRequired);
      }
      if NameTaken(Snapshot(), name) {
        return Failure(AuthorExists);
      }
      var id := authorSeq + 1;
      var row := AuthorRow(name, OrNullText(bio));
      authors := authors[id := row];
      authorSeq := id;
      r := Success((id, row));
    }

    method UpdateAuthor(id: int, name: string, bio: Option<string>) returns (r: Result<Option<AuthorRow>, string>)
      requires Valid()
      modifies this
      ensures Valid()
      ensures r == Store.UpdateAuthor(old(Snapshot()), id, name, bio).result
      ensures Snapshot() == Store.UpdateAuthor(old(Snapshot()), id, name, bio).tables
    {
      if name == "" {
        return Failure(NameRequired);
      }
      if id !in authors {
        return Success(None);
      }
      if NameTakenByOther(Snapshot(), name, id) {
        return Failure(AuthorNameTaken);
      }
      var row := AuthorRow(name, OrNullText(bio));
      authors := authors[id := row];
      r := Success(Some(row));
    }

    /** `deleteAuthor(id)`: the row goes, and (`ON DELETE SET NULL`) its books lose their author. */
    method DeleteAuthor(id: int)
      requires Valid()
      modifies this
      ensures Valid()
      ensures Snapshot() == Store.DeleteAuthor(old(Snapshot()), id)
    {
      authors := authors - {id};
      books := map b | b in books :: if books[b].authorId == Some(id) then books[b].(authorId := None) else books[b];
    }

    method CreateNote(bookId: int, userId: int, content: string, pageNumber: Option<int>) returns (r: Result<(int, NoteRow), string>)
      requires Valid()
      modifies this
      ensures Valid()
      ensures r == Store.CreateNote(old(Snapshot()), bookId, userId, content, pageNumber).result
      ensures Snapshot() == Store.CreateNote(old(Snapshot()), bookId, userId, content, pageNumber).tables
    {
      if bookId == 0 {
        return Failure(BookIdRequired);
      }
      if userId == 0 {
        return Failure(UserIdRequired);
      }
      if content == "" {
        return Failure(ContentRequired);
      }
      if bookId !in books || userId !in users {
        return Failure(ForeignKeyFailed);
      }
      var id := noteSeq + 1;
      var row := NoteRow(bookId, userId, content, OrNull(pageNumber));
      notes := notes[id := row];
      noteSeq := id;
      r := Success((id, row));
    }

    /** `updateNote`: read the note, check its owner, then write content and page number. */
    method UpdateNote(id: int, userId: int, content: string, pageNumber: Option<int>) returns (r: Result<NoteRow, string>)
      requires Valid()
      modifies this
      ensures Valid()
      ensures r == Store.UpdateNote(old(Snapshot()), id, userId, content, pageNumber).result
      ensures Snapshot() == Store.UpdateNote(old(Snapshot()), id, userId, content, pageNumber).tables
    {
      if content == "" {
        return Failure(ContentRequired);
      }
      var note := Store.GetNoteById(Snapshot(), id);
      if note.None? || note.value.userId != userId {
        return Failure(NotYourNoteToEdit);
      }
      var row := note.value.(content := content, pageNumber := OrNull(pageNumber));
      notes := notes[id := row];
      r := Success(row);
    }

    /** `deleteNote`: read the note, check its owner, then remove it. */
    method DeleteNote(id: int, userId: int) returns (r: Result<(), string>)
      requires Valid()
      modifies this
      ensures Valid()
      ensures r == Store.DeleteNote(old(Snapshot()), id, userId).result
      ensures Snapshot() == Store.DeleteNote(old(Snapshot()), id, userId).tables
    {
      var note := Store.GetNoteById(Snapshot(), id);
      if note.None? || note.value.userId != userId {
        return Failure(NotYourNoteToDelete);
      }
      notes := notes - {id};
      r := Success(());
    }
  }
}
