/**
 * The older in-memory store `src/data.js`: two module-level arrays that only
 * ever grow by `push`, with each new id the decimal text of the array's new
 * length. The arrays are fields of type `seq`; `push` reassigns them.
 */
module Data {
  import opened Base
  import opened JsValues
  import opened Numbers

  datatype MemUser = MemUser(id: string, email: string, password: string)
  datatype MemBook = MemBook(id: string, title: JsValue, authorId: JsValue)

  const UserExists := "User already exists"
  const TitleRequired := "title is required"
  const AuthorIdRequired := "authorId is required"

  /** `s.findIndex(p)`: the first position whose element satisfies `p`, if any. */
  function FindIndex<T>(s: seq<T>, p: T -> bool): (r: Option<nat>)
    ensures r.Some? ==> r.value < |s| && p(s[r.value])
    ensures r.Some? ==> forall j :: 0 <= j < r.value ==> !p(s[j])
    ensures r.None? <==> forall j :: 0 <= j < |s| ==> !p(s[j])
    decreases |s|
  {
    if s == [] then None
    else if p(s[0]) then Some(0)
    else
      var rest := FindIndex(s[1..], p);
      if rest.Some? then Some(rest.value + 1) else None
  }

  /** Positions are ids: entry `i` has id `String(i + 1)`. */
  predicate IdsArePositions<T>(s: seq<T>, id: T -> string) {
    forall i :: 0 <= i < |s| ==> id(s[i]) == Decimal(i + 1)
  }

  predicate DistinctEmails(users: seq<MemUser>) {
    forall i, j :: 0 <= i < |users| && 0 <= j < |users| && users[i].email == users[j].email ==> i == j
  }

  class MemoryStore {
    var users: seq<MemUser>
    var books: seq<MemBook>

    ghost predicate Valid()
      reads this
    {
      && IdsArePositions(users, (u: MemUser) => u.id)
      && IdsArePositions(books, (b: MemBook) => b.id)
      && DistinctEmails(users)
    }

    /**
     * The module's initial arrays: the test user (with `seedHash` the hash of its
     * password) and one example book.
     */
    constructor (seedHash: string)
      ensures users == [MemUser("1", "test@example.com", seedHash)]
      ensures books == [MemBook("1", Str("The Hobbit"), Str("1"))]
      ensures Valid()
    {
      users := [MemUser("1", "test@example.com", seedHash)];
      books := [MemBook("1", Str("The Hobbit"), Str("1"))];
      assert Decimal(1) == "1";
    }

    /** `findUserByEmail(email)`: the first user with that email, if any. */
    function FindUserByEmail(email: string): (r: Option<MemUser>)
      reads this
      ensures r.None? <==> forall i :: 0 <= i < |users| ==> users[i].email != email
      ensures r.Some? ==> exists i :: 0 <= i < |users| && users[i] == r.value
                            && r.value.email == email
                            && forall j :: 0 <= j < i ==> users[j].email != email
    {
      var i := FindIndex(users, (u: MemUser) => u.email == email);
      if i.Some? then Some(users[i.value]) else None
    }

    /** `getUserById(id)`: the first user with that id, if any. */
    function GetUserById(id: string): (r: Option<MemUser>)
      reads this
      ensures r.None? <==> forall i :: 0 <= i < |users| ==> users[i].id != id
      ensures r.Some? ==> exists i :: 0 <= i < |users| && users[i] == r.value
                            && r.value.id == id
                            && forall j :: 0 <= j < i ==> users[j].id != id
    {
      var i := FindIndex(users, (u: MemUser) => u.id == id);
      if i.Some? then Some(users[i.value]) else None
    }

    /** In a valid store the user with id `String(k)` is the `k`-th one pushed. */
    lemma GetUserByIdIsPosition(k: nat)
      requires Valid() && 1 <= k <= |users|
      ensures GetUserById(Decimal(k)) == Some(users[k - 1])
    {
      var r := GetUserById(Decimal(k));
      assert users[k - 1].id == Decimal(k);
      var i :| 0 <= i < |users| && users[i] == r.value && r.value.id == Decimal(k);
      DecimalInjective(i + 1, k);
    }

    /** In a valid store an email identifies one user, wherever `find` starts looking. */
    lemma FindUserByEmailUnique(i: nat)
      requires Valid() && i < |users|
      ensures FindUserByEmail(users[i].email) == Some(users[i])
    {
      var r := FindUserByEmail(users[i].email);
      var j :| 0 <= j < |users| && users[j] == r.value && r.value.email == users[i].email;
    }

    /**
     * `createUser(email, password)` with `hashed` the password's hash: an email
     * already present is refused and nothing changes; otherwise one user is
     * pushed, with id `String(users.length + 1)`, and returned.
     */
    method CreateUser(email: string, hashed: string) returns (r: Result<MemUser, string>)
      requires Valid()
      modifies this
      ensures Valid()
      ensures books == old(books)
      ensures r.Failure? <==> exists i :: 0 <= i < |old(users)| && old(users)[i].email == email
      ensures r.Failure? ==> r.error == UserExists && users == old(users)
      ensures r.Success? ==> r.value == MemUser(Decimal(|old(users)| + 1), email, hashed)
                             && users == old(users) + [r.value]
    {
      var existing := FindUserByEmail(email);
      if existing.Some? {
        return Failure(UserExists);
      }
      var user := MemUser(Decimal(|users| + 1), email, hashed);
      users := users + [user];
      r := Success(user);
    }

    /**
     * `validateUserCredentials(email, password)` with `matches` standing for
     * `bcrypt.compare`: the user with that email when the password matches its
     * hash, otherwise nothing.
     */
    function ValidateUserCredentials(email: string, password: string, matches: (string, string) -> bool): (r: Option<MemUser>)
      reads this
      ensures (forall i :: 0 <= i < |users| ==> users[i].email != email) ==> r.None?
      ensures r.Some? ==> r.value.email == email && matches(password, r.value.password)
                          && exists i :: 0 <= i < |users| && users[i] == r.value
      ensures FindUserByEmail(email).Some? && matches(password, FindUserByEmail(email).value.password) ==> r.Some?
    {
      var user := FindUserByEmail(email);
      if user.None? then None
      else if matches(password, user.value.password) then user
      else None
    }

    /** `getBooks()`: every book, in insertion order. */
    method GetBooks() returns (r: seq<MemBook>)
      ensures r == books
    {
      r := books;
    }

    /**
     * `createBook(title, authorId)`: a falsy title or author id is refused and
     * nothing changes; otherwise one book is pushed and returned.
     */
    method CreateBook(title: JsValue, authorId: JsValue) returns (r: Result<MemBook, string>)
      requires Valid()
      modifies this
      ensures Valid()
      ensures users == old(users)
      ensures r.Failure? <==> !Truthy(title) || !Truthy(authorId)
      ensures !Truthy(title) ==> r == Failure(TitleRequired)
      ensures Truthy(title) && !Truthy(authorId) ==> r == Failure(AuthorIdRequired)
      ensures r.Failure? ==> books == old(books)
      ensures r.Success? ==> r.value == MemBook(Decimal(|old(books)| + 1), title, authorId)
                             && books == old(books) + [r.value]
    {
      if !Truthy(title) {
        return Failure(TitleRequired);
      }
      if !Truthy(authorId) {
        return Failure(AuthorIdRequired);
      }
      var book := MemBook(Decimal(|books| + 1), title, authorId);
      books := books + [book];
      r := Success(book);
    }
  }
}
