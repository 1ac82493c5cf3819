/**
 * The older single-file validators (`src/validation.js`). They run the same
 * checks as the per-entity modules; here each validator is written as its table
 * of checks, in source order, run by `FirstViolation`, and each is proved to
 * return exactly what the per-entity validator returns, for every input.
 */
module Validation {
  import opened Base
  import opened JsValues
  import opened Numbers
  import opened Email
  import opened Errors
  import UserValidations
  import BookValidations
  import AuthorValidations
  import NoteValidations
  import CommonValidations

  /** One `if (...) throw new ValidationError(...)` of a chain: whether it fires, and what it throws. */
  datatype Check = Check(violated: bool, error: ValidationError)

  /** Run a chain: the error of the first check that fires, or `Pass` when none does. */
  function FirstViolation(checks: seq<Check>): (r: Outcome)
    ensures r.Pass? <==> forall i :: 0 <= i < |checks| ==> !checks[i].violated
    ensures r.Fail? ==> exists i :: 0 <= i < |checks| && checks[i].violated && r.error == checks[i].error
                          && forall j :: 0 <= j < i ==> !checks[j].violated
  {
    if checks == [] then Pass
    else if checks[0].violated then Fail(checks[0].error)
    else
      var r := FirstViolation(checks[1..]);
      assert forall i :: 1 <= i < |checks| ==> checks[i] == checks[1..][i - 1];
      r
  }

  /** When check `i` fires and no earlier one does, the chain throws check `i`'s error. */
  lemma {:induction false} FirstViolationAt(checks: seq<Check>, i: nat)
    requires i < |checks| && checks[i].violated
    requires forall j :: 0 <= j < i ==> !checks[j].violated
    ensures FirstViolation(checks) == Fail(checks[i].error)
  {
    if i > 0 {
      assert checks[1..][i - 1] == checks[i];
      FirstViolationAt(checks[1..], i - 1);
    }
  }

  /** A chain of four checks, unrolled. */
  lemma FirstViolationFour(cs: seq<Check>)
    requires |cs| == 4
    ensures FirstViolation(cs) ==
              if cs[0].violated then Fail(cs[0].error)
              else if cs[1].violated then Fail(cs[1].error)
              else if cs[2].violated then Fail(cs[2].error)
              else if cs[3].violated then Fail(cs[3].error)
              else Pass
  {
    if cs[0].violated { FirstViolationAt(cs, 0); }
    else if cs[1].violated { FirstViolationAt(cs, 1); }
    else if cs[2].violated { FirstViolationAt(cs, 2); }
    else if cs[3].violated { FirstViolationAt(cs, 3); }
  }

  /** Running two chains one after the other: the first one's error, else the second one's outcome. */
  lemma {:induction false} FirstViolationAppend(a: seq<Check>, b: seq<Check>)
    ensures FirstViolation(a + b) == if FirstViolation(a).Fail? then FirstViolation(a) else FirstViolation(b)
  {
    if a == [] {
      assert a + b == b;
    } else {
      assert (a + b)[0] == a[0];
      assert (a + b)[1..] == a[1..] + b;
      FirstViolationAppend(a[1..], b);
    }
  }

  // ---- validateUserRegistration / validateUserLogin ----

  function RegistrationChecks(d: UserValidations.RegistrationInput): seq<Check> {
    var email, password, confirm := d.email, d.password, d.passwordConfirm;
    [ Check(!UserValidations.Present(email), FieldError(UserValidations.EmailRequired, "email")),
      Check(!UserValidations.Present(password), FieldError(UserValidations.PasswordRequired, "password")),
      Check(!UserValidations.Present(confirm), FieldError(UserValidations.ConfirmRequired, "passwordConfirm")),
      Check(!(email.Some? && IsEmail(email.value)), FieldError(UserValidations.EmailInvalid, "email")),
      Check(email.Some? && |email.value| > 255, FieldError(UserValidations.EmailTooLong, "email")),
      Check(password.Some? && |password.value| < 6, FieldError(UserValidations.PasswordTooShort, "password")),
      Check(password.Some? && |password.value| > 255, FieldError(UserValidations.PasswordTooLong, "password")),
      Check(password != confirm, FieldError(UserValidations.PasswordMismatch, "passwordConfirm")) ]
  }

  /** `ValidateUserRegistration`: its chain of checks, which throws exactly what the per-entity validator throws. */
  function ValidateUserRegistration(d: UserValidations.RegistrationInput): (r: Outcome)
    ensures r == UserValidations.ValidateUserRegistration(d)
  {
    RegistrationAgrees(d);
    FirstViolation(RegistrationChecks(d))
  }

  function LoginChecks(d: UserValidations.LoginInput): seq<Check> {
    [ Check(!UserValidations.Present(d.email), FieldError(UserValidations.EmailRequired, "email")),
      Check(!UserValidations.Present(d.password), FieldError(UserValidations.PasswordRequired, "password")),
      Check(!(d.email.Some? && IsEmail(d.email.value)), FieldError(UserValidations.EmailInvalid, "email")) ]
  }

  /** `ValidateUserLogin`: its chain of checks, which throws exactly what the per-entity validator throws. */
  function ValidateUserLogin(d: UserValidations.LoginInput): (r: Outcome)
    ensures r == UserValidations.ValidateUserLogin(d)
  {
    LoginAgrees(d);
    FirstViolation(LoginChecks(d))
  }

  // ---- validateBook ----

  function TitleChecks(title: JsValue): seq<Check> {
    [ Check(!Truthy(title), FieldError(BookValidations.TitleRequired, "title")),
      Check(!title.Str?, FieldError(BookValidations.TitleNotString, "title")),
      Check(title.Str? && |Trim(title.s)| == 0, FieldError(BookValidations.TitleBlank, "title")),
      Check(title.Str? && |title.s| > 255, FieldError(BookValidations.TitleTooLong, "title")) ]
  }

  function AuthorIdChecks(authorId: JsValue): seq<Check> {
    [ Check(!Truthy(authorId), FieldError(BookValidations.AuthorIdRequired, "authorId")),
      Check(!IsInteger(authorId), FieldError(BookValidations.AuthorIdNotInteger, "authorId")),
      Check(authorId.Int? && authorId.i <= 0, FieldError(BookValidations.AuthorIdNotPositive, "authorId")) ]
  }

  function BookChecks(d: BookValidations.BookInput): seq<Check> {
    TitleChecks(d.title) + AuthorIdChecks(d.authorId)
  }

  /** `ValidateBook`: its chain of checks, which throws exactly what the per-entity validator throws. */
  function ValidateBook(d: BookValidations.BookInput): (r: Outcome)
    ensures r == BookValidations.ValidateBook(d)
  {
    BookAgrees(d);
    FirstViolation(BookChecks(d))
  }

  // ---- validateAuthor ----

  function NameChecks(name: JsValue): seq<Check> {
    [ Check(!Truthy(name), FieldError(AuthorValidations.NameRequired, "name")),
      Check(!name.Str?, FieldError(AuthorValidations.NameNotString, "name")),
      Check(name.Str? && |Trim(name.s)| == 0, FieldError(AuthorValidations.NameBlank, "name")),
      Check(name.Str? && |name.s| > 255, FieldError(AuthorValidations.NameTooLong, "name")) ]
  }

  function BioChecks(bio: JsValue): seq<Check> {
    [ Check(!Nullish(bio) && !bio.Str?, FieldError(AuthorValidations.BioNotString, "bio")),
      Check(!Nullish(bio) && bio.Str? && |bio.s| > 1000, FieldError(AuthorValidations.BioTooLong, "bio")) ]
  }

  function AuthorChecks(d: AuthorValidations.AuthorInput): seq<Check> {
    NameChecks(d.name) + BioChecks(d.bio)
  }

  /** `ValidateAuthor`: its chain of checks, which throws exactly what the per-entity validator throws. */
  function ValidateAuthor(d: AuthorValidations.AuthorInput): (r: Outcome)
    ensures r == AuthorValidations.ValidateAuthor(d)
  {
    AuthorAgrees(d);
    FirstViolation(AuthorChecks(d))
  }

  // ---- validateNote ----

  function ContentChecks(content: JsValue): seq<Check> {
    [ Check(!Truthy(content), FieldError(NoteValidations.ContentRequired, "content")),
      Check(!content.Str?, FieldError(NoteValidations.ContentNotString, "content")),
      Check(content.Str? && |Trim(content.s)| == 0, FieldError(NoteValidations.ContentBlank, "content")),
      Check(content.Str? && |content.s| > 5000, FieldError(NoteValidations.ContentTooLong, "content")) ]
  }

  function PageNumberChecks(page: JsValue): seq<Check> {
    [ Check(!Nullish(page) && !IsInteger(page), FieldError(NoteValidations.PageNotInteger, "pageNumber")),
      Check(!Nullish(page) && page.Int? && page.i <= 0, FieldError(NoteValidations.PageNotPositive, "pageNumber")) ]
  }

  function BookIdChecks(bookId: JsValue): seq<Check> {
    [ Check(!Truthy(bookId), FieldError(NoteValidations.BookIdRequired, "bookId")),
      Check(!IsInteger(bookId), FieldError(NoteValidations.BookIdNotInteger, "bookId")),
      Check(bookId.Int? && bookId.i <= 0, FieldError(NoteValidations.BookIdNotPositive, "bookId")) ]
  }

  function NoteChecks(d: NoteValidations.NoteInput): seq<Check> {
    ContentChecks(d.content) + PageNumberChecks(d.pageNumber) + BookIdChecks(d.bookId)
  }

  /** `ValidateNote`: its chain of checks, which throws exactly what the per-entity validator throws. */
  function ValidateNote(d: NoteValidations.NoteInput): (r: Outcome)
    ensures r == NoteValidations.ValidateNote(d)
  {
    NoteAgrees(d);
    FirstViolation(NoteChecks(d))
  }

  // ---- validateId ----

  function IdChecks(id: Option<string>): seq<Check> {
    var parsed := if id.Some? then ParseInt(id.value) else None;
    [ Check(id.None? || id.value == "", FieldError(CommonValidations.IdRequired, "id")),
      Check(parsed.None? || parsed.value <= 0, FieldError(CommonValidations.IdNotPositive, "id")) ]
  }

  /** `validateId`: the chain of two checks, then the parsed number; the same value or error as the shared validator. */
  function ValidateId(id: Option<string>): (r: Result<int, ValidationError>)
    ensures r == CommonValidations.ValidateId(id)
  {
    IdAgrees(id);
    match FirstViolation(IdChecks(id))
    case Fail(e) => Failure(e)
    case Pass =>
      assert !IdChecks(id)[1].violated;
      Success(ParseInt(id.value).value)
  }

  // ---- the two copies agree ----

  lemma RegistrationAgrees(d: UserValidations.RegistrationInput)
    ensures FirstViolation(RegistrationChecks(d)) == UserValidations.ValidateUserRegistration(d)
  {
    var cs := RegistrationChecks(d);
    if !UserValidations.Present(d.email) { FirstViolationAt(cs, 0); }
    else if !UserValidations.Present(d.password) { FirstViolationAt(cs, 1); }
    else if !UserValidations.Present(d.passwordConfirm) { FirstViolationAt(cs, 2); }
    else if !IsEmail(d.email.value) { FirstViolationAt(cs, 3); }
    else if |d.email.value| > 255 { FirstViolationAt(cs, 4); }
    else if |d.password.value| < 6 { FirstViolationAt(cs, 5); }
    else if |d.password.value| > 255 { FirstViolationAt(cs, 6); }
    else if d.password != d.passwordConfirm { FirstViolationAt(cs, 7); }
  }

  lemma LoginAgrees(d: UserValidations.LoginInput)
    ensures FirstViolation(LoginChecks(d)) == UserValidations.ValidateUserLogin(d)
  {
    var cs := LoginChecks(d);
    if !UserValidations.Present(d.email) { FirstViolationAt(cs, 0); }
    else if !UserValidations.Present(d.password) { FirstViolationAt(cs, 1); }
    else if !IsEmail(d.email.value) { FirstViolationAt(cs, 2); }
  }

  /** The four title checks as a table agree with the title checks of the per-entity validator. */
  lemma TitleAgrees(t: JsValue)
    ensures FirstViolation(TitleChecks(t)) == BookValidations.CheckTitle(t)
  {
    FirstViolationFour(TitleChecks(t));
  }

  lemma AuthorIdAgrees(a: JsValue)
    ensures FirstViolation(AuthorIdChecks(a)) == BookValidations.CheckAuthorId(a)
  {
    var cs := AuthorIdChecks(a);
    if !Truthy(a) { FirstViolationAt(cs, 0); }
    else if !IsInteger(a) { FirstViolationAt(cs, 1); }
    else if a.i <= 0 { FirstViolationAt(cs, 2); }
  }

  lemma BookAgrees(d: BookValidations.BookInput)
    ensures FirstViolation(BookChecks(d)) == BookValidations.ValidateBook(d)
  {
    FirstViolationAppend(TitleChecks(d.title), AuthorIdChecks(d.authorId));
    TitleAgrees(d.title);
    AuthorIdAgrees(d.authorId);
  }

  lemma NameAgrees(n: JsValue)
    ensures FirstViolation(NameChecks(n)) == AuthorValidations.CheckName(n)
  {
    FirstViolationFour(NameChecks(n));
  }

  lemma BioAgrees(b: JsValue)
    ensures FirstViolation(BioChecks(b)) == AuthorValidations.CheckBio(b)
  {
    var cs := BioChecks(b);
    if !Nullish(b) && !b.Str? { FirstViolationAt(cs, 0); }
    else if !Nullish(b) && |b.s| > 1000 { FirstViolationAt(cs, 1); }
  }

  lemma AuthorAgrees(d: AuthorValidations.AuthorInput)
    ensures FirstViolation(AuthorChecks(d)) == AuthorValidations.ValidateAuthor(d)
  {
    FirstViolationAppend(NameChecks(d.name), BioChecks(d.bio));
    NameAgrees(d.name);
    BioAgrees(d.bio);
  }

  lemma ContentAgrees(c: JsValue)
    ensures FirstViolation(ContentChecks(c)) == NoteValidations.CheckContent(c)
  {
    FirstViolationFour(ContentChecks(c));
  }

  lemma PageNumberAgrees(p: JsValue)
    ensures FirstViolation(PageNumberChecks(p)) == NoteValidations.CheckPageNumber(p)
  {
    var cs := PageNumberChecks(p);
    if !Nullish(p) && !IsInteger(p) { FirstViolationAt(cs, 0); }
    else if !Nullish(p) && p.i <= 0 { FirstViolationAt(cs, 1); }
  }

  lemma BookIdAgrees(b: JsValue)
    ensures FirstViolation(BookIdChecks(b)) == NoteValidations.CheckBookId(b)
  {
    var cs := BookIdChecks(b);
    if !Truthy(b) { FirstViolationAt(cs, 0); }
    else if !IsInteger(b) { FirstViolationAt(cs, 1); }
    else if b.i <= 0 { FirstViolationAt(cs, 2); }
  }

  lemma NoteAgrees(d: NoteValidations.NoteInput)
    ensures FirstViolation(NoteChecks(d)) == NoteValidations.ValidateNote(d)
  {
    var c, p, b := ContentChecks(d.content), PageNumberChecks(d.pageNumber), BookIdChecks(d.bookId);
    FirstViolationAppend(c + p, b);
    FirstViolationAppend(c, p);
    ContentAgrees(d.content);
    PageNumberAgrees(d.pageNumber);
    BookIdAgrees(d.bookId);
  }

  lemma IdAgrees(id: Option<string>)
    ensures FirstViolation(IdChecks(id)).Pass? <==> CommonValidations.ValidateId(id).Success?
    ensures FirstViolation(IdChecks(id)).Fail? ==> FirstViolation(IdChecks(id)).error == CommonValidations.ValidateId(id).error
  {
    var cs := IdChecks(id);
    if id.None? || id.value == "" { FirstViolationAt(cs, 0); }
    else if cs[1].violated { FirstViolationAt(cs, 1); }
  }
}
