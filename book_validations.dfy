/** The book validator (`validateBook`). */
module BookValidations {
  import opened Base
  import opened JsValues
  import opened Errors

  /** The fields `validateBook` reads from a body (missing fields are `Undefined`). */
  datatype BookInput = BookInput(title: JsValue, authorId: JsValue)

  const TitleRequired := "Título do livro é obrigatório"
  const TitleNotString := "Título deve ser uma string"
  const TitleBlank := "Título não pode estar vazio"
  const TitleTooLong := "Título muito longo (máximo 255 caracteres)"
  const AuthorIdRequired := "ID do autor é obrigatório"
  const AuthorIdNotInteger := "ID do autor deve ser um número inteiro"
  const AuthorIdNotPositive := "ID do autor deve ser um número positivo"

  /** A book every check accepts: a non-blank title of at most 255 characters and a positive integer author id. */
  predicate ValidBook(d: BookInput) {
    ValidText(d.title, 255) && PositiveInteger(d.authorId)
  }

  /** The field the first failing check of `validateBook` reports. */
  function FirstBadBookField(d: BookInput): string {
    if !ValidText(d.title, 255) then "title" else "authorId"
  }

  /**
   * `validateBook`: title present, a string, not blank after trimming, at most 255
   * long (untrimmed); then author id present, an integer, positive. Every title
   * check comes before every author-id check.
   */
  function ValidateBook(d: BookInput): (r: Outcome)
    ensures r.Pass? <==> ValidBook(d)
    ensures CheckTitle(d.title).Fail? ==> r == CheckTitle(d.title)
    ensures r.Fail? ==> r.error.field == Some(FirstBadBookField(d))
    ensures !Truthy(d.title) ==> r == Fail(FieldError(TitleRequired, "title"))
    ensures d.title.Str? && d.title.s != "" && Blank(d.title.s) ==> r == Fail(FieldError(TitleBlank, "title"))
    ensures ValidText(d.title, 255) && !Truthy(d.authorId) ==> r == Fail(FieldError(AuthorIdRequired, "authorId"))
    ensures ValidText(d.title, 255) && Truthy(d.authorId) && !IsInteger(d.authorId) ==>
              r == Fail(FieldError(AuthorIdNotInteger, "authorId"))
    ensures ValidText(d.title, 255) && d.authorId.Int? && d.authorId.i < 0 ==>
              r == Fail(FieldError(AuthorIdNotPositive, "authorId"))
  {
    var title := CheckTitle(d.title);
    if title.Fail? then title else CheckAuthorId(d.authorId)
  }

  /** The four title checks of `validateBook`, in order. */
  function CheckTitle(title: JsValue): (r: Outcome)
    ensures r.Pass? <==> ValidText(title, 255)
    ensures r.Fail? ==> r.error.field == Some("title")
    ensures !Truthy(title) ==> r == Fail(FieldError(TitleRequired, "title"))
    ensures title.Str? && title.s != "" && Blank(title.s) ==> r == Fail(FieldError(TitleBlank, "title"))
    ensures Truthy(title) && !title.Str? ==> r == Fail(FieldError(TitleNotString, "title"))
    ensures title.Str? && !Blank(title.s) && |title.s| > 255 ==> r == Fail(FieldError(TitleTooLong, "title"))
  {
    if !Truthy(title) then Fail(FieldError(TitleRequired, "title"))
    else if !title.Str? then Fail(FieldError(TitleNotString, "title"))
    else if |Trim(title.s)| == 0 then Fail(FieldError(TitleBlank, "title"))
    else if |title.s| > 255 then Fail(FieldError(TitleTooLong, "title"))
    else Pass
  }

  /** The three author-id checks of `validateBook`, in order. */
  function CheckAuthorId(authorId: JsValue): (r: Outcome)
    ensures r.Pass? <==> PositiveInteger(authorId)
    ensures r.Fail? ==> r.error.field == Some("authorId")
    ensures !Truthy(authorId) ==> r == Fail(FieldError(AuthorIdRequired, "authorId"))
    ensures Truthy(authorId) && !IsInteger(authorId) ==> r == Fail(FieldError(AuthorIdNotInteger, "authorId"))
    ensures authorId.Int? && authorId.i < 0 ==> r == Fail(FieldError(AuthorIdNotPositive, "authorId"))
  {
    if !Truthy(authorId) then Fail(FieldError(AuthorIdRequired, "authorId"))
    else if !IsInteger(authorId) then Fail(FieldError(AuthorIdNotInteger, "authorId"))
    else if authorId.i <= 0 then Fail(FieldError(AuthorIdNotPositive, "authorId"))
    else Pass
  }

  /** A title of exactly 255 characters passes the length check; 256 fails it. */
  lemma TitleLengthBoundary(t: string, a: int)
    requires |t| >= 255 && !IsSpace(t[0]) && a > 0
    ensures ValidateBook(BookInput(Str(t[..255]), Int(a))) == Pass
    ensures |t| > 255 ==> ValidateBook(BookInput(Str(t[..256]), Int(a))) == Fail(FieldError(TitleTooLong, "title"))
  {
    assert t[..255][0] == t[0];
    if |t| > 255 {
      assert t[..256][0] == t[0];
    }
  }

  /** A one-line title that starts with a visible character passes every title check. */
  lemma TitlePasses(s: string)
    requires 0 < |s| <= 255 && !IsSpace(s[0])
    ensures CheckTitle(Str(s)) == Pass
  {
    assert !Blank(s);
  }

  /** An author id sent as text (`"7"`) fails at the integer check. */
  lemma AuthorIdTextExample()
    ensures ValidateBook(BookInput(Str("X"), Str("7"))) == Fail(FieldError(AuthorIdNotInteger, "authorId"))
  {
    assert ValidateBook(BookInput(Str("X"), Str("7"))) == CheckAuthorId(Str("7")) by {
      assert !IsSpace('X');
      TitlePasses("X");
    }
  }

  /** The author id 0 fails at the presence check, -1 at the positivity check. */
  lemma AuthorIdNumberExamples()
    ensures ValidateBook(BookInput(Str("Dune"), Int(0))) == Fail(FieldError(AuthorIdRequired, "authorId"))
    ensures ValidateBook(BookInput(Str("Dune"), Int(-1))) == Fail(FieldError(AuthorIdNotPositive, "authorId"))
  {
    assert !IsSpace('D');
    TitlePasses("Dune");
  }
}
