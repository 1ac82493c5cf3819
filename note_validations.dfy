/** The note validator (`validateNote`). */
module NoteValidations {
  import opened Base
  import opened JsValues
  import opened Errors

  /** The fields `validateNote` reads from a body (missing fields are `Undefined`). */
  datatype NoteInput = NoteInput(content: JsValue, pageNumber: JsValue, bookId: JsValue)

  const ContentRequired := "Conteúdo da nota é obrigatório"
  const ContentNotString := "Conteúdo deve ser uma string"
  const ContentBlank := "Conteúdo não pode estar vazio"
  const ContentTooLong := "Conteúdo muito longo (máximo 5000 caracteres)"
  const PageNotInteger := "Número da página deve ser um número inteiro"
  const PageNotPositive := "Número da página deve ser um número positivo"
  const BookIdRequired := "ID do livro é obrigatório"
  const BookIdNotInteger := "ID do livro deve ser um número inteiro"
  const BookIdNotPositive := "ID do livro deve ser um número positivo"

  /**
   * A note every check accepts: non-blank content of at most 5000 characters, an
   * absent or positive integer page number, and a positive integer book id.
   */
  predicate ValidNote(d: NoteInput) {
    ValidText(d.content, 5000) && OptionalPositiveInteger(d.pageNumber) && PositiveInteger(d.bookId)
  }

  /** The field the first failing check of `validateNote` reports. */
  function FirstBadNoteField(d: NoteInput): string {
    if !ValidText(d.content, 5000) then "content"
    else if !OptionalPositiveInteger(d.pageNumber) then "pageNumber"
    else "bookId"
  }

  /**
   * `validateNote`: content present, a string, not blank, at most 5000 long; then,
   * only when `pageNumber` is neither undefined nor null, an integer above zero;
   * then book id present, an integer, positive.
   */
  function ValidateNote(d: NoteInput): (r: Outcome)
    ensures r.Pass? <==> ValidNote(d)
    ensures CheckContent(d.content).Fail? ==> r == CheckContent(d.content)
    ensures r.Fail? ==> r.error.field == Some(FirstBadNoteField(d))
    ensures !Truthy(d.content) ==> r == Fail(FieldError(ContentRequired, "content"))
    ensures d.content.Str? && d.content.s != "" && Blank(d.content.s) ==> r == Fail(FieldError(ContentBlank, "content"))
    ensures ValidText(d.content, 5000) && !Nullish(d.pageNumber) && !IsInteger(d.pageNumber) ==>
              r == Fail(FieldError(PageNotInteger, "pageNumber"))
    ensures ValidText(d.content, 5000) && d.pageNumber.Int? && d.pageNumber.i <= 0 ==>
              r == Fail(FieldError(PageNotPositive, "pageNumber"))
    ensures ValidText(d.content, 5000) && OptionalPositiveInteger(d.pageNumber) && !Truthy(d.bookId) ==>
              r == Fail(FieldError(BookIdRequired, "bookId"))
    ensures ValidText(d.content, 5000) && OptionalPositiveInteger(d.pageNumber) && Truthy(d.bookId) && !IsInteger(d.bookId) ==>
              r == Fail(FieldError(BookIdNotInteger, "bookId"))
    ensures ValidText(d.content, 5000) && OptionalPositiveInteger(d.pageNumber) && d.bookId.Int? && d.bookId.i < 0 ==>
              r == Fail(FieldError(BookIdNotPositive, "bookId"))
  {
    var content := CheckContent(d.content);
    if content.Fail? then content
    else
      var page := CheckPageNumber(d.pageNumber);
      if page.Fail? then page else CheckBookId(d.bookId)
  }

  /** The four content checks of `validateNote`, in order. */
  function CheckContent(content: JsValue): (r: Outcome)
    ensures r.Pass? <==> ValidText(content, 5000)
    ensures r.Fail? ==> r.error.field == Some("content")
    ensures !Truthy(content) ==> r == Fail(FieldError(ContentRequired, "content"))
    ensures content.Str? && content.s != "" && Blank(content.s) ==> r == Fail(FieldError(ContentBlank, "content"))
    ensures Truthy(content) && !content.Str? ==> r == Fail(FieldError(ContentNotString, "content"))
    ensures content.Str? && !Blank(content.s) && |content.s| > 5000 ==> r == Fail(FieldError(ContentTooLong, "content"))
  {
    if !Truthy(content) then Fail(FieldError(ContentRequired, "content"))
    else if !content.Str? then Fail(FieldError(ContentNotString, "content"))
    else if |Trim(content.s)| == 0 then Fail(FieldError(ContentBlank, "content"))
    else if |content.s| > 5000 then Fail(FieldError(ContentTooLong, "content"))
    else Pass
  }

  /** The page-number checks of `validateNote`, skipped when it is undefined or null. */
  function CheckPageNumber(pageNumber: JsValue): (r: Outcome)
    ensures r.Pass? <==> OptionalPositiveInteger(pageNumber)
    ensures r.Fail? ==> r.error.field == Some("pageNumber")
    ensures !Nullish(pageNumber) && !IsInteger(pageNumber) ==> r == Fail(FieldError(PageNotInteger, "pageNumber"))
    ensures pageNumber.Int? && pageNumber.i <= 0 ==> r == Fail(FieldError(PageNotPositive, "pageNumber"))
  {
    if !Nullish(pageNumber) then
      if !IsInteger(pageNumber) then Fail(FieldError(PageNotInteger, "pageNumber"))
      else if pageNumber.i <= 0 then Fail(FieldError(PageNotPositive, "pageNumber"))
      else Pass
    else Pass
  }

  /** The three book-id checks of `validateNote`, in order. */
  function CheckBookId(bookId: JsValue): (r: Outcome)
    ensures r.Pass? <==> PositiveInteger(bookId)
    ensures r.Fail? ==> r.error.field == Some("bookId")
    ensures !Truthy(bookId) ==> r == Fail(FieldError(BookIdRequired, "bookId"))
    ensures Truthy(bookId) && !IsInteger(bookId) ==> r == Fail(FieldError(BookIdNotInteger, "bookId"))
    ensures bookId.Int? && bookId.i < 0 ==> r == Fail(FieldError(BookIdNotPositive, "bookId"))
  {
    if !Truthy(bookId) then Fail(FieldError(BookIdRequired, "bookId"))
    else if !IsInteger(bookId) then Fail(FieldError(BookIdNotInteger, "bookId"))
    else if bookId.i <= 0 then Fail(FieldError(BookIdNotPositive, "bookId"))
    else Pass
  }

  /** A bad page number is reported before a missing book id; an omitted page number is accepted. */
  lemma PageNumberExamples()
    ensures ValidateNote(NoteInput(Str("ok"), Int(-1), Int(1))) == Fail(FieldError(PageNotPositive, "pageNumber"))
    ensures ValidateNote(NoteInput(Str("ok"), Int(0), Undefined)) == Fail(FieldError(PageNotPositive, "pageNumber"))
    ensures ValidateNote(NoteInput(Str("ok"), Undefined, Int(1))) == Pass
  {
    assert !IsSpace('o');
    assert "ok"[0] == 'o';
  }
}
