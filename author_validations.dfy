/** The author validator (`validateAuthor`). */
module AuthorValidations {
  import opened Base
  import opened JsValues
  import opened Errors

  /** The fields `validateAuthor` reads from a body (missing fields are `Undefined`). */
  datatype AuthorInput = AuthorInput(name: JsValue, bio: JsValue)

  const NameRequired := "Nome do autor é obrigatório"
  const NameNotString := "Nome deve ser uma string"
  const NameBlank := "Nome não pode estar vazio"
  const NameTooLong := "Nome muito longo (máximo 255 caracteres)"
  const BioNotString := "Bio deve ser uma string"
  const BioTooLong := "Bio muito longa (máximo 1000 caracteres)"

  /** An author every check accepts: a non-blank name of at most 255 characters and an absent or short bio. */
  predicate ValidAuthor(d: AuthorInput) {
    ValidText(d.name, 255) && OptionalText(d.bio, 1000)
  }

  /**
   * `validateAuthor`: name present, a string, not blank, at most 255 long; then,
   * only when `bio` is neither undefined nor null, bio a string of at most 1000.
   */
  function ValidateAuthor(d: AuthorInput): (r: Outcome)
    ensures r.Pass? <==> ValidAuthor(d)
    ensures CheckName(d.name).Fail? ==> r == CheckName(d.name)
    ensures r.Fail? ==> r.error.field == Some(if ValidText(d.name, 255) then "bio" else "name")
    ensures !Truthy(d.name) ==> r == Fail(FieldError(NameRequired, "name"))
    ensures d.name.Str? && d.name.s != "" && Blank(d.name.s) ==> r == Fail(FieldError(NameBlank, "name"))
    ensures ValidText(d.name, 255) && !Nullish(d.bio) && !d.bio.Str? ==> r == Fail(FieldError(BioNotString, "bio"))
    ensures ValidText(d.name, 255) && d.bio.Str? && |d.bio.s| > 1000 ==> r == Fail(FieldError(BioTooLong, "bio"))
  {
    var name := CheckName(d.name);
    if name.Fail? then name else CheckBio(d.bio)
  }

  /** The four name checks of `validateAuthor`, in order. */
  function CheckName(name: JsValue): (r: Outcome)
    ensures r.Pass? <==> ValidText(name, 255)
    ensures r.Fail? ==> r.error.field == Some("name")
    ensures !Truthy(name) ==> r == Fail(FieldError(NameRequired, "name"))
    ensures name.Str? && name.s != "" && Blank(name.s) ==> r == Fail(FieldError(NameBlank, "name"))
    ensures Truthy(name) && !name.Str? ==> r == Fail(FieldError(NameNotString, "name"))
    ensures name.Str? && !Blank(name.s) && |name.s| > 255 ==> r == Fail(FieldError(NameTooLong, "name"))
  {
    if !Truthy(name) then Fail(FieldError(NameRequired, "name"))
    else if !name.Str? then Fail(FieldError(NameNotString, "name"))
    else if |Trim(name.s)| == 0 then Fail(FieldError(NameBlank, "name"))
    else if |name.s| > 255 then Fail(FieldError(NameTooLong, "name"))
    else Pass
  }

  /** The bio checks of `validateAuthor`, skipped when `bio` is undefined or null. */
  function CheckBio(bio: JsValue): (r: Outcome)
    ensures r.Pass? <==> OptionalText(bio, 1000)
    ensures r.Fail? ==> r.error.field == Some("bio")
    ensures !Nullish(bio) && !bio.Str? ==> r == Fail(FieldError(BioNotString, "bio"))
    ensures bio.Str? && |bio.s| > 1000 ==> r == Fail(FieldError(BioTooLong, "bio"))
  {
    if !Nullish(bio) then
      if !bio.Str? then Fail(FieldError(BioNotString, "bio"))
      else if |bio.s| > 1000 then Fail(FieldError(BioTooLong, "bio"))
      else Pass
    else Pass
  }

  /** A bio that is undefined, null or empty is accepted; the number 0 is not (it is not a string). */
  lemma BioExamples(name: string)
    requires 0 < |name| <= 255 && !IsSpace(name[0])
    ensures ValidateAuthor(AuthorInput(Str(name), Undefined)) == Pass
    ensures ValidateAuthor(AuthorInput(Str(name), Null)) == Pass
    ensures ValidateAuthor(AuthorInput(Str(name), Str(""))) == Pass
    ensures ValidateAuthor(AuthorInput(Str(name), Int(0))) == Fail(FieldError(BioNotString, "bio"))
  {
  }
}
