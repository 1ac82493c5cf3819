/** The ID validator shared by every `/:id` route (`validateId`). */
module CommonValidations {
  import opened Base
  import opened JsValues
  import opened Numbers
  import opened Errors

  const IdRequired := "ID é obrigatório"
  const IdNotPositive := "ID deve ser um número inteiro positivo"

  /**
   * `validateId(id)` on a path parameter (`None` when the parameter is absent):
   * a falsy id fails as required before any parsing; otherwise the id is read
   * with `parseInt(id, 10)` and must give a positive integer, which is returned.
   */
  function ValidateId(id: Option<string>): (r: Result<int, ValidationError>)
    ensures r.Failure? ==> r.error.field == Some("id")
    ensures (id.None? || id.value == "") ==> r == Failure(FieldError(IdRequired, "id"))
    ensures r.Success? <==> id.Some? && id.value != "" && ParseInt(id.value).Some? && ParseInt(id.value).value > 0
    ensures r.Success? ==> r.value > 0 && ParseInt(id.value) == Some(r.value)
    ensures id.Some? && id.value != "" && r.Failure? ==> r.error == FieldError(IdNotPositive, "id")
  {
    if id.None? || id.value == "" then
      Failure(FieldError(IdRequired, "id"))
    else
      match ParseInt(id.value)
      case None => Failure(FieldError(IdNotPositive, "id"))
      case Some(n) =>
        if n <= 0 then Failure(FieldError(IdNotPositive, "id")) else Success(n)
  }

  /** Round trip: the decimal text of a positive integer validates to that integer. */
  lemma ValidateIdDecimal(n: nat)
    requires n > 0
    ensures ValidateId(Some(Decimal(n))) == Success(n)
  {
    ParseIntDecimal(n);
  }

  /**
   * Idempotence: validating the rendering of a validated id gives the same id,
   * so validating twice is the same as validating once.
   */
  lemma ValidateIdIdempotent(s: string)
    requires ValidateId(Some(s)).Success?
    ensures ValidateId(Some(Decimal(ValidateId(Some(s)).value))) == ValidateId(Some(s))
  {
    ValidateIdDecimal(ValidateId(Some(s)).value);
  }

  /** Trailing text after the digits is ignored: `String(n) + rest` validates to `n` (`"12abc"` to 12). */
  lemma ValidateIdDecimalThen(n: nat, rest: string)
    requires n > 0 && (rest == [] || !IsDigit(rest[0]))
    ensures ValidateId(Some(Decimal(n) + rest)) == Success(n)
  {
    ParseIntDecimalThen(n, rest);
  }

  /** Text without a leading digit fails as not positive (`"abc"` is NaN). */
  lemma ValidateIdRejectsText()
    ensures ValidateId(Some("abc")) == Failure(FieldError(IdNotPositive, "id"))
  {
    assert !IsSpace('a');
    assert TrimStart("abc") == "abc";
    ParseIntNoDigits("abc");
  }

  /** Zero parses but is not positive. */
  lemma ValidateIdRejectsZero()
    ensures ValidateId(Some("0")) == Failure(FieldError(IdNotPositive, "id"))
  {
    ParseIntDecimal(0);
    assert Decimal(0) == "0";
  }

  /** A negative number parses but is not positive. */
  lemma ValidateIdRejectsNegative()
    ensures ValidateId(Some("-5")) == Failure(FieldError(IdNotPositive, "id"))
  {
    assert !IsSpace('-');
    assert TrimStart("-5") == "-5";
    assert "-5"[1..] == "5";
    assert DigitRun("5") == 1;
    assert "5"[..1] == "5";
    assert ParseDigits("5") == Some(5);
  }
}
