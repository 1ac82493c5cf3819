/** The validators' failure type, `ValidationError`, and the result of one validator run. */
module Errors {
  import opened Base

  /**
   * A field-tagged validation failure: `new ValidationError(message, field)`.
   * Its `name` is always `"ValidationError"`; `field` is `null` (`None`) when omitted.
   */
  datatype ValidationError = ValidationError(message: string, field: Option<string>) {
    const name: string := "ValidationError"
  }

  /** The constructor, with the field defaulting to `null`. */
  function NewValidationError(message: string, field: Option<string> := None): (e: ValidationError)
    ensures e.message == message && e.field == field && e.name == "ValidationError"
  {
    ValidationError(message, field)
  }

  /** The error every validator throws: a message tagged with the offending field. */
  function FieldError(message: string, field: string): (e: ValidationError)
    ensures e.field == Some(field)
  {
    NewValidationError(message, Some(field))
  }

  /** What a validator does: return normally, or throw its first `ValidationError`. */
  datatype Outcome = Pass | Fail(error: ValidationError)

  /** Omitting the field gives an error whose field is `null`. */
  lemma FieldDefaultsToNull(message: string)
    ensures NewValidationError(message).field == None
    ensures NewValidationError(message).message == message
  {
  }
}
