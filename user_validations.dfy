/** Registration and login validators (`validateUserRegistration`, `validateUserLogin`). */
module UserValidations {
  import opened Base
  import opened Email
  import opened Errors

  /** The fields of a registration or login body: absent or null (`None`), or a string. */
  datatype RegistrationInput = RegistrationInput(email: Option<string>, password: Option<string>, passwordConfirm: Option<string>)
  datatype LoginInput = LoginInput(email: Option<string>, password: Option<string>)

  const EmailRequired := "Email é obrigatório"
  const PasswordRequired := "Senha é obrigatória"
  const ConfirmRequired := "Confirmação de senha é obrigatória"
  const EmailInvalid := "Formato de email inválido"
  const EmailTooLong := "Email muito longo (máximo 255 caracteres)"
  const PasswordTooShort := "Senha deve ter no mínimo 6 caracteres"
  const PasswordTooLong := "Senha muito longa (máximo 255 caracteres)"
  const PasswordMismatch := "Senhas não coincidem"

  /** A truthy field: present and not the empty string. */
  predicate Present(f: Option<string>) {
    f.Some? && f.value != ""
  }

  /** A well-shaped email of at most 255 characters. */
  predicate GoodEmail(f: Option<string>) {
    f.Some? && IsEmail(f.value) && |f.value| <= 255
  }

  /** A password of 6 to 255 characters. */
  predicate GoodPassword(f: Option<string>) {
    f.Some? && 6 <= |f.value| <= 255
  }

  /** A registration every check accepts. */
  predicate ValidRegistration(d: RegistrationInput) {
    GoodEmail(d.email) && GoodPassword(d.password) && d.passwordConfirm == d.password
  }

  /**
   * `validateUserRegistration`: presence of email, password and confirmation in
   * that order, then the email's shape and length, then the password's length,
   * then the confirmation. The reported field is the one of the first failing check.
   */
  function ValidateUserRegistration(d: RegistrationInput): (r: Outcome)
    ensures r.Pass? <==> ValidRegistration(d)
    ensures !Present(d.email) ==> r == Fail(FieldError(EmailRequired, "email"))
    ensures Present(d.email) && !Present(d.password) ==> r == Fail(FieldError(PasswordRequired, "password"))
    ensures Present(d.email) && Present(d.password) && !Present(d.passwordConfirm) ==>
              r == Fail(FieldError(ConfirmRequired, "passwordConfirm"))
    ensures Present(d.email) && Present(d.password) && Present(d.passwordConfirm) && !IsEmail(d.email.value) ==>
              r == Fail(FieldError(EmailInvalid, "email"))
    ensures Present(d.password) && Present(d.passwordConfirm) && d.email.Some? && IsEmail(d.email.value) && |d.email.value| > 255 ==>
              r == Fail(FieldError(EmailTooLong, "email"))
    ensures Present(d.password) && Present(d.passwordConfirm) && GoodEmail(d.email) && |d.password.value| < 6 ==>
              r == Fail(FieldError(PasswordTooShort, "password"))
    ensures Present(d.passwordConfirm) && GoodEmail(d.email) && d.password.Some? && |d.password.value| > 255 ==>
              r == Fail(FieldError(PasswordTooLong, "password"))
    ensures Present(d.passwordConfirm) && GoodEmail(d.email) && GoodPassword(d.password) && d.passwordConfirm != d.password ==>
              r == Fail(FieldError(PasswordMismatch, "passwordConfirm"))
  {
    if !Present(d.email) then Fail(FieldError(EmailRequired, "email"))
    else if !Present(d.password) then Fail(FieldError(PasswordRequired, "password"))
    else if !Present(d.passwordConfirm) then Fail(FieldError(ConfirmRequired, "passwordConfirm"))
    else if !IsEmail(d.email.value) then Fail(FieldError(EmailInvalid, "email"))
    else if |d.email.value| > 255 then Fail(FieldError(EmailTooLong, "email"))
    else if |d.password.value| < 6 then Fail(FieldError(PasswordTooShort, "password"))
    else if |d.password.value| > 255 then Fail(FieldError(PasswordTooLong, "password"))
    else if d.password.value != d.passwordConfirm.value then Fail(FieldError(PasswordMismatch, "passwordConfirm"))
    else Pass
  }

  /** A login every check accepts: both fields present and a well-shaped email, with no length bounds. */
  predicate ValidLogin(d: LoginInput) {
    d.email.Some? && IsEmail(d.email.value) && Present(d.password)
  }

  /** `validateUserLogin`: email present, password present, then the email's shape. */
  function ValidateUserLogin(d: LoginInput): (r: Outcome)
    ensures r.Pass? <==> ValidLogin(d)
    ensures !Present(d.email) ==> r == Fail(FieldError(EmailRequired, "email"))
    ensures Present(d.email) && !Present(d.password) ==> r == Fail(FieldError(PasswordRequired, "password"))
    ensures Present(d.email) && Present(d.password) && !IsEmail(d.email.value) ==>
              r == Fail(FieldError(EmailInvalid, "email"))
  {
    if !Present(d.email) then Fail(FieldError(EmailRequired, "email"))
    else if !Present(d.password) then Fail(FieldError(PasswordRequired, "password"))
    else if !IsEmail(d.email.value) then Fail(FieldError(EmailInvalid, "email"))
    else Pass
  }

  /** A valid registration (`test@example.com`, `password123` twice) passes every check. */
  lemma RegistrationAcceptsExample()
    ensures ValidateUserRegistration(RegistrationInput(Some("test@example.com"), Some("password123"), Some("password123"))) == Pass
  {
    ExampleEmailAccepted();
  }

  /** The short password is reported before the confirmation: `"123"` twice fails on `password`. */
  lemma RegistrationShortPasswordReportedFirst()
    ensures ValidateUserRegistration(RegistrationInput(Some("test@example.com"), Some("123"), Some("123")))
            == Fail(FieldError(PasswordTooShort, "password"))
  {
    ExampleEmailAccepted();
  }

  /** Login has no length bounds: a one-character password passes; an empty one fails on `password`. */
  lemma LoginPasswordBounds()
    ensures ValidateUserLogin(LoginInput(Some("test@example.com"), Some("x"))) == Pass
    ensures ValidateUserLogin(LoginInput(Some("test@example.com"), Some(""))) == Fail(FieldError(PasswordRequired, "password"))
  {
    ExampleEmailAccepted();
  }
}
