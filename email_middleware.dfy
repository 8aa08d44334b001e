/** The email check of app/middlewares/validateEmail.js, a copy of
    app/utils/validateEmail.js with the same guard and the same expression. */
module EmailMiddleware {
  import opened Text
  import opened JsValues
  import EmailValidation

  /** `validateEmail(email)` of the middleware: `email && email.length`, then
      the lower-cased string matched against the email expression. */
  function ValidateEmail(email: JsValue): (ok: bool)
    ensures ok ==> email.Str? && email.s != []
  {
    if !Truthy(email) then false
    else
      match email
      case Str(s) => EmailValidation.IsEmailAddress(AsciiLower(s))
      // numbers and booleans have no `length`; a plain object converts to
      // "[object Object]", which holds no `@`
      case _ => false
  }

  /** The middleware and the utility give the same verdict on every argument. */
  lemma AgreesWithUtility(email: JsValue)
    ensures ValidateEmail(email) == EmailValidation.ValidateEmail(email)
  {
  }

  /** Missing, empty and non-string arguments are rejected. */
  lemma RejectsEmpty(email: JsValue)
    requires !Truthy(email) || !email.Str?
    ensures !ValidateEmail(email)
  {
  }

  /** Letter case does not matter. */
  lemma CaseInsensitive(s: string, t: string)
    requires AsciiLower(s) == AsciiLower(t)
    ensures ValidateEmail(Str(s)) == ValidateEmail(Str(t))
  {
    EmailValidation.ValidateEmailCaseInsensitive(s, t);
  }

  /** The middleware accepts a string exactly when the expression matches it. */
  lemma MatchesPattern(s: string)
    ensures ValidateEmail(Str(s)) <==> EmailValidation.MatchesEmailPattern(s)
  {
    EmailValidation.ValidateEmailIsPattern(s);
  }

  /** A string without `@` is rejected. */
  lemma NeedsAt(s: string)
    requires '@' !in s
    ensures !ValidateEmail(Str(s))
  {
    EmailValidation.ValidateEmailNeedsAt(s);
  }

  /** Four groups of up to three digits in brackets pass, whatever their value. */
  lemma BracketDomainHasNoRangeCheck()
    ensures ValidateEmail(Str("user" + "@" + "[999.999.999.999]"))
  {
    EmailValidation.BracketDomainHasNoRangeCheck();
  }

  /** A domain not in brackets must end in a label of at least two letters. */
  lemma NamedDomainEndsInLetters(s: string)
    requires ValidateEmail(Str(s))
    requires var d := s[LastIndexOf(s, '@') + 1..]; d != [] && d[0] != '['
    ensures EmailValidation.AreDomainParts(Split(s[LastIndexOf(s, '@') + 1..], '.'))
  {
    EmailValidation.NamedDomainEndsInLetters(s);
  }
}
