/** The card validators of `composables/useCard.js`.  Each regular expression
    is written out as a predicate over the string (the reference meaning) and
    computed by a direct scan proved equal to it.  `validateURL` delegates to
    the platform's `URL` parser, which the model receives as the parameter
    `urlParses` (whether the constructor accepts the string). */
module CardValidation {
  import opened Wrappers
  import opened Strings
  import opened JsValues
  import opened Records

  // ---------------------------------------------------------------------
  // Email: /^[^\s@]+@[^\s@]+\.[^\s@]+$/

  /** A character of the class `[^\s@]`. */
  predicate IsEmailChar(c: char) {
    !IsWhitespace(c) && c != '@'
  }

  predicate AllEmailChars(t: string) {
    forall j :: 0 <= j < |t| ==> IsEmailChar(t[j])
  }

  /** The pattern matches `s` with its `@` at `i` and the `.` it needs at `k`:
      three non-empty runs of `[^\s@]` around them. */
  predicate EmailSplit(s: string, i: int, k: int) {
    && 0 < i && i + 1 < k && k + 1 < |s|
    && s[i] == '@' && s[k] == '.'
    && forall j :: 0 <= j < |s| && j != i ==> IsEmailChar(s[j])
  }

  /** Reference meaning of the email pattern. */
  ghost predicate EmailPattern(s: string) {
    exists i, k :: EmailSplit(s, i, k)
  }

  /** `validateEmail`: exactly one `@`, no whitespace, a non-empty local
      part, and a `.` in the domain with a character on each side of it. */
  function ValidateEmail(s: string): (ok: bool)
    ensures ok <==> EmailPattern(s)
  {
    match FindChar(s, 0, '@')
    case None => false
    case Some(i) =>
      var domain := s[i + 1..];
      var ok := i > 0 && AllEmailChars(s[..i]) && AllEmailChars(domain)
                && |domain| >= 2 && FindChar(domain, 1, '.').Some? && FindChar(domain, 1, '.').value < |domain| - 1;
      assert ok ==> EmailSplit(s, i, i + 1 + FindChar(domain, 1, '.').value) by {
        if ok {
          forall j | 0 <= j < |s| && j != i ensures IsEmailChar(s[j]) {
            if j < i { assert s[j] == s[..i][j]; } else { assert s[j] == domain[j - i - 1]; }
          }
        }
      }
      assert EmailPattern(s) ==> ok by {
        if EmailPattern(s) {
          var i', k :| EmailSplit(s, i', k);
          assert i' == i;
          assert AllEmailChars(s[..i]) by {
            forall j | 0 <= j < i ensures IsEmailChar(s[..i][j]) { assert s[..i][j] == s[j]; }
          }
          assert AllEmailChars(domain) by {
            forall j | 0 <= j < |domain| ensures IsEmailChar(domain[j]) { assert domain[j] == s[i + 1 + j]; }
          }
          assert domain[k - i - 1] == '.';
        }
      }
      ok
  }

  // ---------------------------------------------------------------------
  // Phone: /^[\+]?[0-9\s\-\(\)]{10,}$/

  /** A character of the class `[0-9\s\-\(\)]`. */
  predicate IsPhoneChar(c: char) {
    ('0' <= c <= '9') || IsWhitespace(c) || c == '-' || c == '(' || c == ')'
  }

  /** Every character of `s` from index `a` on is a phone character. */
  predicate PhoneCharsFrom(s: string, a: int) {
    forall j :: a <= j < |s| && 0 <= j ==> IsPhoneChar(s[j])
  }

  /** Reference meaning of the phone pattern: an optional `+`, then at least
      ten phone characters and nothing else. */
  predicate PhonePattern(s: string) {
    || (|s| >= 10 && PhoneCharsFrom(s, 0))
    || (|s| >= 11 && s[0] == '+' && PhoneCharsFrom(s, 1))
  }

  /** `validatePhone`: the greedy `[\+]?` takes a leading `+` when there is
      one; giving it back cannot help since `+` is not a phone character. */
  function ValidatePhone(s: string): (ok: bool)
    ensures ok <==> PhonePattern(s)
  {
    var start := if |s| > 0 && s[0] == '+' then 1 else 0;
    var ok := |s| - start >= 10 && forall j :: start <= j < |s| ==> IsPhoneChar(s[j]);
    assert start == 1 ==> !PhoneCharsFrom(s, 0) by {
      if start == 1 { assert !IsPhoneChar(s[0]); }
    }
    ok
  }

  // ---------------------------------------------------------------------
  // URL

  /** `validateURL`: a string not starting with `http` is tried with an
      `https://` prefix. */
  function ValidateUrl(url: string, urlParses: string -> bool): (ok: bool)
    ensures StartsWith(url, "http") ==> (ok <==> urlParses(url))
    ensures !StartsWith(url, "http") ==> (ok <==> urlParses("https://" + url))
  {
    urlParses(if StartsWith(url, "http") then url else "https://" + url)
  }

  // ---------------------------------------------------------------------
  // validateCard

  /** The fields `validateCard` checks, each reported under its own key of
      the `errors` object. */
  datatype CardField = FirstName | LastName | Company | Email | Mobile | Office | Website

  /** The property name of the field, in the card record and in `errors`. */
  function Key(f: CardField): string {
    match f
    case FirstName => "first_name"
    case LastName => "last_name"
    case Company => "company"
    case Email => "email"
    case Mobile => "mobile"
    case Office => "office"
    case Website => "website"
  }

  const AllFields: set<CardField> := {FirstName, LastName, Company, Email, Mobile, Office, Website}

  /** The result of `validateCard`: `errors` maps each failing field to its
      message. */
  datatype CardValidationResult = CardValidationResult(isValid: bool, errors: map<CardField, string>)

  /** An optional field fails when it is set (truthy) and its check rejects it. */
  predicate OptionalFails(v: JsString, check: string -> bool) {
    Truthy(v) && !check(v.s)
  }

  /** The message `validateCard` stores for `f`, when that field's check
      fails. */
  function FieldError(c: Card, urlParses: string -> bool, f: CardField): Option<string> {
    match f
    case FirstName => if !NonBlank(c.firstName) then Some("First name is required") else None
    case LastName => if !NonBlank(c.lastName) then Some("Last name is required") else None
    case Company => if !NonBlank(c.company) then Some("Company is required") else None
    case Email => if OptionalFails(c.email, ValidateEmail) then Some("Invalid email format") else None
    case Mobile => if OptionalFails(c.mobile, ValidatePhone) then Some("Invalid phone format") else None
    case Office => if OptionalFails(c.office, ValidatePhone) then Some("Invalid phone format") else None
    case Website =>
      if OptionalFails(c.website, s => ValidateUrl(s, urlParses)) then Some("Invalid URL format") else None
  }

  /** `validateCard`: one entry per failing check, valid when there is none. */
  function ValidateCard(c: Card, urlParses: string -> bool): (r: CardValidationResult)
    ensures r.isValid <==> r.errors == map[]
    ensures forall f :: f in r.errors <==> FieldError(c, urlParses, f).Some?
    ensures forall f :: f in r.errors ==> r.errors[f] == FieldError(c, urlParses, f).value
  {
    var errors := map f | f in AllFields && FieldError(c, urlParses, f).Some? :: FieldError(c, urlParses, f).value;
    CardValidationResult(|errors| == 0, errors)
  }

  /** The required fields: each is reported exactly when it is unset or
      blank after trimming. */
  lemma RequiredFieldChecks(c: Card, urlParses: string -> bool)
    ensures var errors := ValidateCard(c, urlParses).errors;
      && (FirstName in errors <==> !(c.firstName.Str? && !IsBlank(c.firstName.s)))
      && (LastName in errors <==> !(c.lastName.Str? && !IsBlank(c.lastName.s)))
      && (Company in errors <==> !(c.company.Str? && !IsBlank(c.company.s)))
  {
  }

  /** The optional fields: each is reported exactly when it is set and does
      not match its pattern, so an unset or empty one never is. */
  lemma OptionalFieldChecks(c: Card, urlParses: string -> bool)
    ensures var errors := ValidateCard(c, urlParses).errors;
      && (Email in errors <==> Truthy(c.email) && !EmailPattern(c.email.s))
      && (Mobile in errors <==> Truthy(c.mobile) && !PhonePattern(c.mobile.s))
      && (Office in errors <==> Truthy(c.office) && !PhonePattern(c.office.s))
      && (Website in errors <==> Truthy(c.website) && !ValidateUrl(c.website.s, urlParses))
  {
    assert FieldError(c, urlParses, Website).Some? <==> OptionalFails(c.website, s => ValidateUrl(s, urlParses));
  }

  /** The card is valid exactly when none of the seven checks fails. */
  lemma ValidIffNoFieldError(c: Card, urlParses: string -> bool)
    ensures ValidateCard(c, urlParses).isValid <==> forall f :: FieldError(c, urlParses, f).None?
  {
    var errors := ValidateCard(c, urlParses).errors;
    if forall f :: FieldError(c, urlParses, f).None? {
      assert forall f :: f !in errors;
      assert errors == map[];
    }
  }

  /** Unset or empty optional fields never produce an error: a card with its
      three required fields filled in and nothing else set is valid. */
  lemma EmptyOptionalFieldsAreValid(c: Card, urlParses: string -> bool)
    ensures NonBlank(c.firstName) && NonBlank(c.lastName) && NonBlank(c.company)
            && !Truthy(c.email) && !Truthy(c.mobile) && !Truthy(c.office) && !Truthy(c.website)
            ==> ValidateCard(c, urlParses).isValid
  {
    if NonBlank(c.firstName) && NonBlank(c.lastName) && NonBlank(c.company)
       && !Truthy(c.email) && !Truthy(c.mobile) && !Truthy(c.office) && !Truthy(c.website)
    {
      forall f ensures FieldError(c, urlParses, f).None? {
        match f
        case FirstName =>
        case LastName =>
        case Company =>
        case Email =>
        case Mobile =>
        case Office =>
        case Website =>
      }
      ValidIffNoFieldError(c, urlParses);
    }
  }
}
