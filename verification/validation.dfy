/**
 The per-field validation rules: a map from a field and its raw value to an
 error message, where the empty message means the value is valid.
 */
module Validation {
  import opened JsText
  import opened Patterns
  import opened FormFields

  /** The `switch (field)` of `validateField`. Fields without a case (here only
      `countryCode`) fall through with the empty message. Every format check
      looks at the untrimmed value. */
  function Rule(f: Field, v: string): (error: string)
    ensures error == "" || error == RequiredMessage(f) || error == FormatMessage(f)
  {
    match f
    case FirstName => if IsBlank(v) then "First name is required" else ""
    case LastName => if IsBlank(v) then "Last name is required" else ""
    case Username =>
      if IsBlank(v) then "Username is required"
      else if CodeUnits(v) < 3 then "Username must be at least 3 characters"
      else ""
    case Email =>
      if IsBlank(v) then "Email is required"
      else if !EmailTest(v) then "Email is invalid"
      else ""
    case Password =>
      if v == "" then "Password is required"
      else if CodeUnits(v) < 6 then "Password must be at least 6 characters"
      else ""
    case PhoneNo =>
      if IsBlank(v) then "Phone number is required"
      else if !MatchesAnchored(v, PhonePattern) then "Phone number must be 10 digits"
      else ""
    case Country => if v == "" then "Country is required" else ""
    case City => if v == "" then "City is required" else ""
    case PanNo =>
      if IsBlank(v) then "PAN number is required"
      else if !MatchesAnchored(v, PanPattern) then "Invalid PAN format"
      else ""
    case AadharNo =>
      if IsBlank(v) then "Aadhar number is required"
      else if !MatchesAnchored(v, AadharPattern) then "Aadhar must be 12 digits"
      else ""
    case CountryCode => ""
  }

  /** The message a field reports when its value is missing. */
  function RequiredMessage(f: Field): string {
    match f
    case FirstName => "First name is required"
    case LastName => "Last name is required"
    case Username => "Username is required"
    case Email => "Email is required"
    case Password => "Password is required"
    case PhoneNo => "Phone number is required"
    case Country => "Country is required"
    case City => "City is required"
    case PanNo => "PAN number is required"
    case AadharNo => "Aadhar number is required"
    case CountryCode => ""
  }

  /** The message a field reports when its value is present but ill-formed;
      empty for the fields that only check presence. */
  function FormatMessage(f: Field): string {
    match f
    case Username => "Username must be at least 3 characters"
    case Email => "Email is invalid"
    case Password => "Password must be at least 6 characters"
    case PhoneNo => "Phone number must be 10 digits"
    case PanNo => "Invalid PAN format"
    case AadharNo => "Aadhar must be 12 digits"
    case _ => ""
  }

  /** The fields whose presence check trims the value first. */
  predicate TrimsForPresence(f: Field) {
    f in {FirstName, LastName, Username, Email, PhoneNo, PanNo, AadharNo}
  }

  /** The presence check fails: a trimming field holds only whitespace, or a
      non-trimming field (password, country, city) holds the empty string.
      `countryCode` is never checked. */
  ghost predicate Missing(f: Field, v: string) {
    if TrimsForPresence(f) then AllSpace(v)
    else if f == CountryCode then false
    else v == ""
  }

  /** The format check passes, stated character by character. Lengths are
      JavaScript lengths (UTF-16 code units). */
  ghost predicate WellFormed(f: Field, v: string) {
    match f
    case Username => CodeUnits(v) >= 3
    case Email => EmailSearch(v)
    case Password => CodeUnits(v) >= 6
    case PhoneNo => DigitString(v, 10)
    case PanNo => PanShape(v)
    case AadharNo => DigitString(v, 12)
    case _ => true
  }

  /** What a valid value is: present and well-formed. */
  ghost predicate Acceptable(f: Field, v: string) {
    !Missing(f, v) && WellFormed(f, v)
  }

  /** The rule checks presence first, then format, and reports the matching
      message; a value that passes both gets the empty message. */
  lemma RuleCharacterised(f: Field, v: string)
    ensures Rule(f, v) ==
            if Missing(f, v) then RequiredMessage(f)
            else if !WellFormed(f, v) then FormatMessage(f)
            else ""
  {
    EmailTestIsSearch(v);
    PhonePatternIsDigitString(v);
    AadharPatternIsDigitString(v);
    PanPatternIsPanShape(v);
  }

  /** A value is valid (empty message) exactly when it is acceptable. */
  lemma RuleAccepts(f: Field, v: string)
    ensures Rule(f, v) == "" <==> Acceptable(f, v)
  {
    RuleCharacterised(f, v);
  }

  /** A field reports its "... is required" message exactly when its value is
      missing: whitespace-only for the trimming fields, but only the empty
      string for password, country and city. */
  lemma RequiredIff(f: Field, v: string)
    requires f != CountryCode
    ensures Rule(f, v) == RequiredMessage(f) <==> Missing(f, v)
  {
    RuleCharacterised(f, v);
  }

  /** A field with a format check reports its format message exactly when the
      value is present but ill-formed. */
  lemma FormatIff(f: Field, v: string)
    requires f in {Username, Email, Password, PhoneNo, PanNo, AadharNo}
    ensures Rule(f, v) == FormatMessage(f) <==> !Missing(f, v) && !WellFormed(f, v)
  {
    RuleCharacterised(f, v);
  }

  /** For email, phone, PAN and Aadhar the format alone decides validity: a
      well-formed value is never blank. So email is valid iff it contains a
      match of the unanchored pattern, and phone, PAN and Aadhar are valid iff
      the whole untrimmed value has the exact shape. */
  lemma FormatDecides(f: Field, v: string)
    requires f in {Email, PhoneNo, PanNo, AadharNo}
    ensures Rule(f, v) == "" <==> WellFormed(f, v)
  {
    RuleAccepts(f, v);
    if WellFormed(f, v) {
      WellFormedIsPresent(f, v);
    }
  }

  /** A value of the email, phone, PAN or Aadhar format is never blank. */
  lemma WellFormedIsPresent(f: Field, v: string)
    requires f in {Email, PhoneNo, PanNo, AadharNo} && WellFormed(f, v)
    ensures !Missing(f, v)
  {
    if f == Email {
      EmailSearchNotAllSpace(v);
    } else {
      assert !IsSpace(v[0]);
    }
  }

  /** Whitespace padding passes the presence check but fails the format
      check, because the pattern sees the untrimmed value. */
  lemma PaddedPhoneRejected(pad: string, digits: string)
    requires pad != "" && AllSpace(pad)
    requires DigitString(digits, 10)
    ensures Rule(PhoneNo, digits) == ""
    ensures Rule(PhoneNo, pad + digits) == "Phone number must be 10 digits"
    ensures Rule(PhoneNo, digits + pad) == "Phone number must be 10 digits"
  {
    FormatDecides(PhoneNo, digits);
    var v, w := pad + digits, digits + pad;
    assert !IsSpace(v[|pad|]) && !IsSpace(w[0]);
    RuleCharacterised(PhoneNo, v);
    RuleCharacterised(PhoneNo, w);
  }

  /** A username that is not blank but has fewer than three code units, and a
      non-empty password shorter than six, get the length message. */
  lemma ShortValuesRejected(v: string)
    ensures !AllSpace(v) && CodeUnits(v) < 3 ==>
              Rule(Username, v) == "Username must be at least 3 characters"
    ensures v != "" && CodeUnits(v) < 6 ==>
              Rule(Password, v) == "Password must be at least 6 characters"
  {
    RuleCharacterised(Username, v);
    RuleCharacterised(Password, v);
  }

  /** The name, email and place values of the example scenarios are acceptable. */
  lemma SampleNamesAcceptable()
    ensures Acceptable(FirstName, "A") && Acceptable(LastName, "B")
    ensures Acceptable(Email, "a@b.com")
    ensures Acceptable(Country, "India") && Acceptable(City, "Mumbai")
  {
    EmailSamples();
    assert !IsSpace("A"[0]) && !IsSpace("B"[0]);
  }

  /** The username and password of the example scenarios are long enough. */
  lemma SampleLengthsAcceptable()
    ensures Acceptable(Username, "abc") && Acceptable(Password, "secret")
  {
    assert !IsSpace("abc"[0]);
    assert CodeUnits("abc") == 3 by {
      var u := "abc";
      assert forall k | 0 <= k < |u| :: u[k] as int <= 0xFFFF;
    }
    assert CodeUnits("secret") == 6 by {
      var u := "secret";
      assert forall k | 0 <= k < |u| :: u[k] as int <= 0xFFFF;
    }
  }

  /** An emoji outside the Basic Multilingual Plane counts as two code
      units, so `a` followed by one makes a username of length 3. */
  lemma AstralUsernameAcceptable()
    ensures CodeUnits("a\U{1F600}") == 3
    ensures Rule(Username, "a\U{1F600}") == ""
  {
    var u := "a\U{1F600}";
    CodeUnitsChar('a');
    CodeUnitsChar('\U{1F600}');
    assert u == ['a'] + ['\U{1F600}'];
    CodeUnitsAppend(['a'], ['\U{1F600}']);
    assert !IsSpace(u[0]);
    RuleCharacterised(Username, u);
  }

  /** The document values of the example scenarios are acceptable. */
  lemma SampleNumbersAcceptable()
    ensures Acceptable(PhoneNo, "1234567890")
    ensures Acceptable(PanNo, "ABCDE1234F") && Acceptable(AadharNo, "123456789012")
  {
    ShapeSamples();
    assert !IsSpace("1234567890"[0]) && !IsSpace("ABCDE1234F"[0]) && !IsSpace("123456789012"[0]);
  }

  /** `bad` is reported as an invalid email, and a lower-case PAN as an
      invalid PAN. */
  lemma SampleValuesRejected()
    ensures Rule(Email, "bad") == "Email is invalid"
    ensures Rule(PanNo, "abcde1234f") == "Invalid PAN format"
  {
    EmailSamples();
    ShapeSamples();
    assert !IsSpace("bad"[0]) && !IsSpace("abcde1234f"[0]);
    RuleCharacterised(Email, "bad");
    RuleCharacterised(PanNo, "abcde1234f");
  }
}
