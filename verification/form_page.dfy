/**
 The logic of the registration page: the compound country change, the
 upper-casing PAN input, the page's own submit-button flag and the submit
 handler.
 */
module FormPage {
  import opened JsText
  import opened FormFields
  import opened Validation
  import opened FormStore
  import Patterns

  /** The page's `countryCodes` table. */
  const CountryCodes: map<string, string> :=
    map["India" := "+91", "USA" := "+1", "UK" := "+44", "Canada" := "+1", "Australia" := "+61"]

  /** `countryCodes[country] || '+91'`: the table entry when there is a
      non-empty one, `+91` otherwise. */
  function DialCode(country: string): (code: string)
    ensures country in CountryCodes ==> code == CountryCodes[country]
    ensures country !in CountryCodes ==> code == "+91"
  {
    if country in CountryCodes && CountryCodes[country] != "" then CountryCodes[country] else "+91"
  }

  /** The table's entries, and the fallback for the "Select Country" choice. */
  lemma DialCodes()
    ensures DialCode("India") == "+91" && DialCode("USA") == "+1" && DialCode("UK") == "+44"
    ensures DialCode("Canada") == "+1" && DialCode("Australia") == "+61"
    ensures DialCode("") == "+91"
  {
  }

  /** `handleCountryChange(c)`: three updates in a row (country, then city,
      then dialing code). Only those three fields change; of the errors, only
      theirs can change, and only by being cleared. */
  function HandleCountryChange(s: Store, c: string): (r: Store)
    ensures Get(r.formData, Country) == c
    ensures Get(r.formData, City) == ""
    ensures Get(r.formData, CountryCode) == DialCode(c)
    ensures forall g | g !in {Country, City, CountryCode} :: Get(r.formData, g) == Get(s.formData, g)
    ensures r.errors.Keys == s.errors.Keys
    ensures ErrorOf(r, Country) == "" && ErrorOf(r, City) == "" && ErrorOf(r, CountryCode) == ""
    ensures forall g | g in s.errors && g !in {Country, City, CountryCode} :: r.errors[g] == s.errors[g]
    ensures r.isFormValid == s.isFormValid && r.isPassed == s.isPassed
  {
    var s1 := UpdateFormData(s, Country, c);
    var s2 := UpdateFormData(s1, City, "");
    UpdateFormData(s2, CountryCode, DialCode(c))
  }

  /** The PAN input's `onChange`: the value is upper-cased before it is
      stored, so the stored PAN never holds a lower-case letter. */
  function HandlePanChange(s: Store, v: string): (r: Store)
    ensures Get(r.formData, PanNo) == ToUpperAscii(v)
    ensures NoLowerLatin(Get(r.formData, PanNo))
    ensures forall g | g != PanNo :: Get(r.formData, g) == Get(s.formData, g)
    ensures ErrorOf(r, PanNo) == ""
    ensures forall g | g != PanNo :: ErrorOf(r, g) == ErrorOf(s, g)
    ensures r.errors.Keys == s.errors.Keys
    ensures r.isFormValid == s.isFormValid && r.isPassed == s.isPassed
  {
    UpdateFormData(s, PanNo, ToUpperAscii(v))
  }

  /** The `onChange` of the widget for field `f`: the country select runs the
      compound change, the PAN input upper-cases, every other input (and the
      dialing-code select) stores the value as given. Only the edited field
      changes, together with the city and dialing code on a country change;
      the edited field's error is cleared and no other error changes except,
      on a country change, those of the city and dialing code; no error key
      is added and neither flag changes. */
  function HandleChange(s: Store, f: Field, v: string): (r: Store)
    ensures f != Country && f != PanNo ==> Get(r.formData, f) == v
    ensures f == Country ==>
              && Get(r.formData, Country) == v
              && Get(r.formData, City) == ""
              && Get(r.formData, CountryCode) == DialCode(v)
    ensures f == PanNo ==> Get(r.formData, PanNo) == ToUpperAscii(v)
    ensures f != Country ==> forall g | g != f :: Get(r.formData, g) == Get(s.formData, g)
    ensures f == Country ==>
              forall g | g !in {Country, City, CountryCode} :: Get(r.formData, g) == Get(s.formData, g)
    ensures NoLowerLatin(Get(s.formData, PanNo)) ==> NoLowerLatin(Get(r.formData, PanNo))
    ensures r.errors.Keys == s.errors.Keys
    ensures ErrorOf(r, f) == ""
    ensures f != Country ==> forall g | g != f :: ErrorOf(r, g) == ErrorOf(s, g)
    ensures f == Country ==>
              forall g | g !in {Country, City, CountryCode} :: ErrorOf(r, g) == ErrorOf(s, g)
    ensures r.isFormValid == s.isFormValid && r.isPassed == s.isPassed
  {
    if f == Country then HandleCountryChange(s, v)
    else if f == PanNo then HandlePanChange(s, v)
    else UpdateFormData(s, f, v)
  }

  /** The ten keys `checkValidity` requires. */
  const RequiredFields: seq<Field> :=
    [FirstName, LastName, Username, Email, Password, PhoneNo, Country, City, PanNo, AadharNo]

  /** `requiredFields.every(field => formData[field]?.trim())`: every required
      field holds some non-whitespace character. */
  function HasAllFields(d: FormData): (present: bool)
    ensures present <==> forall f | f != CountryCode :: !AllSpace(Get(d, f))
  {
    RequiredFieldsCover();
    forall f | f in RequiredFields :: !IsBlank(Get(d, f))
  }

  lemma RequiredFieldsCover()
    ensures forall f :: f in RequiredFields <==> f != CountryCode
  {
    forall f ensures f in RequiredFields <==> f != CountryCode {
      RequiredFieldsAreTheValidated(f);
    }
  }

  /** `Object.values(validationErrors).every(error => !error)`: no stored
      message is non-empty, i.e. no field shows an error. */
  function HasNoErrors(s: Store): (clean: bool)
    ensures clean <==> forall g :: ErrorOf(s, g) == ""
  {
    var clean := forall e | e in s.errors.Values :: e == "";
    assert clean <==> forall g :: ErrorOf(s, g) == "" by {
      if clean {
        forall g ensures ErrorOf(s, g) == "" {
          if g in s.errors { assert s.errors[g] in s.errors.Values; }
        }
      } else {
        var e :| e in s.errors.Values && e != "";
        var g :| g in s.errors && s.errors[g] == e;
        assert ErrorOf(s, g) != "";
      }
    }
    clean
  }

  /** `checkValidity`: the page's submit-button flag. Every required field is
      non-blank after trimming and no stored error message is non-empty; the
      rules themselves are not run. */
  function SubmitEnabled(s: Store): (enabled: bool)
    ensures enabled <==>
              (forall f | f != CountryCode :: !AllSpace(Get(s.formData, f))) &&
              (forall g :: ErrorOf(s, g) == "")
  {
    HasAllFields(s.formData) && HasNoErrors(s)
  }

  /** The required list is exactly the keys that `validateAllFields` checks. */
  lemma RequiredFieldsAreTheValidated(f: Field)
    ensures f in RequiredFields <==> f != CountryCode
  {
    match f
    case FirstName => assert RequiredFields[0] == f;
    case LastName => assert RequiredFields[1] == f;
    case Username => assert RequiredFields[2] == f;
    case Email => assert RequiredFields[3] == f;
    case Password => assert RequiredFields[4] == f;
    case PhoneNo => assert RequiredFields[5] == f;
    case Country => assert RequiredFields[6] == f;
    case City => assert RequiredFields[7] == f;
    case PanNo => assert RequiredFields[8] == f;
    case AadharNo => assert RequiredFields[9] == f;
    case CountryCode =>
  }

  /** An enabled button means every required field passes its presence check. */
  lemma EnabledMeansPresent(s: Store)
    requires SubmitEnabled(s)
    ensures forall f | f != CountryCode :: !Missing(f, Get(s.formData, f))
  {
    forall f | f != CountryCode ensures !Missing(f, Get(s.formData, f)) {
      if !TrimsForPresence(f) {
        assert Get(s.formData, f) != "";
      }
    }
  }

  /** The flag does not run the rules: typing a non-blank but ill-formed
      email (say `abc`) into a form whose button is enabled leaves it enabled,
      although validating everything would now fail. */
  lemma FlagIgnoresRules(s: Store, email: string)
    requires SubmitEnabled(s)
    requires !AllSpace(email) && !Patterns.EmailSearch(email)
    ensures SubmitEnabled(UpdateFormData(s, Email, email))
    ensures !ValidateAllFields(UpdateFormData(s, Email, email)).valid
  {
    var t := UpdateFormData(s, Email, email);
    assert forall f | f != CountryCode :: !AllSpace(Get(t.formData, f)) by {
      forall f | f != CountryCode ensures !AllSpace(Get(t.formData, f)) {
        if f != Email {
          assert Get(t.formData, f) == Get(s.formData, f);
        }
      }
    }
    assert forall g :: ErrorOf(t, g) == "" by {
      forall g ensures ErrorOf(t, g) == "" {
        if g != Email {
          assert ErrorOf(t, g) == ErrorOf(s, g);
        }
      }
    }
    assert !Acceptable(Email, Get(t.formData, Email));
  }

  /** The example value `abc` is such an email. */
  lemma AbcIsBadEmail()
    ensures !AllSpace("abc") && !Patterns.EmailSearch("abc")
  {
    Patterns.EmailSamples();
    assert !IsSpace("abc"[0]);
  }

  /** Conversely, a password of six or more spaces passes validation but
      keeps the button disabled, since the flag trims every field. */
  lemma SpacesPasswordValidButDisabled(s: Store)
    requires AllSpace(Get(s.formData, Password)) && |Get(s.formData, Password)| >= 6
    ensures Rule(Password, Get(s.formData, Password)) == ""
    ensures !SubmitEnabled(s)
  {
    RuleCharacterised(Password, Get(s.formData, Password));
  }

  /** `handleSubmit`: calls `submitForm` whatever the button state, so the
      form is passed afterwards only if it was before or if every field is
      acceptable now. */
  function HandleSubmit(s: Store): (r: Store)
    ensures r.isPassed <==> s.isPassed || AllAcceptable(s.formData)
    ensures r.formData == s.formData
  {
    SubmitForm(s).store
  }
}
