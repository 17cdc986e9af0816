/**
 Sequences of user actions. `Run` applies page and summary actions to the
 provider with no view guard; `AppRun` adds the application's view switch,
 which shows the form page while `isPassed` is false and the summary page
 (whose one action is "go back", i.e. `resetForm`) while it is true.
 */
module Session {
  import opened JsText
  import opened FormFields
  import opened Validation
  import opened FormStore
  import opened FormPage

  datatype Event =
    | Change(field: Field, value: string)   // a widget's onChange
    | Blur(field: Field, value: string)     // a widget's onBlur
    | Submit                                // the form's onSubmit
    | GoBack                                // the summary page's button

  /** One user action on the form page, as its widget's handler performs it:
      a change stores its value in its own field (upper-cased for the PAN;
      for the country, the city is cleared and the dialing code looked up)
      and edits no other field; a blur validates the value it is given and
      changes no field; a submission validates every field, passes the form
      when all are acceptable and changes no field; "go back" restores the
      initial state. */
  function Step(s: Store, e: Event): (r: Store)
    ensures e.Change? && e.field !in {Country, PanNo} ==> Get(r.formData, e.field) == e.value
    ensures e.Change? && e.field == Country ==>
              && Get(r.formData, Country) == e.value
              && Get(r.formData, City) == ""
              && Get(r.formData, CountryCode) == DialCode(e.value)
    ensures e.Change? && e.field == PanNo ==> Get(r.formData, PanNo) == ToUpperAscii(e.value)
    ensures e == Submit ==>
              && (r.isPassed <==> s.isPassed || AllAcceptable(s.formData))
              && forall f | f != CountryCode :: ErrorOf(r, f) == Rule(f, Get(s.formData, f))
    ensures e.Blur? || e == Submit ==> r.formData == s.formData
    ensures e.Blur? ==> ErrorOf(r, e.field) == Rule(e.field, e.value)
    ensures e == GoBack ==> r == Initial()
    ensures e.Change? && e.field != Country ==>
              forall g | g != e.field :: Get(r.formData, g) == Get(s.formData, g)
    ensures e.Change? && e.field == Country ==>
              forall g | g !in {Country, City, CountryCode} :: Get(r.formData, g) == Get(s.formData, g)
  {
    match e
    case Change(f, v) => HandleChange(s, f, v)
    case Blur(f, v) => ValidateField(s, f, v).store
    case Submit => HandleSubmit(s)
    case GoBack => ResetForm(s)
  }

  /** The events applied in order, the last one outermost. */
  function Run(s: Store, evs: seq<Event>): Store
    decreases |evs|
  {
    if |evs| == 0 then s else Step(Run(s, evs[..|evs| - 1]), evs[|evs| - 1])
  }

  /** One step keeps or sets `isPassed` only as the provider allows: a reset
      clears it, a submission sets it when every field is acceptable, and
      nothing else changes it. */
  lemma StepPassed(s: Store, e: Event)
    ensures Step(s, e).isPassed <==>
              (e != GoBack && s.isPassed) || (e == Submit && AllAcceptable(s.formData))
  {
  }

  /** The form is passed only if some submission found every field acceptable
      and no reset came after it. */
  lemma {:induction false} PassedOnlyThroughSubmit(evs: seq<Event>)
    requires Run(Initial(), evs).isPassed
    ensures exists i | 0 <= i < |evs| ::
              && evs[i] == Submit
              && AllAcceptable(Run(Initial(), evs[..i]).formData)
              && GoBack !in evs[i + 1..]
    decreases |evs|
  {
    var n := |evs| - 1;
    var prefix := evs[..n];
    RunLastStep(Initial(), evs);
    if Run(Initial(), prefix).isPassed && evs[n] != GoBack {
      PassedOnlyThroughSubmit(prefix);
      var i :| 0 <= i < |prefix| && prefix[i] == Submit
               && AllAcceptable(Run(Initial(), prefix[..i]).formData)
               && GoBack !in prefix[i + 1..];
      PrefixOfPrefix(evs, n, i);
      NotInAfterAppend(prefix, GoBack, evs[n], i + 1);
      SplitLast(evs);
      assert evs[i] == Submit;
    } else {
      assert evs[n + 1..] == [];
    }
  }

  /** The last event of a non-empty run decides `isPassed` from the state
      the earlier events reach. */
  lemma RunLastStep(s: Store, evs: seq<Event>)
    requires |evs| > 0
    ensures Run(s, evs).isPassed <==>
              (evs[|evs| - 1] != GoBack && Run(s, evs[..|evs| - 1]).isPassed)
              || (evs[|evs| - 1] == Submit && AllAcceptable(Run(s, evs[..|evs| - 1]).formData))
  {
    StepPassed(Run(s, evs[..|evs| - 1]), evs[|evs| - 1]);
  }

  lemma PrefixOfPrefix<T>(s: seq<T>, n: nat, i: nat)
    requires i <= n <= |s|
    ensures s[..n][..i] == s[..i]
  {
  }

  lemma SplitLast<T>(s: seq<T>)
    requires |s| > 0
    ensures s == s[..|s| - 1] + [s[|s| - 1]]
  {
  }

  lemma NotInAfterAppend<T>(s: seq<T>, x: T, y: T, i: nat)
    requires i <= |s| && x !in s[i..] && y != x
    ensures x !in (s + [y])[i..]
  {
    assert (s + [y])[i..] == s[i..] + [y];
  }

  /** Whatever the user does, the stored PAN never holds a lower-case letter. */
  lemma {:induction false} PanStaysUpper(evs: seq<Event>)
    ensures NoLowerLatin(Get(Run(Initial(), evs).formData, PanNo))
    decreases |evs|
  {
    if |evs| > 0 {
      PanStaysUpper(evs[..|evs| - 1]);
    }
  }

  /** The application's dispatch: form-page actions only while editing, the
      summary's "go back" only once passed. The summary page ignores every
      form action; "go back" always leaves it in the editing phase; while
      editing, only a submission of an acceptable record reaches the
      summary page. */
  function AppStep(s: Store, e: Event): (r: Store)
    ensures s.isPassed && e != GoBack ==> r == s
    ensures e == GoBack ==> !r.isPassed
    ensures !s.isPassed ==> (r.isPassed <==> e == Submit && AllAcceptable(s.formData))
  {
    if s.isPassed then (if e == GoBack then ResetForm(s) else s)
    else if e == GoBack then s
    else Step(s, e)
  }

  function AppRun(s: Store, evs: seq<Event>): Store
    decreases |evs|
  {
    if |evs| == 0 then s else AppStep(AppRun(s, evs[..|evs| - 1]), evs[|evs| - 1])
  }

  /** While passed, the record is one that passed every rule and no rule
      error is on display. */
  ghost predicate PassedIsValid(s: Store) {
    s.isPassed ==>
      && AllAcceptable(s.formData)
      && forall f | f != CountryCode :: ErrorOf(s, f) == ""
  }

  /** One application step keeps the summary page honest. */
  lemma AppStepKeepsPassedValid(s: Store, e: Event)
    requires PassedIsValid(s)
    ensures PassedIsValid(AppStep(s, e))
  {
    if !s.isPassed && e == Submit {
      var r := HandleSubmit(s);
      if r.isPassed {
        forall f | f != CountryCode ensures ErrorOf(r, f) == "" {
          RuleAccepts(f, Get(s.formData, f));
        }
      }
    }
  }

  /** Under the application's view switch, the summary page only ever shows
      a record every rule accepts, with no rule error on display. */
  lemma {:induction false} AppPassedIsValid(evs: seq<Event>)
    ensures PassedIsValid(AppRun(Initial(), evs))
    decreases |evs|
  {
    if |evs| > 0 {
      var prefix := evs[..|evs| - 1];
      AppPassedIsValid(prefix);
      AppStepKeepsPassedValid(AppRun(Initial(), prefix), evs[|evs| - 1]);
    }
  }

  /** The record of the example scenarios, every field filled validly. */
  function FilledRecord(): FormData {
    FormData("A", "B", "abc", "a@b.com", "secret", "1234567890",
             "+91", "India", "Mumbai", "ABCDE1234F", "123456789012")
  }

  /** Every field of the filled record is acceptable. */
  lemma FilledRecordAcceptable()
    ensures AllAcceptable(FilledRecord())
  {
    var d := FilledRecord();
    SampleNamesAcceptable();
    SampleLengthsAcceptable();
    SampleNumbersAcceptable();
    forall f | f != CountryCode ensures Acceptable(f, Get(d, f)) {
      match f
      case FirstName =>
      case LastName =>
      case Username =>
      case Email =>
      case Password =>
      case PhoneNo =>
      case Country =>
      case City =>
      case PanNo =>
      case AadharNo =>
    }
  }

  /** Submitting the empty form fails and shows every field's "required"
      message; submitting the filled record passes; going back restores the
      initial state. */
  lemma SubmitScenarios()
    ensures !SubmitForm(Initial()).valid
    ensures forall f | f != CountryCode ::
              ErrorOf(SubmitForm(Initial()).store, f) == RequiredMessage(f)
    ensures var s := Initial().(formData := FilledRecord());
            SubmitForm(s).valid && SubmitForm(s).store.isPassed
              && ResetForm(SubmitForm(s).store) == Initial()
  {
    forall f | f != CountryCode
      ensures ErrorOf(SubmitForm(Initial()).store, f) == RequiredMessage(f)
    {
      RequiredIff(f, "");
    }
    RequiredIff(FirstName, "");
    FilledRecordAcceptable();
  }

  /** Blurring the email after typing "bad" shows "Email is invalid"; after
      typing "a@b.com" it shows nothing. A lower-case PAN typed in is stored
      upper-cased and then validates. */
  lemma EditAndBlurScenarios(s: Store)
    ensures ErrorOf(Step(Step(s, Change(Email, "bad")), Blur(Email, "bad")), Email) == "Email is invalid"
    ensures ErrorOf(Step(Step(s, Change(Email, "a@b.com")), Blur(Email, "a@b.com")), Email) == ""
    ensures Get(Step(s, Change(PanNo, "abcde1234f")).formData, PanNo) == "ABCDE1234F"
    ensures Rule(PanNo, Get(Step(s, Change(PanNo, "abcde1234f")).formData, PanNo)) == ""
  {
    SampleValuesRejected();
    SampleNamesAcceptable();
    SampleLengthsAcceptable();
    SampleNumbersAcceptable();
    RuleAccepts(Email, "a@b.com");
    UpperSample();
    RuleAccepts(PanNo, "ABCDE1234F");
  }
}
