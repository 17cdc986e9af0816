/**
 The form provider's state and its operations, each one an atomic transition
 from a state to the next state (and, where the provider returns one, a
 boolean result).
 */
module FormStore {
  import opened FormFields
  import opened Validation

  /** `formData`, `validationErrors`, `isFormValid`, `isPassed`. A key absent
      from `errors` means the field has no error. */
  datatype Store = Store(
    formData: FormData,
    errors: map<Field, string>,
    isFormValid: bool,
    isPassed: bool)

  /** A next state together with the boolean an operation returns. */
  datatype Checked = Checked(store: Store, valid: bool)

  /** The error currently shown for `f`: absent and `""` both mean none. */
  function ErrorOf(s: Store, f: Field): string {
    if f in s.errors then s.errors[f] else ""
  }

  /** The provider's initial state. */
  function Initial(): (s: Store)
    ensures forall f | f != CountryCode :: Get(s.formData, f) == ""
    ensures Get(s.formData, CountryCode) == "+91"
    ensures s.errors == map[] && !s.isFormValid && !s.isPassed
  {
    Store(FormData("", "", "", "", "", "", "+91", "", "", "", ""), map[], false, false)
  }

  /** `updateFormData(f, v)`: stores `v` in field `f`; an error already shown
      for `f` is cleared to `""` without re-validating; no key is added to the
      error map and nothing else changes. */
  function UpdateFormData(s: Store, f: Field, v: string): (r: Store)
    ensures Get(r.formData, f) == v
    ensures forall g | g != f :: Get(r.formData, g) == Get(s.formData, g)
    ensures r.errors.Keys == s.errors.Keys
    ensures ErrorOf(r, f) == ""
    ensures forall g | g in r.errors && r.errors[g] != s.errors[g] :: g == f && r.errors[g] == ""
    ensures forall g | g != f :: ErrorOf(r, g) == ErrorOf(s, g)
    ensures r.isFormValid == s.isFormValid && r.isPassed == s.isPassed
  {
    var d := Set(s.formData, f, v);
    if f in s.errors && s.errors[f] != "" then
      s.(formData := d, errors := s.errors[f := ""])
    else
      s.(formData := d)
  }

  /** `validateField(f, v)`: records the rule's message for `f` (adding the
      key if needed) and reports whether the value is acceptable; the form
      record, the other errors and the flags are untouched. */
  function ValidateField(s: Store, f: Field, v: string): (r: Checked)
    ensures f in r.store.errors && r.store.errors[f] == Rule(f, v)
    ensures r.store.errors.Keys == s.errors.Keys + {f}
    ensures forall g | g in s.errors && g != f :: r.store.errors[g] == s.errors[g]
    ensures r.valid <==> Acceptable(f, v)
    ensures r.store.formData == s.formData
    ensures r.store.isFormValid == s.isFormValid && r.store.isPassed == s.isPassed
  {
    RuleAccepts(f, v);
    var error := Rule(f, v);
    Checked(s.(errors := s.errors[f := error]), error == "")
  }

  /** Validating the same field with the same value twice is the same as
      validating it once. */
  lemma ValidateFieldIdempotent(s: Store, f: Field, v: string)
    ensures ValidateField(ValidateField(s, f, v).store, f, v) == ValidateField(s, f, v)
  {
    var once := ValidateField(s, f, v).store;
    assert once.errors[f := Rule(f, v)] == once.errors;
  }

  /** Validating a field without a rule (`countryCode`) stores `""` and succeeds. */
  lemma ValidateCountryCode(s: Store, v: string)
    ensures ValidateField(s, CountryCode, v).valid
    ensures ValidateField(s, CountryCode, v).store.errors[CountryCode] == ""
  {
  }

  /** The `forEach` of `validateAllFields` over the keys `fs`: every key but
      `countryCode` is validated with its stored value, none is skipped after
      a failure, and the result is the conjunction of the individual results. */
  function ValidateEach(s: Store, fs: seq<Field>): (r: Checked)
    ensures forall f | f in fs && f != CountryCode ::
              f in r.store.errors && r.store.errors[f] == Rule(f, Get(s.formData, f))
    ensures forall f | f !in fs || f == CountryCode ::
              (f in r.store.errors <==> f in s.errors) &&
              (f in s.errors ==> r.store.errors[f] == s.errors[f])
    ensures r.valid <==> forall f | f in fs && f != CountryCode :: Acceptable(f, Get(s.formData, f))
    ensures r.store.formData == s.formData
    ensures r.store.isFormValid == s.isFormValid && r.store.isPassed == s.isPassed
    decreases |fs|
  {
    if |fs| == 0 then Checked(s, true)
    else if fs[0] == CountryCode then ValidateEach(s, fs[1..])
    else
      var first := ValidateField(s, fs[0], Get(s.formData, fs[0]));
      var rest := ValidateEach(first.store, fs[1..]);
      assert forall f | f in fs :: f == fs[0] || f in fs[1..];
      Checked(rest.store, first.valid && rest.valid)
  }

  /** Every field of the record except `countryCode` is acceptable. */
  ghost predicate AllAcceptable(d: FormData) {
    forall f | f != CountryCode :: Acceptable(f, Get(d, f))
  }

  /** `validateAllFields()`: afterwards every field but `countryCode` carries
      its rule's message for its stored value, the `countryCode` entry is as
      before, the result says whether all ten are acceptable, and
      `isFormValid` records the result. */
  function ValidateAllFields(s: Store): (r: Checked)
    ensures forall f | f != CountryCode ::
              f in r.store.errors && r.store.errors[f] == Rule(f, Get(s.formData, f))
    ensures CountryCode in r.store.errors <==> CountryCode in s.errors
    ensures ErrorOf(r.store, CountryCode) == ErrorOf(s, CountryCode)
    ensures r.valid <==> AllAcceptable(s.formData)
    ensures r.store.isFormValid == r.valid
    ensures r.store.formData == s.formData && r.store.isPassed == s.isPassed
  {
    var each := ValidateEach(s, Fields);
    assert forall f :: f in Fields by {
      forall f ensures f in Fields { FieldsListsEveryKey(f); }
    }
    Checked(each.store.(isFormValid := each.valid), each.valid)
  }

  /** `submitForm()`: validates everything; on success `isPassed` becomes
      true, otherwise it keeps its value. */
  function SubmitForm(s: Store): (r: Checked)
    ensures r.valid <==> AllAcceptable(s.formData)
    ensures r.store.isPassed <==> s.isPassed || r.valid
    ensures r.store.formData == s.formData
    ensures r.store.errors == ValidateAllFields(s).store.errors
    ensures r.store.isFormValid == r.valid
  {
    var all := ValidateAllFields(s);
    if all.valid then Checked(all.store.(isPassed := true), true)
    else Checked(all.store, false)
  }

  /** `resetForm()`: written out as in the provider, and equal to the initial
      state whatever the state before. */
  function ResetForm(s: Store): (r: Store)
    ensures r == Initial()
  {
    Store(FormData("", "", "", "", "", "", "+91", "", "", "", ""), map[], false, false)
  }

  /** The two phases of the provider, read off `isPassed`. */
  datatype Phase = Editing | Submitted

  function PhaseOf(s: Store): Phase {
    if s.isPassed then Submitted else Editing
  }

  /** The phase changes only by a successful submission (to Submitted) or by a
      reset (to Editing); editing and validating never change it. */
  lemma PhaseTransitions(s: Store, f: Field, v: string)
    ensures PhaseOf(UpdateFormData(s, f, v)) == PhaseOf(s)
    ensures PhaseOf(ValidateField(s, f, v).store) == PhaseOf(s)
    ensures PhaseOf(ValidateAllFields(s).store) == PhaseOf(s)
    ensures PhaseOf(SubmitForm(s).store) ==
            if AllAcceptable(s.formData) then Submitted else PhaseOf(s)
    ensures PhaseOf(ResetForm(s)) == Editing
  {
  }
}
