# Registration form state, modelled in Dafny

The application is a React registration form. A context provider holds the
form record and its state:

- eleven string fields: names, username, email, password, phone with
  dialing code, country, city, PAN and Aadhar numbers;
- a map from field to error message;
- an `isFormValid` flag;
- an `isPassed` flag, which switches the application from the form page to
  the summary page.

The provider offers five operations: `updateFormData`, `validateField`,
`validateAllFields`, `submitForm` and `resetForm`. The form page adds three
pieces of logic: a compound country change, a PAN input that upper-cases,
and its own submit-button flag.

This project models those parts as pure functions over immutable values.
Every React handler is one atomic transition from a state to the next.

| file | module | what it models |
|---|---|---|
| `js_text.dfy` | `JsText` | the JavaScript string primitives the rules use: `trim`, the class `\s`, `length` in UTF-16 code units, ASCII `toUpperCase` |
| `patterns.dfy` | `Patterns` | the four regular expressions, as explicit predicates on strings |
| `form_fields.dfy` | `FormFields` | the eleven fields and the form record |
| `validation.dfy` | `Validation` | the `switch` of `validateField`: field and value to error message |
| `form_store.dfy` | `FormStore` | the provider's state and its five operations |
| `form_page.dfy` | `FormPage` | country change and dialing codes, PAN upper-casing, the button flag, the submit handler |
| `session.dfy` | `Session` | sequences of user actions, with and without the application's view switch |

How the JavaScript is modelled:

- Whitespace is the exact ECMAScript set: the WhiteSpace and LineTerminator
  productions. `trim` strips that set and `\s` matches it.
- `\d` and `[0-9]` are the ASCII digits.
- `^…$` without the `m` flag must match the whole value.
- The email pattern `\S+@\S+\.\S+` is a search anywhere in the value; it is
  not anchored.
- `length` counts UTF-16 code units, so a character outside the Basic
  Multilingual Plane counts twice.
- Every format check sees the untrimmed value.

## Model

| member | source | states |
|---|---|---|
| JsText.Trim | src/context/formContext.jsx:45 | `trim` removes only whitespace, and only from the two ends; the result neither starts nor ends with whitespace; it is empty exactly when the value is all whitespace |
| JsText.TrimStart | src/context/formContext.jsx:45 | the leading part that `trim` drops is all whitespace, and what remains is a suffix that does not start with whitespace |
| JsText.TrimEnd | src/context/formContext.jsx:45 | the trailing part that `trim` drops is all whitespace, and what remains is a prefix that does not end with whitespace |
| JsText.TrimStartEmptyIff | src/context/formContext.jsx:45 | stripping leading whitespace leaves nothing exactly when the value is all whitespace |
| JsText.TrimEndOfTrimmedStart | src/context/formContext.jsx:45 | a value that does not start with whitespace keeps something after its trailing whitespace is stripped, unless it is empty |
| JsText.CodeUnits | src/context/formContext.jsx:49 | `value.length` lies between the number of characters and twice it, and equals it when every character is in the Basic Multilingual Plane |
| JsText.CodeUnitsChar | src/context/formContext.jsx:49 | one character is one code unit inside the Basic Multilingual Plane and two outside it |
| JsText.CodeUnitsAppend | src/context/formContext.jsx:49 | the length of a concatenation is the sum of the two lengths |
| JsText.ToUpperAscii | src/pages/FormPage.jsx:275 | upper-casing keeps the length, maps each lower-case ASCII letter to its capital, keeps every other character, and leaves no lower-case ASCII letter |
| JsText.ToUpperAsciiIdempotent | src/pages/FormPage.jsx:275 | upper-casing a value twice is upper-casing it once, and a value without lower-case letters is unchanged |
| Patterns.DigitPatternIsDigitString | src/context/formContext.jsx:61 | the anchored pattern `^\d{n}$` matches exactly the strings of `n` ASCII digits |
| Patterns.PhonePatternIsDigitString | src/context/formContext.jsx:61 | `^\d{10}$` matches exactly ten ASCII digits and nothing else |
| Patterns.AadharPatternIsDigitString | src/context/formContext.jsx:75 | `^\d{12}$` matches exactly twelve ASCII digits and nothing else |
| Patterns.MatchLength | src/context/formContext.jsx:61 | an anchored match of a sequence of counted classes covers exactly the pattern's width |
| Patterns.PanPatternIsPanShape | src/context/formContext.jsx:71 | `^[A-Z]{5}[0-9]{4}[A-Z]{1}$` matches exactly the ten-character values with five capitals, four digits and one capital |
| Patterns.EmailTestIsSearch | src/context/formContext.jsx:53 | the executable test finds a match of `\S+@\S+\.\S+` exactly when some window of the value has the shape non-space run, `@`, non-space run, `.`, non-space run |
| Patterns.EmailSearchNotAllSpace | src/context/formContext.jsx:52-53 | a value that contains an email match is not all whitespace |
| Patterns.EmailSamples | src/context/formContext.jsx:53 | `a@b.com` contains a match; `bad` and `abc` do not |
| FormFields.FieldsListsEveryKey | src/context/formContext.jsx:6-18 | the key order of the record lists every field |
| FormFields.Set | src/context/formContext.jsx:25-28 | `{...prev, [field]: value}` sets the one field and keeps every other field |
| Validation.Rule | src/context/formContext.jsx:42-77 | every field reports either nothing, its "required" message or its format message |
| Validation.RuleCharacterised | src/context/formContext.jsx:42-77 | each rule checks presence first, then format: missing gives the "required" message, present but ill-formed gives the format message, otherwise nothing |
| Validation.RuleAccepts | src/context/formContext.jsx:42-84 | a value is valid exactly when it is present and well-formed for its field |
| Validation.RequiredIff | src/context/formContext.jsx:43-76 | the "required" message appears exactly when the value is missing; for the names, username, email, phone, PAN and Aadhar that means all whitespace, while for password, country and city it means only the empty string |
| Validation.FormatIff | src/context/formContext.jsx:47-76 | the format message appears exactly when the value is present but ill-formed |
| Validation.FormatDecides | src/context/formContext.jsx:51-76 | email, phone, PAN and Aadhar are valid exactly when the format holds, since a well-formed value is never blank |
| Validation.WellFormedIsPresent | src/context/formContext.jsx:51-76 | an email, phone, PAN or Aadhar value of the right format is never all whitespace, so it passes the presence check |
| Validation.PaddedPhoneRejected | src/context/formContext.jsx:60-61 | ten digits with whitespace before or after pass the presence check but get "Phone number must be 10 digits" |
| Validation.ShortValuesRejected | src/context/formContext.jsx:47-58 | a non-blank username shorter than 3 and a non-empty password shorter than 6 get their length messages |
| Validation.AstralUsernameAcceptable | src/context/formContext.jsx:47-50 | `a` followed by an emoji outside the Basic Multilingual Plane has length 3 and is a valid username |
| Validation.SampleValuesRejected | src/context/formContext.jsx:51-72 | `bad` is an invalid email and a lower-case PAN is an invalid PAN |
| FormStore.Initial | src/context/formContext.jsx:6-22 | the initial state: every field empty except the dialing code `+91`, no errors, both flags false |
| FormStore.UpdateFormData | src/context/formContext.jsx:24-37 | sets only the edited field; clears that field's error to `""` without validating; adds no error key and changes no other error or flag |
| FormStore.ValidateField | src/context/formContext.jsx:39-85 | writes exactly the rule's message for the field, adding the key if needed; returns whether the value is acceptable; changes nothing else |
| FormStore.ValidateFieldIdempotent | src/context/formContext.jsx:39-85 | validating the same field with the same value twice is the same as validating once |
| FormStore.ValidateCountryCode | src/context/formContext.jsx:42-84 | a field without a rule stores `""` and is valid |
| FormStore.ValidateEach | src/context/formContext.jsx:91-96 | the loop validates every listed key except `countryCode`, does not stop at a failure, and returns the conjunction of the results |
| FormStore.ValidateAllFields | src/context/formContext.jsx:87-100 | afterwards each of the ten fields carries its rule's message for its stored value; the result is true exactly when all ten are acceptable; `isFormValid` records it; the record and `isPassed` are kept |
| FormStore.SubmitForm | src/context/formContext.jsx:102-108 | returns the result of validating everything; `isPassed` becomes true on success and is otherwise kept |
| FormStore.ResetForm | src/context/formContext.jsx:110-127 | whatever the state before, the result is the initial state |
| FormStore.PhaseTransitions | src/context/formContext.jsx:102-127 | only a successful submission moves to the submitted phase, only a reset moves back, and editing or validating never changes the phase |
| FormPage.DialCode | src/pages/FormPage.jsx:27-57 | the dialing code is the table's entry for a listed country and `+91` for any other value |
| FormPage.DialCodes | src/pages/FormPage.jsx:27-57 | India +91, USA +1, UK +44, Canada +1, Australia +61, and `+91` for the empty "Select Country" choice |
| FormPage.HandleCountryChange | src/pages/FormPage.jsx:54-58 | sets the country, clears the city, sets the dialing code; no other field changes; of the errors only those three can change, and only by being cleared |
| FormPage.HandlePanChange | src/pages/FormPage.jsx:275 | the stored PAN is the upper-cased input and holds no lower-case letter; no other field changes; of the errors only the PAN's can change, by being cleared; no error key is added and neither flag changes |
| FormPage.HandleChange | src/pages/FormPage.jsx:81-297 | a widget's `onChange` stores the value as given in its own field, upper-cases it for the PAN, and for the country also clears the city and sets the dialing code from the table; no other field changes; the edited field's error is cleared and no other error changes except the city's and dialing code's on a country change; no error key is added and neither flag changes |
| FormPage.HasAllFields | src/pages/FormPage.jsx:38-39 | every required field holds some character that is not whitespace |
| FormPage.HasNoErrors | src/pages/FormPage.jsx:40 | no stored error message is non-empty |
| FormPage.SubmitEnabled | src/pages/FormPage.jsx:36-44 | the button flag is on exactly when the ten required fields are non-blank after trimming and no field shows an error |
| FormPage.RequiredFieldsAreTheValidated | src/pages/FormPage.jsx:38 | the page's required list is exactly the keys that validating everything checks |
| FormPage.EnabledMeansPresent | src/pages/FormPage.jsx:36-44 | an enabled button implies that every field passes its presence check |
| FormPage.FlagIgnoresRules | src/pages/FormPage.jsx:38-41 | typing a non-blank, ill-formed email into a form whose button is enabled leaves it enabled, although validating everything then fails |
| FormPage.AbcIsBadEmail | src/pages/FormPage.jsx:38-41 | `abc` is non-blank and contains no email match |
| FormPage.SpacesPasswordValidButDisabled | src/pages/FormPage.jsx:39 | a password of six or more spaces passes its rule but keeps the button disabled |
| FormPage.HandleSubmit | src/pages/FormPage.jsx:60-63 | the form is passed afterwards exactly when it was before or every field is acceptable, whatever the button state |
| Session.Step | src/pages/FormPage.jsx:46-63 | one page action: a change stores its value in its own field (upper-cased for the PAN; for the country the city is cleared and the dialing code looked up) and edits no other field; a blur stores the rule's message for the value it is given and changes no field; a submission validates every field, passes the form exactly when it was passed or all fields are acceptable, and changes no field; "go back" restores the initial state. A blur's value is arbitrary, not necessarily the stored one |
| Session.StepPassed | src/context/formContext.jsx:102-127 | one user action sets `isPassed` only by a submission of an acceptable record, clears it only by a reset, and otherwise keeps it |
| Session.RunLastStep | src/context/formContext.jsx:102-127 | the last action of a run sets or keeps `isPassed` from the state the earlier actions reach exactly as one step does |
| Session.PassedOnlyThroughSubmit | src/pages/FormPage.jsx:60-63 | after any sequence of actions from the initial state, a passed form had a submission of an all-acceptable record with no reset after it |
| Session.PanStaysUpper | src/pages/FormPage.jsx:275 | after any sequence of actions from the initial state, the stored PAN holds no lower-case letter |
| Session.AppStep | src/App.jsx:11-15 | under the view switch the summary page ignores every form action, "go back" always returns to editing, and while editing only a submission of an all-acceptable record reaches the summary page |
| Session.AppStepKeepsPassedValid | src/App.jsx:11-15 | one action under the view switch keeps the summary page showing a valid record with no error on display |
| Session.AppPassedIsValid | src/App.jsx:11-15 | under the view switch, whenever the summary page is shown its record passes every rule and no rule error is on display |
| Session.FilledRecordAcceptable | src/context/formContext.jsx:42-77 | the fully filled example record passes every rule |
| Session.SubmitScenarios | src/context/formContext.jsx:102-127 | submitting the empty form fails with every "required" message; submitting the filled record passes; going back restores the initial state |
| Session.EditAndBlurScenarios | src/pages/FormPage.jsx:142-276 | blurring the email after typing `bad` shows "Email is invalid" and after `a@b.com` shows nothing; a lower-case PAN is stored upper-cased and then validates |

## Left out

- JSX markup, styling, the password show/hide toggle, the city option lists
  and the disabling of the city select: presentation only.
- The summary page's rendering of the record. Only its "go back" button is
  kept, as the `GoBack` action, since it only calls `resetForm`.
- React hooks, context, render batching and closure snapshots. Each handler
  is one atomic transition. For the country change this gives the same
  result as the source's three updates, because they touch three different
  fields.
- The browser's `maxLength` on the PAN and Aadhar inputs: a widget limit,
  not store logic. Values of any length reach the model.
- The browser refusing to submit while the button is disabled. `Submit` is
  modelled as calling `submitForm` whatever the flag, which is what
  `handleSubmit` does.
- The unused `errors` local of `validateAllFields`. The store's
  `isFormValid` is modelled, but nothing reads it: the page keeps its own
  flag of the same name.
- A blur's value is any string. In the page it is the input's current
  value, which for these controlled inputs is the stored one; the model
  does not tie the two together, so it covers more cases than can occur.
  Likewise a blur may name any field, including the dialing code, whose
  select has no blur handler in the page; such a blur stores `""` under
  that key, which the submit-button flag reads as no error.
- Lone UTF-16 surrogates. A JavaScript string can hold one, but a Dafny
  string is a sequence of Unicode scalar values, so such strings are not
  represented; `length` in code units is modelled for the strings that are.
- `formData` keys outside the eleven fields, which `updateFormData` would
  accept for an unknown name. The model uses a fixed enumeration of fields,
  and `countryCode` is the only one without a rule, so it alone stands for
  "a field the switch does not list".
- Prototype-chain keys of the `countryCodes` object, such as
  `"constructor"`. Those are not strings, so `|| '+91'` would not apply to
  them. The model treats every unlisted name as absent.
- ToUpperAscii: upper-cases ASCII letters only. JavaScript's `toUpperCase`
  also maps other Unicode letters and can change the length, as with `ß`.
  The PAN property is stated for ASCII lower-case letters.
- Details of the code the model keeps:
  - A field the `switch` does not list stores `""` and counts as valid.
  - `\d` is ASCII only.
  - The email pattern is an unanchored search.
