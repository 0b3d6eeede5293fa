# Event registration form — a Dafny model

This project models the logic of a one-component React registration form,
`App.js`. The form has five fields: name, email, age, "attending with a
guest?" and the guest's name. The model covers two parts:

- **The validator** `validate`. It maps the form record to an error map that
  holds one fixed message for each failing field.
- **The component's state machine.** The state is `formData`, `errors`,
  `submittedData` (absent until the first successful submit) and
  `showToast`. The handlers are `handleChange`, `handleSubmit` (which calls
  `showToastMessage`) and `handleReset`, plus the hide callback that
  `showToastMessage` hands to `setTimeout`.

Layout, one module per concern:

- `text.dfy` (`Text`): the JavaScript whitespace set, which `trim()`, `\s`/`\S`
  and `Number()` all share. It is ECMA-262 WhiteSpace together with
  LineTerminator, written out. The Unicode "Zs" space separators are the
  list of Unicode 6.3 and later, which no longer has U+180E. Also `Trim`.
- `email.dfy` (`EmailPattern`): `/\S+@\S+\.\S+/.test(s)`, stated through the
  index of the `@` and the index of the `.`. It is proved equivalent to the
  regular expression's literal reading: some substring is `u@v.w` with `u`,
  `v`, `w` non-empty runs of non-whitespace.
- `number.dfy` (`JsNumber`): the StringToNumber conversion of ECMA-262
  (section 7.1.4.1.1), as a parser of StringNumericLiteral. Its result is
  reduced to the three outcomes the age check distinguishes: NaN, greater
  than 0, not greater than 0.
  - It covers decimal literals with an optional sign, fraction and exponent,
    `Infinity`, and `0x`/`0o`/`0b` integers.
  - Surrounding whitespace is ignored, and a blank string converts to 0.
  - Decimal values at or below 2^-1075 round to zero, as IEEE 754
    round-to-nearest-even does.
  - `isNaN(s)` converts with the same `Number(s)`, so one classification
    serves both halves of the test at App.js:35.
- `validation.dfy` (`Validation`, `ValidationExamples`): the form record, the
  field update `{ ...prev, [name]: value }`, the messages and `Validate`,
  with lemmas and worked examples.
- `registration.dfy` (`Registration`): the handlers as functions on a
  `State` value, an event-trace semantics, the reachable-state invariant,
  and the class `RegistrationForm`. Each of its methods is proved to agree
  with the matching function.
- `wrappers.dfy` (`Wrappers`): `Option`, for the `null` of `submittedData`.

The 3000 ms timer is modelled as a discrete event. `State.pendingHides`
counts the hide callbacks that have been scheduled and have not run yet.
`showToastMessage` adds one, and a `HideTimer` event runs the oldest.
`handleReset` hides the toast but cancels nothing, so the count survives a
reset. As a consequence, a second successful submit made while an earlier
callback is pending has its toast hidden by that earlier callback
(`EarlierHideCutsLaterToast`).

Two behaviours of the code that are easy to misread:

- A stored submission does not mean that the latest submit passed
  validation. A failed submit keeps the earlier snapshot beside the new
  errors (App.js:47-48; `StaleSubmissionAfterFailedSubmit`).
- A guest-name error may stay stored while `withGuest` is `"No"`, because
  an edit does not touch `errors` (`GuestErrorSurvivesSwitchingToNo`). The
  guarantee that a guest-name error needs `withGuest == "Yes"` holds of
  `Validate`'s result, not of the stored errors.

## Model

| member | source | states |
|---|---|---|
| `Text.IsSpace` | App.js:27-38 | the whitespace set of `trim()` and `\s`/`\S`: every member lies in the Basic Multilingual Plane and no visible ASCII character is one. `Trim`, `IsEmailLikeIffSubstringMatch` and `Validate` build on it |
| `Text.Trim` | App.js:27 | the result of `trim()` is empty exactly when the input is blank, and otherwise starts and ends with non-whitespace |
| `Text.TrimIsBlankFramedSlice` | App.js:27 | `trim()` returns a contiguous slice of its input, with only whitespace on either side of it |
| `Text.TrimIdempotent` | App.js:27 | trimming a trimmed string changes nothing |
| `EmailPattern.IsEmailLike` | App.js:30 | `/\S+@\S+\.\S+/.test(s)`, decided by the index of an `@` and of a later `.`; a blank string never matches. `IsEmailLikeIffSubstringMatch` proves it equal to the regular expression's substring reading, `NoAtSignNoMatch`, `MatchNeedsFiveCharacters` and `SampleAddressMatches` specify it further |
| `EmailPattern.IsEmailLikeIffSubstringMatch` | App.js:30 | the `@`/`.` index test holds exactly when some substring matches `\S+@\S+\.\S+` as the regular expression reads |
| `EmailPattern.NoAtSignNoMatch` | App.js:30 | an email without `@` never passes the format test |
| `EmailPattern.MatchNeedsFiveCharacters` | App.js:30 | any string that passes the format test has at least five characters |
| `EmailPattern.SampleAddressMatches` | App.js:30 | `a@b.com` passes the format test |
| `JsNumber.StringToNumber` | App.js:35 | `Number(s)` on the trimmed string: a blank string converts to 0, a negative value needs a written `-`, and a `0x`/`0o`/`0b` integer needs its prefix; failure stands for NaN |
| `JsNumber.Classify` | App.js:35 | the test `isNaN(s)` or `Number(s) <= 0`, read as three outcomes: NaN exactly when the conversion fails, and a blank string is never greater than 0. `DecimalDigitsClassify`, `BlankIsNotPositive`, `MinusSignIsNotPositive` and `BadLeadIsNotANumber` specify it further |
| `JsNumber.DecimalDigitsClassify` | App.js:35 | a non-empty string of decimal digits is never NaN, and is greater than 0 exactly when some digit is not `0` |
| `JsNumber.BlankIsNotPositive` | App.js:33-36 | a blank string, the empty one included, converts to 0 and so is not greater than 0; together with the age clauses of `Validate`'s contract, a blank but non-empty age gets the "greater than 0" message, not "required" |
| `JsNumber.MinusSignIsNotPositive` | App.js:35 | an age written with a leading `-` is never accepted |
| `JsNumber.BadLeadIsNotANumber` | App.js:35 | an age whose first non-whitespace character cannot begin a numeric literal is NaN |
| `Validation.FormData.With` | App.js:19-22 | the updated record holds the new value in the named field and the old value in every other field |
| `Validation.Validate` | App.js:25-42 | `withGuest` never gets an error. Each rule, both directions: name error iff blank; email "required" iff blank, else "format invalid" iff no pattern match; age "required" iff empty (no trim), else "greater than 0" iff NaN or not greater than 0; guest-name error iff `withGuest == "Yes"` and guest name blank |
| `Validation.ValidateEmptyIff` | App.js:25-42 | the error map is empty exactly when every field passes its rule |
| `Validation.EntryDependsOnItsField` | App.js:25-42 | a field's entry depends only on that field, plus `withGuest` for the guest name |
| `Validation.GuestNameIgnoredWithoutGuest` | App.js:38-40 | while `withGuest` is not `"Yes"`, changing the guest name cannot change the validation result |
| `Validation.EmptyRequiredFieldsErrors` | App.js:25-42 | with name, email and age empty and no guest, the result is exactly the three "required" messages |
| `Validation.DefaultFormErrors` | App.js:5-11 | submitting the initial form reports name, email and age as required |
| `ValidationExamples.FiveIsPositive` | App.js:35 | the age `"5"` is accepted |
| `ValidationExamples.MissingNameOnly` | App.js:27 | `{name: "", email: "a@b.com", age: "5", withGuest: "No"}` yields only the name message |
| `ValidationExamples.MalformedEmailOnly` | App.js:30-31 | `{name: "A", email: "bad", age: "5", withGuest: "No"}` yields only the email-format message |
| `ValidationExamples.CompleteFormWithGuest` | App.js:25-42 | `{name: "A", email: "a@b.com", age: "5", withGuest: "Yes", guestName: "B"}` passes |
| `Registration.ApplyChange` | App.js:17-23 | `handleChange`: exactly the named field takes the new value; the other fields, `errors`, `submittedData`, `showToast` and the pending hides are unchanged |
| `Registration.ApplyShowToast` | App.js:69-74 | `showToastMessage`: the toast shows, one more hide is pending, and nothing else changes |
| `Registration.ApplySubmit` | App.js:44-54 | `handleSubmit`: the form is unchanged and `errors` becomes the validation result; only a passing submit stores a copy of the form, shows the toast and schedules a hide. `FailedSubmit`, `SuccessfulSubmit` and `StepPreservesInv` specify it further |
| `Registration.ApplyReset` | App.js:56-67 | `handleReset`: from any state, the initial state, with only the pending hide callbacks kept. `ResetIdempotent` and `StepPreservesInv` specify it further |
| `Registration.ApplyHide` | App.js:71-73 | the hide callback: the toast is hidden, one fewer hide is pending, and nothing else changes. `VisibleToastGetsHidden` and `EarlierHideCutsLaterToast` specify it further |
| `Registration.InitialSatisfiesInv` | App.js:5-15 | the initial state satisfies the invariant |
| `Registration.StepPreservesInv` | App.js:17-74 | every edit, submit, reset and hide callback keeps the invariant. Stored errors are some validation's result; a stored submission passed validation; a visible toast has a hide pending |
| `Registration.RunPreservesInv` | App.js:17-74 | every admissible event sequence keeps the invariant |
| `Registration.ReachableSatisfiesInv` | App.js:5-74 | every state reachable from the initial one satisfies the invariant |
| `Registration.ReachableErrorsAreMessages` | App.js:25-48 | in such a state `errors` has no `withGuest` key, and each entry is one of its own field's messages |
| `Registration.GuestErrorSurvivesSwitchingToNo` | App.js:17-23 | choosing "No" keeps the guest name and its stored error |
| `Registration.FailedSubmit` | App.js:44-48 | a failing submit stores exactly the validation result and leaves the form, the snapshot, the toast and the timers alone |
| `Registration.BlankRequiredFieldRejected` | App.js:44-48 | a blank required field always makes the submit fail and keep the previous snapshot and toast |
| `Registration.SuccessfulSubmit` | App.js:49-53 | a passing submit clears the errors, snapshots the current form, shows the toast and schedules one hide |
| `Registration.FailedSubmitIdempotent` | App.js:44-48 | repeating a failing submit changes nothing more |
| `Registration.ResetIdempotent` | App.js:56-67 | resetting twice equals resetting once |
| `Registration.VisibleToastGetsHidden` | App.js:69-73 | in a reachable state, a visible toast always has a hide pending, and running it hides the toast |
| `Registration.EarlierHideCutsLaterToast` | App.js:69-73 | a second successful submit with a hide already pending is hidden by that earlier hide, while its own hide is still pending |
| `Registration.StaleSubmissionAfterFailedSubmit` | App.js:44-53 | after a success, an edit that breaks the form and another submit, the old snapshot sits beside non-empty errors |
| `Registration.RegistrationForm.constructor` | App.js:5-15 | the fields start at the `useState` initial values, and the invariant holds |
| `Registration.RegistrationForm.HandleChange` | App.js:17-23 | the new state is `ApplyChange` of the old, and the invariant is kept |
| `Registration.RegistrationForm.HandleSubmit` | App.js:44-54 | the new state is `ApplySubmit` of the old, and the invariant is kept |
| `Registration.RegistrationForm.ShowToastMessage` | App.js:69-74 | the toast is shown and one hide is scheduled, and the invariant is kept |
| `Registration.RegistrationForm.HandleReset` | App.js:56-67 | the new state is `ApplyReset` of the old, and the invariant is kept |
| `Registration.RegistrationForm.HideToast` | App.js:71-73 | the oldest pending hide runs: the toast is hidden and one fewer hide is pending |

## Left out

- JSX rendering and conditional display (App.js:76-164). This includes the guest-name input and the summary line shown only when `withGuest` is `"Yes"`. It is presentation, not logic.
- The CSS import and React's `useState` machinery (App.js:1-2). State is plain fields updated synchronously; React's batching of the setters inside one handler does not change the final state.
- Real time. The 3000 ms delay is not modelled: each hide callback is an event that may occur at any later point. Callbacks of equal delay run oldest first.
- `e.preventDefault()` and the event objects (App.js:18, 45). This is DOM plumbing. `handleChange` is modelled for the five inputs the form renders, so the `name` from the event is a `Field`.
- The browser's sanitisation of input values (App.js:83-137): `type="number"` hands over `""` for unparsable text, `type="email"` removes line breaks and leading and trailing ASCII whitespace, and `type="text"` removes line breaks. The model accepts any string in every field, which includes all of these sanitised values, so no result changes.
- `JsNumber.Classify`: excludes a latitude ECMA-262 gives engines. For decimal literals with more than 20 significant digits, an engine may round after the 20th digit, and that changes the result only for values right at the underflow threshold 2^-1075. The model uses the exact value.
- Strings are sequences of Unicode scalar values, not UTF-16 code units. Every whitespace character and every delimiter that trim, the email pattern and `Number()` look at lies in the Basic Multilingual Plane, and a character outside it only ever counts as non-whitespace.
