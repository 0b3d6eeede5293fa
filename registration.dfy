/**
  The registration component's state and its event handlers. `State` is
  the component's four state variables (`formData`, `errors`,
  `submittedData`, `showToast`) together with the number of hide-toast
  callbacks that `setTimeout` has scheduled and that have not run yet; the
  3000 ms delay itself is not modelled, only the callback's eventual run.
  The `Apply…` functions give each handler's effect on the state; the class
  `RegistrationForm` performs the same updates field by field and is proved
  to agree with them.
 */
module Registration {
  import opened Wrappers
  import opened Text
  import opened Validation

  datatype State = State(
    formData: FormData,
    errors: ErrorMap,
    submittedData: Option<FormData>,
    showToast: bool,
    pendingHides: nat)

  /** The `useState` initial values, before any timer is scheduled. */
  const Initial := State(DefaultForm, map[], None, false, 0)

  /** `handleChange`: one field of the form takes the input's new value;
      the other fields, the errors, the stored submission and the toast
      stay as they were. */
  function ApplyChange(s: State, field: Field, value: string): (r: State)
    ensures r.formData.Get(field) == value
    ensures forall other: Field | other != field :: r.formData.Get(other) == s.formData.Get(other)
    ensures r.errors == s.errors && r.submittedData == s.submittedData
    ensures r.showToast == s.showToast && r.pendingHides == s.pendingHides
  {
    s.(formData := s.formData.With(field, value))
  }

  /** `showToastMessage`: show the toast and schedule one hide callback;
      nothing else changes. */
  function ApplyShowToast(s: State): (r: State)
    ensures r.showToast && r.pendingHides == s.pendingHides + 1
    ensures r.(showToast := s.showToast, pendingHides := s.pendingHides) == s
  {
    s.(showToast := true, pendingHides := s.pendingHides + 1)
  }

  /** `handleSubmit`: validate; store the errors if there are any, and
      otherwise clear them, keep a copy of the form and show the toast.
      Either way the errors afterwards are the validation result, and the
      form itself is never changed. */
  function ApplySubmit(s: State): (r: State)
    ensures r.formData == s.formData
    ensures r.errors == Validate(s.formData)
    ensures r.submittedData == if Validate(s.formData) == map[] then Some(s.formData) else s.submittedData
    ensures r.showToast == (s.showToast || Validate(s.formData) == map[])
    ensures r.pendingHides == s.pendingHides + if Validate(s.formData) == map[] then 1 else 0
  {
    var validationErrors := Validate(s.formData);
    if |validationErrors| > 0 then s.(errors := validationErrors)
    else ApplyShowToast(s.(errors := map[], submittedData := Some(s.formData)))
  }

  /** `handleReset`: the default form, no errors, no submission and no
      toast; a hide callback already scheduled stays scheduled. So from any
      state, reset yields the initial state apart from the pending hides. */
  function ApplyReset(s: State): (r: State)
    ensures r == Initial.(pendingHides := s.pendingHides)
  {
    s.(formData := DefaultForm, errors := map[], submittedData := None, showToast := false)
  }

  /** The oldest scheduled hide callback runs: the toast is hidden, one
      fewer callback is pending, and nothing else changes. */
  function ApplyHide(s: State): (r: State)
    requires s.pendingHides > 0
    ensures !r.showToast && r.pendingHides == s.pendingHides - 1
    ensures r.(showToast := s.showToast, pendingHides := s.pendingHides) == s
  {
    s.(showToast := false, pendingHides := s.pendingHides - 1)
  }

  /** What can happen to the component: an edit, a press of Submit or of
      Reset, or a scheduled hide callback running. */
  datatype Event = Edit(field: Field, value: string) | SubmitPressed | ResetPressed | HideTimer

  /** A hide callback can only run once it has been scheduled. */
  predicate Enabled(s: State, e: Event)
  {
    e.HideTimer? ==> s.pendingHides > 0
  }

  function Step(s: State, e: Event): State
    requires Enabled(s, e)
  {
    match e
    case Edit(field, value) => ApplyChange(s, field, value)
    case SubmitPressed => ApplySubmit(s)
    case ResetPressed => ApplyReset(s)
    case HideTimer => ApplyHide(s)
  }

  /** Every event of `trace` can happen when its turn comes. */
  predicate Admissible(s: State, trace: seq<Event>)
    decreases |trace|
  {
    trace == [] || (Enabled(s, trace[0]) && Admissible(Step(s, trace[0]), trace[1..]))
  }

  function Run(s: State, trace: seq<Event>): State
    requires Admissible(s, trace)
    decreases |trace|
  {
    if trace == [] then s else Run(Step(s, trace[0]), trace[1..])
  }

  /** What holds in every state the component can reach: the errors shown
      are the outcome of some validation (so only the four validated
      fields, each with its own message, can appear); a stored submission
      passed validation; and a visible toast has a hide callback pending. */
  ghost predicate Inv(s: State)
  {
    && (s.errors == map[] || exists f :: s.errors == Validate(f))
    && (s.submittedData.Some? ==> Validate(s.submittedData.value) == map[])
    && (s.showToast ==> s.pendingHides > 0)
  }

  lemma InitialSatisfiesInv()
    ensures Inv(Initial)
  {
  }

  /** Every event keeps the invariant. */
  lemma StepPreservesInv(s: State, e: Event)
    requires Inv(s) && Enabled(s, e)
    ensures Inv(Step(s, e))
  {
    if e.SubmitPressed? && |Validate(s.formData)| > 0 {
      assert Step(s, e).errors == Validate(s.formData);
    }
  }

  /** Every state reached from one satisfying the invariant satisfies it. */
  lemma {:induction false} RunPreservesInv(s: State, trace: seq<Event>)
    requires Inv(s) && Admissible(s, trace)
    ensures Inv(Run(s, trace))
    decreases |trace|
  {
    if trace != [] {
      StepPreservesInv(s, trace[0]);
      RunPreservesInv(Step(s, trace[0]), trace[1..]);
    }
  }

  /** Every reachable state satisfies the invariant. */
  lemma ReachableSatisfiesInv(trace: seq<Event>)
    requires Admissible(Initial, trace)
    ensures Inv(Run(Initial, trace))
  {
    RunPreservesInv(Initial, trace);
  }

  /** In every reachable state the error map has no entry for `withGuest`,
      and every entry carries its field's message. */
  lemma ReachableErrorsAreMessages(s: State, k: Field)
    requires Inv(s) && k in s.errors
    ensures k != WithGuest
    ensures k == Name ==> s.errors[k] == NameRequired
    ensures k == Email ==> s.errors[k] == EmailRequired || s.errors[k] == EmailInvalid
    ensures k == Age ==> s.errors[k] == AgeRequired || s.errors[k] == AgeInvalid
    ensures k == GuestName ==> s.errors[k] == GuestNameRequired
  {
    var f :| s.errors == Validate(f);
  }

  /** Switching `withGuest` to "No" neither clears the guest name nor its
      error message: the message stays until the next submit or reset. */
  lemma GuestErrorSurvivesSwitchingToNo(s: State)
    requires GuestName in s.errors
    ensures ApplyChange(s, WithGuest, "No").errors[GuestName] == s.errors[GuestName]
    ensures ApplyChange(s, WithGuest, "No").formData.guestName == s.formData.guestName
  {
  }

  /** A submit that fails validation stores exactly the validation result
      and leaves the form, the stored submission and the toast alone. */
  lemma FailedSubmit(s: State)
    requires Validate(s.formData) != map[]
    ensures ApplySubmit(s).errors == Validate(s.formData)
    ensures ApplySubmit(s).formData == s.formData
    ensures ApplySubmit(s).submittedData == s.submittedData
    ensures ApplySubmit(s).showToast == s.showToast
    ensures ApplySubmit(s).pendingHides == s.pendingHides
  {
    assert |Validate(s.formData)| > 0;
  }

  /** A blank name, email or (when a guest is coming) guest name, or an empty
      age, always makes a submit fail and keep the previous submission. */
  lemma BlankRequiredFieldRejected(s: State)
    requires || IsBlank(s.formData.name) || IsBlank(s.formData.email) || s.formData.age == ""
             || (s.formData.withGuest == "Yes" && IsBlank(s.formData.guestName))
    ensures ApplySubmit(s).errors != map[]
    ensures ApplySubmit(s).submittedData == s.submittedData
    ensures ApplySubmit(s).showToast == s.showToast
  {
    ValidateEmptyIff(s.formData);
    FailedSubmit(s);
  }

  /** A submit that passes validation clears the errors, stores a copy of
      the form, shows the toast and schedules one hide callback. */
  lemma SuccessfulSubmit(s: State)
    requires Validate(s.formData) == map[]
    ensures ApplySubmit(s).errors == map[]
    ensures ApplySubmit(s).formData == s.formData
    ensures ApplySubmit(s).submittedData == Some(s.formData)
    ensures ApplySubmit(s).showToast
    ensures ApplySubmit(s).pendingHides == s.pendingHides + 1
  {
  }

  /** A failed submit repeated changes nothing more. */
  lemma FailedSubmitIdempotent(s: State)
    requires Validate(s.formData) != map[]
    ensures ApplySubmit(ApplySubmit(s)) == ApplySubmit(s)
  {
    FailedSubmit(s);
    FailedSubmit(ApplySubmit(s));
  }

  /** Resetting twice is resetting once. */
  lemma ResetIdempotent(s: State)
    ensures ApplyReset(ApplyReset(s)) == ApplyReset(s)
  {
  }

  /** Whenever the toast is visible a hide callback is pending, and its run
      hides the toast. */
  lemma VisibleToastGetsHidden(s: State)
    requires Inv(s) && s.showToast
    ensures Enabled(s, HideTimer)
    ensures !Step(s, HideTimer).showToast
  {
  }

  /** A second successful submit while an earlier hide callback is pending
      shows the toast again, but the earlier callback, which runs first,
      hides it while the callback scheduled for the second submit is still
      pending: the second toast is cut short. */
  lemma EarlierHideCutsLaterToast(s: State)
    requires s.pendingHides > 0 && Validate(s.formData) == map[]
    ensures ApplySubmit(s).showToast
    ensures !ApplyHide(ApplySubmit(s)).showToast
    ensures ApplyHide(ApplySubmit(s)).pendingHides == s.pendingHides
  {
  }

  /** After a successful submit, an edit that breaks the form and a failed
      submit, the previous submission is still stored beside the new
      errors: a stored submission does not mean the latest validation
      passed. */
  lemma StaleSubmissionAfterFailedSubmit(s: State, field: Field, value: string)
    requires Validate(s.formData) == map[]
    requires Validate(s.formData.With(field, value)) != map[]
    ensures var t := ApplySubmit(ApplyChange(ApplySubmit(s), field, value));
            && t.submittedData == Some(s.formData)
            && t.errors == Validate(s.formData.With(field, value))
            && t.errors != map[]
  {
    SuccessfulSubmit(s);
    FailedSubmit(ApplyChange(ApplySubmit(s), field, value));
  }

  /** The component: its state variables as fields, updated by its handlers. */
  class RegistrationForm {
    var formData: FormData
    var errors: ErrorMap
    var submittedData: Option<FormData>
    var showToast: bool
    /** hide callbacks scheduled by `setTimeout` that have not run yet */
    var pendingHides: nat

    function Current(): State
      reads this
    {
      State(formData, errors, submittedData, showToast, pendingHides)
    }

    ghost predicate Valid()
      reads this
    {
      Inv(Current())
    }

    constructor ()
      ensures Valid() && Current() == Initial
    {
      formData := DefaultForm;
      errors := map[];
      submittedData := None;
      showToast := false;
      pendingHides := 0;
    }

    method HandleChange(field: Field, value: string)
      requires Valid()
      modifies this
      ensures Valid() && Current() == ApplyChange(old(Current()), field, value)
    {
      formData := formData.With(field, value);
    }

    method HandleSubmit()
      requires Valid()
      modifies this
      ensures Valid() && Current() == ApplySubmit(old(Current()))
    {
      var validationErrors := Validate(formData);
      if |validationErrors| > 0 {
        errors := validationErrors;
      } else {
        errors := map[];
        submittedData := Some(formData);
        ShowToastMessage();
      }
    }

    method ShowToastMessage()
      requires Valid()
      modifies this
      ensures Valid() && Current() == ApplyShowToast(old(Current()))
    {
      showToast := true;
      pendingHides := pendingHides + 1;
    }

    method HandleReset()
      requires Valid()
      modifies this
      ensures Valid() && Current() == ApplyReset(old(Current()))
    {
      formData := DefaultForm;
      errors := map[];
      submittedData := None;
      showToast := false;
    }

    /** The callback passed to `setTimeout` by `showToastMessage`. */
    method HideToast()
      requires Valid() && pendingHides > 0
      modifies this
      ensures Valid() && Current() == ApplyHide(old(Current()))
    {
      showToast := false;
      pendingHides := pendingHides - 1;
    }
  }
}
