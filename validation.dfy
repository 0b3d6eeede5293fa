/**
  The registration form's record and its validator (`validate` in App.js):
  a pure function from the five form fields to a map holding one message
  for each failing field.
 */
module Validation {
  import opened Text
  import opened EmailPattern
  import opened JsNumber

  /** The form's inputs, by their `name` attribute. */
  datatype Field = Name | Email | Age | WithGuest | GuestName

  /** `formData`: every field holds the input's text; `withGuest` holds the
      selected option's value. */
  datatype FormData = FormData(name: string, email: string, age: string, withGuest: string, guestName: string)
  {
    function Get(field: Field): string
    {
      match field
      case Name => name
      case Email => email
      case Age => age
      case WithGuest => withGuest
      case GuestName => guestName
    }

    /** `{ ...prev, [field]: value }`: the named field takes the new value and
        every other field keeps its own. */
    function With(field: Field, value: string): (r: FormData)
      ensures r.Get(field) == value
      ensures forall other: Field | other != field :: r.Get(other) == Get(other)
    {
      match field
      case Name => this.(name := value)
      case Email => this.(email := value)
      case Age => this.(age := value)
      case WithGuest => this.(withGuest := value)
      case GuestName => this.(guestName := value)
    }
  }

  /** The initial value of `formData`, which Reset restores. */
  const DefaultForm := FormData("", "", "", "No", "")

  const NameRequired := "Name is required."
  const EmailRequired := "Email is required."
  const EmailInvalid := "Email format is invalid."
  const AgeRequired := "Age is required."
  const AgeInvalid := "Age must be a number greater than 0."
  const GuestNameRequired := "Guest name is required."

  /** The `errors` object: a message per failing field. */
  type ErrorMap = map<Field, string>

  /** `validate`: which fields fail, each with its fixed message. The name
      and guest name must not be blank; the email must not be blank and
      must then contain a match of `\S+@\S+\.\S+`; the age must not be the
      empty string and must then convert to a number greater than 0; the
      guest name is checked only while `withGuest` is `"Yes"`. */
  function Validate(f: FormData): (errs: ErrorMap)
    ensures WithGuest !in errs
    ensures Name in errs <==> IsBlank(f.name)
    ensures Name in errs ==> errs[Name] == NameRequired
    ensures Email in errs <==> IsBlank(f.email) || !IsEmailLike(f.email)
    ensures Email in errs ==> errs[Email] == if IsBlank(f.email) then EmailRequired else EmailInvalid
    ensures Age in errs <==> f.age == "" || Classify(f.age) != Positive
    ensures Age in errs ==> errs[Age] == if f.age == "" then AgeRequired else AgeInvalid
    ensures GuestName in errs <==> f.withGuest == "Yes" && IsBlank(f.guestName)
    ensures GuestName in errs ==> errs[GuestName] == GuestNameRequired
  {
    var errs: ErrorMap := map[];
    var errs := if Trim(f.name) == [] then errs[Name := NameRequired] else errs;
    var errs :=
      if Trim(f.email) == [] then errs[Email := EmailRequired]
      else if !IsEmailLike(f.email) then errs[Email := EmailInvalid]
      else errs;
    var errs :=
      if f.age == "" then errs[Age := AgeRequired]
      else if Classify(f.age) == NotANumber || Classify(f.age) == NotPositive then errs[Age := AgeInvalid]
      else errs;
    var errs :=
      if f.withGuest == "Yes" && Trim(f.guestName) == [] then errs[GuestName := GuestNameRequired]
      else errs;
    errs
  }

  /** Every field passes its rule. */
  predicate AllFieldsValid(f: FormData)
  {
    && !IsBlank(f.name)
    && !IsBlank(f.email) && IsEmailLike(f.email)
    && f.age != "" && Classify(f.age) == Positive
    && !(f.withGuest == "Yes" && IsBlank(f.guestName))
  }

  /** The validator returns the empty map exactly when every field passes. */
  lemma ValidateEmptyIff(f: FormData)
    ensures Validate(f) == map[] <==> AllFieldsValid(f)
  {
    var errs := Validate(f);
    if AllFieldsValid(f) {
      forall k: Field
        ensures k !in errs
      {
        match k
        case Name =>
        case Email =>
        case Age =>
        case WithGuest =>
        case GuestName =>
      }
      assert errs.Keys == {};
    }
  }

  /** The entry a field gets depends on that field alone, and for the guest
      name also on `withGuest`: editing one field cannot change another
      field's verdict. */
  lemma EntryDependsOnItsField(f: FormData, g: FormData, k: Field)
    requires f.Get(k) == g.Get(k)
    requires k == GuestName ==> f.withGuest == g.withGuest
    ensures k in Validate(f) <==> k in Validate(g)
    ensures k in Validate(f) ==> Validate(f)[k] == Validate(g)[k]
  {
  }

  /** While `withGuest` is not `"Yes"`, the guest name is ignored. */
  lemma GuestNameIgnoredWithoutGuest(f: FormData, value: string)
    requires f.withGuest != "Yes"
    ensures Validate(f.With(GuestName, value)) == Validate(f)
  {
    var g := f.With(GuestName, value);
    forall k: Field
      ensures (k in Validate(f) <==> k in Validate(g))
      ensures k in Validate(f) ==> Validate(f)[k] == Validate(g)[k]
    {
      if k != GuestName {
        EntryDependsOnItsField(f, g, k);
      }
    }
  }

  /** With the name, the email and the age left empty and no guest, the
      validator reports exactly those three as required. */
  lemma EmptyRequiredFieldsErrors(f: FormData)
    requires f.name == "" && f.email == "" && f.age == "" && f.withGuest != "Yes"
    ensures Validate(f) == map[Name := NameRequired, Email := EmailRequired, Age := AgeRequired]
  {
    var errs := Validate(f);
    assert IsBlank(f.email);
    assert errs.Keys == {Name, Email, Age};
  }

  /** Submitting the untouched form reports the three required fields. */
  lemma DefaultFormErrors()
    ensures Validate(DefaultForm) == map[Name := NameRequired, Email := EmailRequired, Age := AgeRequired]
  {
    EmptyRequiredFieldsErrors(DefaultForm);
  }
}

module ValidationExamples {
  import opened Text
  import opened EmailPattern
  import opened JsNumber
  import opened Validation

  /** `"5"` converts to a number greater than 0. */
  lemma FiveIsPositive()
    ensures Classify("5") == Positive
  {
    var s := "5";
    assert AllDigitsOf(s, 10) && s[0] != '0';
    DecimalDigitsClassify(s);
  }

  /** A form with only the name missing is rejected for its name alone. */
  lemma MissingNameOnly(f: FormData)
    requires f.name == "" && f.email == "a@b.com" && f.age == "5" && f.withGuest == "No"
    ensures Validate(f) == map[Name := NameRequired]
  {
    SampleAddressMatches();
    FiveIsPositive();
    NotBlank(f.email);
    OnlyNameFails(f);
  }

  lemma OnlyNameFails(f: FormData)
    requires IsBlank(f.name) && !IsBlank(f.email) && IsEmailLike(f.email)
    requires f.age != "" && Classify(f.age) == Positive && f.withGuest != "Yes"
    ensures Validate(f) == map[Name := NameRequired]
  {
    assert Validate(f).Keys == {Name};
  }

  /** A form whose email has no `@` is rejected for its email format alone. */
  lemma MalformedEmailOnly(f: FormData)
    requires f.name == "A" && f.email == "bad" && f.age == "5" && f.withGuest == "No"
    ensures Validate(f) == map[Email := EmailInvalid]
  {
    FiveIsPositive();
    NoAtSignNoMatch(f.email);
    NotBlank(f.name);
    NotBlank(f.email);
    OnlyEmailFormatFails(f);
  }

  lemma OnlyEmailFormatFails(f: FormData)
    requires !IsBlank(f.name) && !IsBlank(f.email) && !IsEmailLike(f.email)
    requires f.age != "" && Classify(f.age) == Positive && f.withGuest != "Yes"
    ensures Validate(f) == map[Email := EmailInvalid]
  {
    assert Validate(f).Keys == {Email};
  }

  /** A complete form with a named guest passes. */
  lemma CompleteFormWithGuest(f: FormData)
    requires f.name == "A" && f.email == "a@b.com" && f.age == "5" && f.withGuest == "Yes" && f.guestName == "B"
    ensures Validate(f) == map[]
  {
    SampleAddressMatches();
    FiveIsPositive();
    NotBlank(f.name);
    NotBlank(f.email);
    NotBlank(f.guestName);
    ValidateEmptyIff(f);
  }

  lemma NotBlank(s: string)
    requires s != [] && !IsSpace(s[0])
    ensures !IsBlank(s)
  {
  }
}
