/**
 * The validator of the single form in src/App.js: it maps the current form
 * values to an errors record that holds the message "Required" for every
 * field that is missing, and nothing else.
 */
module FormValidation {
  import opened Wrappers

  /** The five fields of the form; the keys of the values and of the errors. */
  datatype Field = Name | Address | Country | Gender | Hobbies

  const AllFields: set<Field> := {Name, Address, Country, Gender, Hobbies}

  /**
   * The form values. The four text controls always hold a string; the
   * hobbies multi-select holds an array, and the validator also handles that
   * property being absent, which is what `None` stands for.
   */
  datatype FormValues = FormValues(
    name: string,
    address: string,
    country: string,
    gender: string,
    hobbies: Option<seq<string>>)

  /** The errors record: field name to message, present only for invalid fields. */
  type Errors = map<Field, string>

  /** The only message the validator ever produces. */
  const Required: string := "Required"

  /** The values the form starts from (every text empty, no hobby selected). */
  const InitialValues: FormValues := FormValues("", "", "", "", Some([]))

  /** A select option: the value submitted and the title shown. */
  datatype Choice = Choice(value: string, title: string)

  /** The country dropdown's options. */
  const Countries: seq<Choice> := [
    Choice("us", "United States"),
    Choice("ca", "Canada"),
    Choice("uk", "United Kingdom"),
    Choice("au", "Australia")
  ]

  /** The hobbies multi-select's options. */
  const HobbyChoices: seq<Choice> := [
    Choice("reading", "Reading"),
    Choice("sports", "Sports"),
    Choice("music", "Music"),
    Choice("art", "Art")
  ]

  /** The gender radio group's options, as value and label. */
  const GenderChoices: seq<Choice> := [
    Choice("male", "Male"),
    Choice("female", "Female"),
    Choice("other", "Other")
  ]

  /** The values a list of options can submit. */
  function ChoiceValues(choices: seq<Choice>): set<string> {
    set c | c in choices :: c.value
  }

  /** The country dropdown submits one of the four codes. */
  lemma CountryOptionValues()
    ensures |Countries| == 4
    ensures ChoiceValues(Countries) == {"us", "ca", "uk", "au"}
  {
    assert Countries[0].value == "us" && Countries[1].value == "ca";
    assert Countries[2].value == "uk" && Countries[3].value == "au";
  }

  /** The hobbies multi-select offers four values. */
  lemma HobbyOptionValues()
    ensures |HobbyChoices| == 4
    ensures ChoiceValues(HobbyChoices) == {"reading", "sports", "music", "art"}
  {
    assert HobbyChoices[0].value == "reading" && HobbyChoices[1].value == "sports";
    assert HobbyChoices[2].value == "music" && HobbyChoices[3].value == "art";
  }

  /** The gender radio group offers three values. */
  lemma GenderOptionValues()
    ensures |GenderChoices| == 3
    ensures ChoiceValues(GenderChoices) == {"male", "female", "other"}
  {
    assert GenderChoices[0].value == "male" && GenderChoices[1].value == "female";
    assert GenderChoices[2].value == "other";
  }

  /** JavaScript truthiness of a string: every string but the empty one is truthy. */
  predicate Truthy(s: string) {
    s != ""
  }

  /**
   * Whether the validator reports field `f` as missing: a falsy string, or a
   * hobbies list that is absent or has length zero.
   */
  predicate Missing(values: FormValues, f: Field) {
    match f
    case Name => !Truthy(values.name)
    case Address => !Truthy(values.address)
    case Country => !Truthy(values.country)
    case Gender => !Truthy(values.gender)
    case Hobbies => values.hobbies.None? || |values.hobbies.value| == 0
  }

  /**
   * The errors record the validator is to produce, defined field by field:
   * "Required" at each missing field, no other key.
   */
  function ErrorsOf(values: FormValues): (errors: Errors)
    ensures forall f :: f in errors ==> errors[f] == Required
    ensures Name in errors <==> values.name == ""
    ensures Address in errors <==> values.address == ""
    ensures Country in errors <==> values.country == ""
    ensures Gender in errors <==> values.gender == ""
    ensures Hobbies in errors <==> values.hobbies == None || |values.hobbies.value| == 0
  {
    map f | f in AllFields && Missing(values, f) :: Required
  }

  /**
   * The validator as the source writes it: a fresh, empty errors record
   * filled in by five conditional assignments, one per field, in order.
   */
  method Validate(values: FormValues) returns (errors: Errors)
    ensures errors == ErrorsOf(values)
  {
    errors := map[];
    if !Truthy(values.name) {
      errors := errors[Name := Required];
    }
    if !Truthy(values.address) {
      errors := errors[Address := Required];
    }
    if !Truthy(values.country) {
      errors := errors[Country := Required];
    }
    if !Truthy(values.gender) {
      errors := errors[Gender := Required];
    }
    if values.hobbies.None? || |values.hobbies.value| == 0 {
      errors := errors[Hobbies := Required];
    }
  }

  /** Every field is filled in: four non-empty strings and a non-empty hobbies list. */
  predicate Complete(values: FormValues) {
    && values.name != ""
    && values.address != ""
    && values.country != ""
    && values.gender != ""
    && values.hobbies.Some?
    && |values.hobbies.value| > 0
  }

  /** The errors record is empty exactly when every field is filled in. */
  lemma NoErrorsIffComplete(values: FormValues)
    ensures ErrorsOf(values) == map[] <==> Complete(values)
  {
    var errors := ErrorsOf(values);
    if Complete(values) {
      assert errors.Keys == {};
    } else {
      var f :| f in AllFields && Missing(values, f);
      assert f in errors;
    }
  }

  /**
   * There are at most five errors, one per field. This follows from the
   * closed `Field` type alone: it holds of every map keyed by `Field`.
   */
  lemma AtMostFiveErrors(values: FormValues)
    ensures ErrorsOf(values).Keys <= AllFields
    ensures |ErrorsOf(values)| <= 5
  {
    var keys := ErrorsOf(values).Keys;
    assert keys <= AllFields;
    SubsetCardinality(keys, AllFields);
  }

  /** The initial values are reported missing in all five fields. */
  lemma InitialValuesAllRequired()
    ensures ErrorsOf(InitialValues).Keys == AllFields
    ensures |ErrorsOf(InitialValues)| == 5
    ensures forall f :: f in AllFields ==> ErrorsOf(InitialValues)[f] == Required
  {
    var errors := ErrorsOf(InitialValues);
    assert errors.Keys == AllFields;
    assert |AllFields| == 5;
  }

  /** The two records agree on field `f`. */
  predicate SameField(v: FormValues, w: FormValues, f: Field) {
    match f
    case Name => v.name == w.name
    case Address => v.address == w.address
    case Country => v.country == w.country
    case Gender => v.gender == w.gender
    case Hobbies => v.hobbies == w.hobbies
  }

  /**
   * The fields are checked independently: two records that differ at most in
   * field `f` get the same errors everywhere except possibly at `f`.
   */
  lemma Independence(v: FormValues, w: FormValues, f: Field)
    requires forall g :: g != f ==> SameField(v, w, g)
    ensures ErrorsOf(v) - {f} == ErrorsOf(w) - {f}
  {
    forall g | g != f
      ensures g in ErrorsOf(v) <==> g in ErrorsOf(w)
    {
      assert SameField(v, w, g);
    }
  }

  /**
   * Only emptiness is checked: a whitespace-only name, a country code outside
   * the dropdown's options, a gender outside the radio group's options and a
   * hobby outside the multi-select's options all pass.
   */
  lemma ChoicesAreNotChecked()
    ensures "zz" !in ChoiceValues(Countries)
    ensures "unknown" !in ChoiceValues(GenderChoices)
    ensures "chess" !in ChoiceValues(HobbyChoices)
    ensures ErrorsOf(FormValues(" ", "1 Main St", "zz", "unknown", Some(["chess"]))) == map[]
  {
    NoErrorsIffComplete(FormValues(" ", "1 Main St", "zz", "unknown", Some(["chess"])));
  }

  /** A completely filled-in form with values from the options passes. */
  lemma FilledFormPasses()
    ensures "us" in ChoiceValues(Countries)
    ensures "female" in ChoiceValues(GenderChoices)
    ensures "reading" in ChoiceValues(HobbyChoices) && "music" in ChoiceValues(HobbyChoices)
    ensures ErrorsOf(FormValues("Alice", "1 Main St", "us", "female", Some(["reading", "music"]))) == map[]
  {
    assert Countries[0].value == "us";
    assert GenderChoices[1].value == "female";
    assert HobbyChoices[0].value == "reading" && HobbyChoices[2].value == "music";
    NoErrorsIffComplete(FormValues("Alice", "1 Main St", "us", "female", Some(["reading", "music"])));
  }

  /** A subset of a finite set is no larger than it. */
  lemma {:induction false} SubsetCardinality<T>(a: set<T>, b: set<T>)
    requires a <= b
    ensures |a| <= |b|
  {
    if a != {} {
      var x :| x in a;
      SubsetCardinality(a - {x}, b - {x});
    }
  }
}
