# Form validator model

The repository is one client-side form (name, address, country, gender,
hobbies) built on a form-state library and a UI toolkit. The only logic it
owns is `validate` in `src/App.js`: it takes the current form values and
returns an errors record holding the message `"Required"` for each field that
is missing. This project models that function, the form's initial values,
and the option lists of the country dropdown, the gender radio group and the
hobbies multi-select.

- `wrappers.dfy`, module `Wrappers`: `Option`, used for a property that may be absent.
- `form_validation.dfy`, module `FormValidation`:
  - `Field`: the closed set of the five field names.
  - `FormValues`: four strings, plus `hobbies: Option<seq<string>>`, where `None` is an absent hobbies property.
  - `Errors = map<Field, string>`.
  - `ErrorsOf`: the errors record, defined field by field.
  - `Validate`: the source's own shape. It starts from a fresh, empty record and makes five conditional updates in order. Its contract says the result equals `ErrorsOf`.

JavaScript falsiness is modelled exactly:
- A string is falsy only when it is `""`.
- The hobbies array is falsy only when it is absent.
- The hobbies check also fires on length zero.

The validator only tests emptiness:
- A whitespace-only name is truthy, so it passes.
- Country is never compared with the four codes of the dropdown.
- Gender is never compared with male/female/other.
- Hobbies is an array, so the model uses a sequence, which may hold duplicates.

## Model

| member | source | states |
|---|---|---|
| `FormValidation.ErrorsOf` | src/App.js:60-84 | every message in the result is "Required"; `name`, `address`, `country` and `gender` have an entry exactly when that string is empty (whitespace still passes); `hobbies` has one exactly when the list is absent or empty |
| `FormValidation.Validate` | src/App.js:60-84 | a fresh record updated by the five conditional assignments, in the source's order, equals `ErrorsOf` of the input, so the result depends on the input alone |
| `FormValidation.NoErrorsIffComplete` | src/App.js:61-83 | the errors record is empty if and only if all four strings are non-empty and the hobbies list is present and non-empty |
| `FormValidation.AtMostFiveErrors` | src/App.js:61-83 | the keys of the result are among the five field names, so there are at most five errors (this follows from the closed `Field` type) |
| `FormValidation.InitialValuesAllRequired` | src/App.js:89-95 | on the constant `InitialValues` (empty strings, empty hobbies list) all five fields get "Required" and there are exactly five errors |
| `FormValidation.CountryOptionValues` | src/App.js:46-51 | the constant `Countries` has four options, whose values are exactly "us", "ca", "uk" and "au" |
| `FormValidation.HobbyOptionValues` | src/App.js:53-58 | the constant `HobbyChoices` has four options, whose values are exactly "reading", "sports", "music" and "art" |
| `FormValidation.GenderOptionValues` | src/App.js:166-168 | the constant `GenderChoices` has the three radio options, whose values are exactly "male", "female" and "other" |
| `FormValidation.Independence` | src/App.js:63-81 | two inputs that differ in at most one field get the same errors outside that field |
| `FormValidation.ChoicesAreNotChecked` | src/App.js:46-81 | a whitespace name, the country "zz", the gender "unknown" and the hobby "chess" are outside the options, yet that input gets no errors |
| `FormValidation.FilledFormPasses` | src/App.js:46-84 | a form filled in from the options ("Alice", "1 Main St", "us", "female", reading and music) gets no errors |

## Left out

- Form state store: the `useFormik` hook, `handleChange`, `handleBlur`, `handleSubmit`, touched tracking, and the rule that submit is blocked while errors exist (src/App.js:88-100). That behaviour lives in the form-state library, and its code is not part of this model. The repository only passes `validate` to it.
- Error-display gating: the `touched.x && Boolean(errors.x)` expressions. They depend on the library's touched state and are presentation only.
- Rendering: the `Form` component, the JSX controls and `makeStyles` styling (src/App.js:19-44, 102-204). These are UI.
- The submit handler's `alert(JSON.stringify(values, null, 2))`. This is browser I/O and built-in serialisation.
- The `renderValue` callback that joins the selected hobbies with `", "`. This is rendering over the built-in `join`.
- FormValues strings that are `undefined` or `null`, or values of another type. The controls always supply strings, so each string field is a Dafny `string`. Only `hobbies` models absence.
- Option titles serve only as reference data. Only the option values take part in the lemmas.
