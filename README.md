# Registration form validation engine, in Dafny

This project models the validation engine of a client-side registration
form (`src/App.jsx`), then proves properties of the model. The form has nine
fields: first name, last name, e-mail, phone, country, date of birth,
password, password confirmation and a terms checkbox. The engine has two
parts:

- **The field rules** (`validateField`). Each rule is a chain of checks,
  and the first check that fails decides the message. `""` means the value
  is valid. Only the confirmPassword rule reads another field: the
  snapshot's password.
- **The form state.** It holds three pieces of state: `formData` (the
  values), `errors` (messages by field) and `touched` (the fields the user
  has left at least once). Three event handlers update it, and one
  helper serves the submit handler:
  - `handleChange` stores a value. It revalidates the field only if the field is already touched.
  - `handleBlur` marks the field touched and revalidates it.
  - `handleSubmit` touches everything and validates. On success it resets the form.
  - `validateForm`, called only from `handleSubmit`, validates the whole form and replaces `errors`.

Modules, one file each:

- `strings.dfy`, module `Strings`: the whitespace class. `String.prototype.trim` and the
  regular-expression class `\s` use the same set: ECMAScript WhiteSpace plus
  LineTerminator. The file also has `trim`, built from a start trim and an end trim.
- `patterns.dfy`, module `Patterns`: the two regular expressions.
  - `/^\d{10}$/` is the predicate `TenDigits`.
  - `/^\S+@\S+\.\S+$/` is the declarative predicate `EmailShape`. It also
    appears as `Scan`/`MatchesEmail`, a deterministic scanner for the same
    language, and a lemma proves the two accept the same strings.
- `field_rules.dfy`, module `FieldRules`: the `FieldName` datatype, values
  (`Text` or `Flag`), the form-values map, `initialForm`, the messages,
  `validateField` and the string-keyed switch with its default branch. It
  also states each rule as a lemma and gives a reference predicate
  `Accepts` for what each rule checks.
- `form_state.dfy`, module `FormState`. The class `Form` has the fields
  `formData`, `errors` and `touched`, and its methods are the three
  handlers and `validateForm`. `FormErrors` specifies what whole-form validation stores, and
  `SetError` specifies the `msg || undefined` update. `Form.Valid()` is the
  invariant that `HandleChange`, `HandleBlur` and `HandleSubmit` keep: the values form a complete form, no
  message is empty, and only touched fields have errors.
- `scenarios.dfy`, module `Scenarios`: concrete whole forms and their
  errors, and event sequences driven through `Form`.

`errors` sets a field to `undefined` rather than deleting it. The model
treats an undefined entry and a missing entry alike: `errors` maps a field
to a non-empty message, and a field that has no message is not in the map.

Two properties of the code are worth stating outright:

- `errors` can hold an entry for a field whose rule now passes. Changing the
  password revalidates only the password, so a "Passwords do not match"
  message on a touched confirmPassword field stays after the two passwords
  become equal. `FormState.StaleConfirmPasswordError` proves this for the
  update itself, and `Scenarios.StaleMismatchThroughHandlers` drives it
  through the handlers.
- The markup shows every entry of `errors`, without looking at `touched`.
  The model proves `errors.Keys <= touched` (part of `Form.Valid()`), so
  every message shown belongs to a touched field.

## Model

| member | source | states |
|---|---|---|
| Strings.Trim | src/App.jsx:24 | defines `String.prototype.trim`: the start trim, then the end trim, each dropping whitespace characters of the ECMAScript set; also used at lines 27 and 34 |
| Strings.TrimStartShape | src/App.jsx:24 | the start trim of `trim()` leaves a suffix that does not start with whitespace, and everything it drops is whitespace |
| Strings.TrimEndShape | src/App.jsx:24 | the end trim leaves a prefix that does not end with whitespace, and everything it drops is whitespace |
| Strings.TrimEmptyIff | src/App.jsx:24 | `!value.trim()` holds exactly when the value is empty or all whitespace |
| Strings.TrimEnds | src/App.jsx:34 | a trimmed value neither starts nor ends with whitespace, and a value without whitespace at its ends is left as it is |
| Patterns.TenDigits | src/App.jsx:35 | defines `/^\d{10}$/.test`: exactly ten characters, each an ASCII digit (no `u` flag, so `\d` is `[0-9]`) |
| Patterns.Scan | src/App.jsx:31 | defines the deterministic scanner for `\S+@\S+\.\S+`: the state reached after reading the whole input, one character at a time |
| Patterns.MatchesEmail | src/App.jsx:31 | defines `/^\S+@\S+\.\S+$/.test` as the scanner ending in its accepting state; `MatchesEmailIff` states what that means |
| Patterns.ScanMeaning | src/App.jsx:31 | each state of the e-mail scanner means a stated condition on the input read so far: whitespace was seen, or how much of `\S+@\S+\.\S+` the input can reach |
| Patterns.MatchesEmailIff | src/App.jsx:31 | the scanner accepts a string exactly when it has no whitespace, and has a non-empty part before an `@`, a non-empty part between that `@` and a later `.`, and a non-empty part after the `.` |
| FieldRules.Parse | src/App.jsx:22 | the switch selects a field only for that field's own property name |
| FieldRules.KeyParse | src/App.jsx:22-53 | every field's property name selects that field and no other |
| FieldRules.ValidateField | src/App.jsx:21-57 | the message is `""`, the field's "required" message, or the field's second message; the other field rules' lemmas below pin it down field by field |
| FieldRules.ValidateName | src/App.jsx:54-55 | a name that is none of the nine fields falls to the default branch and gets `""` |
| FieldRules.UnknownNameValid | src/App.jsx:54-55 | every name different from all nine property names is valid |
| FieldRules.KnownNameSelectsRule | src/App.jsx:22-53 | a field's property name runs exactly that field's rule |
| FieldRules.FieldsComplete | src/App.jsx:4-14 | the key order of `initialForm` lists each of the nine fields exactly once |
| FieldRules.InitialForm | src/App.jsx:4-14 | defines `initialForm`: `""` for the eight text fields and `false` for terms |
| FieldRules.InitialFormIsForm | src/App.jsx:4-14 | `initialForm` is a complete form: empty text for the eight text fields and `false` for terms |
| FieldRules.MessagesNonEmpty | src/App.jsx:24-52 | every message is non-empty, so `msg \|\| undefined` never stores an empty message, and a field's two messages differ |
| FieldRules.NameRule | src/App.jsx:23-28 | firstName and lastName give their "required" message exactly when the value is empty or all whitespace, and `""` otherwise |
| FieldRules.EmailRule | src/App.jsx:29-32 | empty gives "Email ID is required". A non-empty value gives `""` exactly when it has the shape of the expression, and "Invalid email address" otherwise, including a whitespace-only value |
| FieldRules.PhoneRule | src/App.jsx:33-36 | empty or all-whitespace gives "Phone number is required". Otherwise the value gives `""` exactly when the untrimmed value is ten ASCII digits, and "Phone must be 10 digits" when it is not |
| FieldRules.PaddedPhoneRejected | src/App.jsx:34-35 | ten digits with a leading or trailing space pass the required check and fail the digits check |
| FieldRules.NonEmptyRule | src/App.jsx:37-42 | country and dob are required exactly when empty, with no trimming |
| FieldRules.PasswordRule | src/App.jsx:43-46 | checks in order: empty, then shorter than 8; valid exactly when the length is at least 8 |
| FieldRules.ConfirmPasswordRule | src/App.jsx:47-50 | checks in order: empty, then different from the snapshot's password; valid exactly when non-empty and equal to it, with no length rule |
| FieldRules.TermsRule | src/App.jsx:51-53 | terms is valid exactly when checked |
| FieldRules.EmptyIsRequired | src/App.jsx:21-57 | the empty value of every field, and `false` for terms, gets that field's "required" message |
| FieldRules.AcceptsIff | src/App.jsx:21-57 | a rule reports nothing exactly when the field's own condition holds: not blank, e-mail shape, ten digits, non-empty, 8+ characters, equal to the password, checked |
| FieldRules.OnlyConfirmPasswordReadsSnapshot | src/App.jsx:47-50 | no rule reads the snapshot except confirmPassword, and that rule reads only the snapshot's password |
| FormState.SetError | src/App.jsx:77 | `{...prev, [name]: msg \|\| undefined}`: the field takes the message or loses its entry when the message is empty, and every other entry is kept |
| FormState.SetErrorIdempotent | src/App.jsx:86 | a second identical blur update changes nothing |
| FormState.SetErrorKeepsNonEmpty | src/App.jsx:86 | the update keeps every stored message non-empty and adds no field other than its own |
| FormState.EventValue | src/App.jsx:71 | `type === "checkbox" ? checked : value`: the checkbox yields its checked state and every other input its text, always of the field's kind |
| FormState.FormErrors | src/App.jsx:59-64 | defines what whole-form validation collects: every field of the values whose rule reports, mapped to its message |
| FormState.ErrorsOver | src/App.jsx:61-64 | defines the `forEach` over a key sequence: the errors collected after visiting those keys in order |
| FormState.FormErrorsMeaning | src/App.jsx:59-64 | whole-form validation stores each field whose rule reports, with that message, and no other field |
| FormState.ErrorsOverStep | src/App.jsx:61-64 | one more key visited by the `forEach` adds that key's message if it has one |
| FormState.ErrorsOverMeaning | src/App.jsx:61-64 | after any sequence of visited keys, the collected errors are exactly the visited fields that have a message, with those messages |
| FormState.ErrorsOverEveryField | src/App.jsx:61-65 | visiting every field, in any order, collects exactly `FormErrors` |
| FormState.AllFields | src/App.jsx:91-101 | submit touches every one of the nine fields |
| FormState.Form.constructor | src/App.jsx:17-19 | the state at mount: `initialForm`, no errors, nothing touched |
| FormState.Form.ValidateForm | src/App.jsx:59-67 | `errors` becomes `FormErrors(formData)`. The result is true exactly when that map is empty. The values are not changed, so a second call stores the same map. Called as `handleSubmit` calls it, with every field touched, the new state is valid |
| FormState.Form.HandleChange | src/App.jsx:69-79 | only the event's field gets the new value. An untouched field leaves `errors` unchanged. A touched field has only its own entry recomputed, against the updated values. `touched` is unchanged |
| FormState.Form.HandleBlur | src/App.jsx:81-87 | the field is added to `touched`, which is idempotent. Only its error entry is recomputed, from the event's value and the stored values. The values are unchanged |
| FormState.Form.HandleSubmit | src/App.jsx:89-109 | the result is true exactly when the form validates cleanly. On success the state returns to that at mount. On failure the values stay, `errors` is `FormErrors`, and all nine fields are touched. From `initialForm` the submit fails with every field's "required" message |
| FormState.SubmittableIff | src/App.jsx:66 | the form is submittable exactly when every field's rule returns `""` |
| FormState.FormErrorsRejected | src/App.jsx:59-66 | the reported fields are exactly those whose condition fails, and the form is submittable exactly when every condition holds |
| FormState.SingleFailure | src/App.jsx:59-66 | when all fields but one pass, validation reports that field alone, with its message |
| FormState.InitialFormErrors | src/App.jsx:89-103 | validating `initialForm` reports all nine fields with their "required" messages |
| FormState.StaleConfirmPasswordError | src/App.jsx:75-78 | a password change that makes the passwords equal still leaves a touched confirmPassword's earlier "Passwords do not match" message in place |
| Scenarios.FilledFormValid | src/App.jsx:59-66 | Ann / Lee / a@b.com / 1234567890 / USA / 2000-01-01 / abcdefgh twice / terms checked validates with no errors |
| Scenarios.BadEmailOnlyError | src/App.jsx:29-32 | the same form with e-mail `bad-email` reports exactly `{email: "Invalid email address"}` |
| Scenarios.ShortPhoneOnlyError | src/App.jsx:33-36 | the same form with phone `12345` reports exactly `{phone: "Phone must be 10 digits"}` |
| Scenarios.ShortPasswordOnlyError | src/App.jsx:43-50 | password and confirmation both `short` report only the password |
| Scenarios.ConfirmPasswordAgainstSnapshot | src/App.jsx:49 | confirmation `x` is valid against password `x` and mismatched against password `y` |
| Scenarios.SubmitUntouchedForm | src/App.jsx:89-103 | submitting a fresh form fails, touches all nine fields and shows every "required" message |
| Scenarios.TypeThenLeave | src/App.jsx:69-87 | typing a bad address into an untouched field records no error, and leaving the field records "Invalid email address" |
| Scenarios.StaleMismatchThroughHandlers | src/App.jsx:69-87 | confirmPassword filled in and left while the password is empty records the mismatch; leaving the password and then typing the same text leaves exactly `{confirmPassword: "Passwords do not match"}`, although that rule now passes |

## Left out

- The JSX render tree, labels, `aria-invalid` and the conditional error spans (src/App.jsx:111-264): presentation only. From the markup the model keeps two facts: only `terms` is a checkbox (src/App.jsx:246), and the handlers are only ever called with one of the nine field names. So the handlers take a `FieldName`. Unknown names appear only in the string-keyed `ValidateName`.
- `alert(...)`, `e.preventDefault()` and the CSS import (src/App.jsx:2, 90, 104): browser side effects. Success is the boolean that `HandleSubmit` returns.
- React's `useState` batching and functional updaters. Each handler is one synchronous transition on a single object. The closure's `formData` and `touched` are taken to be the current state, as they are once the previous event has re-rendered.
- ValidateField: `.length` counts characters (Unicode scalar values), not UTF-16 code units. A password with characters outside the Basic Multilingual Plane is therefore shorter in the model than in JavaScript.
- ValidateField: requires a value of the field's kind, text or boolean. The markup always supplies the right kind (only `terms` is a checkbox), and `EventValue` produces it, so a mismatched value cannot arrive. What the code would do with one (throw on `.trim()` for the names and the phone, judge it by truthiness or `.length` elsewhere) is not modelled.
- The whitespace set is ECMAScript's WhiteSpace and LineTerminator, with Unicode's current space separators as a fixed list. A later change to Unicode's `Zs` category is not modelled.
- The JavaScript regular-expression engine is not modelled. Its backtracking is replaced by the scanner `Scan`, which accepts the same language: `MatchesEmailIff` proves it against the declarative reading.
- Event payloads are taken as given. A browser sanitises the `value` of the `type="email"` and `type="date"` inputs (src/App.jsx:152, 201) before the code reads it, so some values the rules handle, such as `EmailRule`'s whitespace-only address, cannot arrive through those inputs. The model does not restrict the payloads to what a browser sends.
- A full fill-in-then-submit run through nine `HandleChange` calls is not written out as a client method. `Scenarios.FilledFormValid`, together with `HandleSubmit`'s contract, states the same outcome.
