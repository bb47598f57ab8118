/**
 * Whole-form scenarios: concrete forms and the errors validation gives
 * them, and event sequences driven through the handlers of Form.
 */
module Scenarios {
  import opened Strings
  import opened Patterns
  import opened FieldRules
  import opened FormState

  /** A completely and correctly filled-in form. */
  function FilledForm(): (v: FormValues)
    ensures IsForm(v)
  {
    var v := map[
      FirstName := Text("Ann"), LastName := Text("Lee"), Email := Text("a@b.com"),
      Phone := Text("1234567890"), Country := Text("USA"), Dob := Text("2000-01-01"),
      Password := Text("abcdefgh"), ConfirmPassword := Text("abcdefgh"), Terms := Flag(true)];
    assert forall f: FieldName :: f in v && WellTyped(f, v[f]) by {
      forall f: FieldName ensures f in v && WellTyped(f, v[f]) {
        FieldsComplete();
        assert f in Fields;
      }
    }
    v
  }

  /** The filled-in form with one field replaced; still a complete form when
      the replacement has the field's kind. */
  function With(f: FieldName, x: Value): (v: FormValues)
    requires WellTyped(f, x)
    ensures IsForm(v) && v[f] == x
    ensures forall g | g != f :: v[g] == FilledForm()[g]
  {
    FilledForm()[f := x]
  }

  lemma EmailExampleAccepted()
    ensures MatchesEmail("a@b.com")
    ensures !MatchesEmail("bad-email")
  {
    var good := "a@b.com";
    assert good[1] == '@' && good[3] == '.';
    assert NoWhitespace(good);
    MatchesEmailIff(good);
    var bad := "bad-email";
    assert forall i | 0 <= i < |bad| :: bad[i] != '@';
    MatchesEmailIff(bad);
  }

  /** Every field's condition holds in the filled-in form. */
  lemma FilledFormAccepted()
    ensures forall f: FieldName :: Accepts(f, FilledForm()[f], FilledForm())
  {
    var v := FilledForm();
    assert !IsWhitespace("Ann"[0]) && !IsWhitespace("Lee"[0]);
    assert "a@b.com"[1] == '@' && "a@b.com"[3] == '.';
    assert EmailShape("a@b.com");
    assert TenDigits("1234567890");
    forall f: FieldName ensures Accepts(f, v[f], v) {
      match f
      case FirstName =>
      case LastName =>
      case Email =>
      case Phone =>
      case Country =>
      case Dob =>
      case Password =>
      case ConfirmPassword =>
      case Terms =>
    }
  }

  /** Every rule accepts the filled-in form, so it can be submitted. */
  lemma FilledFormValid()
    ensures FormErrors(FilledForm()) == map[]
  {
    FilledFormAccepted();
    FormErrorsRejected(FilledForm());
  }

  /** Replacing one field other than the password keeps every other
      field's condition as it was in the filled-in form. */
  lemma OthersStillAccepted(f: FieldName, x: Value)
    requires WellTyped(f, x) && f != Password
    ensures forall g: FieldName | g != f :: Accepts(g, With(f, x)[g], With(f, x))
  {
    FilledFormAccepted();
  }

  /** An address without '@' is the only failure. */
  lemma BadEmailOnlyError()
    ensures FormErrors(With(Email, Text("bad-email"))) == map[Email := "Invalid email address"]
  {
    var v := With(Email, Text("bad-email"));
    OthersStillAccepted(Email, Text("bad-email"));
    EmailExampleAccepted();
    MatchesEmailIff("bad-email");
    SingleFailure(v, Email);
  }

  /** Five digits fail the digits check only. */
  lemma ShortPhoneOnlyError()
    ensures FormErrors(With(Phone, Text("12345"))) == map[Phone := "Phone must be 10 digits"]
  {
    var v := With(Phone, Text("12345"));
    OthersStillAccepted(Phone, Text("12345"));
    assert !IsWhitespace("12345"[0]);
    PhoneRule("12345", v);
    SingleFailure(v, Phone);
  }

  /** A short password that is confirmed correctly: only the password
      reports, since confirmPassword has no length rule. */
  lemma ShortPasswordOnlyError()
    ensures var v := FilledForm()[Password := Text("short")][ConfirmPassword := Text("short")];
      IsForm(v) && FormErrors(v) == map[Password := "Password must be 8+ chars"]
  {
    var v := FilledForm()[Password := Text("short")][ConfirmPassword := Text("short")];
    FilledFormAccepted();
    assert IsForm(v) && forall g: FieldName | g != Password :: Accepts(g, v[g], v) by {
      forall g: FieldName ensures g in v && WellTyped(g, v[g]) {
        if g != Password && g != ConfirmPassword {
          assert v[g] == FilledForm()[g];
        }
      }
      forall g: FieldName | g != Password ensures Accepts(g, v[g], v) {
        if g != ConfirmPassword {
          assert v[g] == FilledForm()[g];
        }
      }
    }
    SingleFailure(v, Password);
  }

  /** confirmPassword against the snapshot's password. */
  lemma ConfirmPasswordAgainstSnapshot()
    ensures ValidateField(ConfirmPassword, Text("x"), FilledForm()[Password := Text("x")]) == ""
    ensures ValidateField(ConfirmPassword, Text("x"), FilledForm()[Password := Text("y")]) == "Passwords do not match"
  {
    var a := FilledForm()[Password := Text("x")];
    var b := FilledForm()[Password := Text("y")];
    assert IsForm(a) && IsForm(b) by {
      forall f: FieldName ensures f in a && WellTyped(f, a[f]) && f in b && WellTyped(f, b[f]) {
        if f != Password {
          assert a[f] == FilledForm()[f] && b[f] == FilledForm()[f];
        }
      }
    }
    ConfirmPasswordRule("x", a);
    ConfirmPasswordRule("x", b);
  }

  // -----------------------------------------------------------------------
  // Event sequences
  // -----------------------------------------------------------------------

  /** Submitting at once: the submit fails, every field is touched and
      carries its "required" message. */
  method SubmitUntouchedForm() returns (ok: bool, errors: ErrorMap, touched: set<FieldName>)
    ensures !ok
    ensures errors == RequiredErrors()
    ensures touched == AllFields()
    ensures forall f: FieldName :: f in errors && errors[f] == RequiredMessage(f)
  {
    var form := new Form();
    ok := form.HandleSubmit();
    errors, touched := form.errors, form.touched;
    FieldsComplete();
  }

  /** Typing an invalid value into a field never blurred shows nothing;
      leaving the field then shows its message. */
  method TypeThenLeave() returns (whileTyping: ErrorMap, afterBlur: ErrorMap)
    ensures whileTyping == map[]
    ensures afterBlur == map[Email := "Invalid email address"]
  {
    var form := new Form();
    var e := Target(Email, "bad-email", false);
    form.HandleChange(e);
    whileTyping := form.errors;
    form.HandleBlur(e);
    afterBlur := form.errors;
    EmailExampleAccepted();
  }

  /** The stale mismatch on the real handlers: confirmPassword is filled in
      and left while the password is still empty, so it shows "Passwords do
      not match"; the password is then left and typed in to equal the
      confirmation. Only the password is revalidated, so the mismatch
      message stays although the confirmPassword rule now passes. */
  method StaleMismatchThroughHandlers() returns (values: FormValues, errors: ErrorMap)
    ensures IsForm(values) && ValidateField(ConfirmPassword, values[ConfirmPassword], values) == ""
    ensures errors == map[ConfirmPassword := "Passwords do not match"]
  {
    var form := new Form();
    var confirm := Target(ConfirmPassword, "abcdefgh", false);
    form.HandleChange(confirm);
    form.HandleBlur(confirm);
    assert form.errors == map[ConfirmPassword := "Passwords do not match"];
    var password := Target(Password, "abcdefgh", false);
    form.HandleBlur(Target(Password, "", false));
    form.HandleChange(password);
    PasswordRule("abcdefgh", form.formData);
    values, errors := form.formData, form.errors;
    ConfirmPasswordRule("abcdefgh", values);
  }
}
