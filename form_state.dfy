/**
 * The form's state and its event handlers: the stored values, the error
 * messages and the set of touched fields, updated by change, blur and
 * submit, with whole-form validation deciding whether a submit succeeds.
 */
module FormState {
  import opened FieldRules

  /** The error messages by field. A field set to undefined and a field that
      is absent are the same: not in the map. */
  type ErrorMap = map<FieldName, string>

  /** No field carries an empty message. */
  predicate NoEmptyMessage(errors: ErrorMap) {
    forall f | f in errors :: errors[f] != ""
  }

  /** `{ ...errors, [name]: msg || undefined }`: the field's entry becomes
      msg, or disappears when msg is empty; every other entry is kept. */
  function SetError(errors: ErrorMap, name: FieldName, msg: string): (r: ErrorMap)
    ensures name in r <==> msg != ""
    ensures name in r ==> r[name] == msg
    ensures forall g | g != name :: (g in r <==> g in errors) && (g in r ==> r[g] == errors[g])
  {
    if msg == "" then errors - {name} else errors[name := msg]
  }

  /** What whole-form validation stores: exactly the fields whose rule
      fails on the given values, each with its message. */
  function FormErrors(values: FormValues): ErrorMap
    requires IsForm(values)
  {
    map f | f in values && ValidateField(f, values[f], values) != "" :: ValidateField(f, values[f], values)
  }

  /** Every field is considered: a field is in FormErrors exactly when its
      rule reports, and with the message it reports. */
  lemma FormErrorsMeaning(values: FormValues)
    requires IsForm(values)
    ensures forall f: FieldName :: f in FormErrors(values) <==> ValidateField(f, values[f], values) != ""
    ensures forall f | f in FormErrors(values) :: FormErrors(values)[f] == ValidateField(f, values[f], values)
    ensures NoEmptyMessage(FormErrors(values))
  {
  }

  /** The errors the forEach of validateForm has collected after visiting
      the keys `keys`, in order. */
  function ErrorsOver(values: FormValues, keys: seq<FieldName>): ErrorMap
    requires IsForm(values)
  {
    if keys == [] then map[]
    else
      var key := keys[|keys| - 1];
      var msg := ValidateField(key, values[key], values);
      var collected := ErrorsOver(values, keys[..|keys| - 1]);
      if msg != "" then collected[key := msg] else collected
  }

  /** Visiting one more key adds that key's message, if it has one. */
  lemma ErrorsOverStep(values: FormValues, keys: seq<FieldName>, i: nat)
    requires IsForm(values) && i < |keys|
    ensures var msg := ValidateField(keys[i], values[keys[i]], values);
      ErrorsOver(values, keys[..i + 1])
        == if msg != "" then ErrorsOver(values, keys[..i])[keys[i] := msg] else ErrorsOver(values, keys[..i])
  {
    assert keys[..i + 1][..i] == keys[..i];
  }

  /** The collected errors are exactly the visited fields with a message,
      each with its message, whatever the order of visiting. */
  lemma {:induction false} ErrorsOverMeaning(values: FormValues, keys: seq<FieldName>)
    requires IsForm(values)
    ensures forall f :: f in ErrorsOver(values, keys) <==> f in keys && ValidateField(f, values[f], values) != ""
    ensures forall f | f in ErrorsOver(values, keys) :: ErrorsOver(values, keys)[f] == ValidateField(f, values[f], values)
  {
    if keys != [] {
      var init := keys[..|keys| - 1];
      ErrorsOverMeaning(values, init);
      assert keys == init + [keys[|keys| - 1]];
    }
  }

  /** Visiting every field, in any order, collects FormErrors. */
  lemma ErrorsOverEveryField(values: FormValues, keys: seq<FieldName>, collected: ErrorMap)
    requires IsForm(values)
    requires forall f: FieldName :: f in keys
    requires collected == ErrorsOver(values, keys)
    ensures collected == FormErrors(values) && NoEmptyMessage(collected)
  {
    ErrorsOverMeaning(values, keys);
  }

  /** Every field with its "required" message. */
  function RequiredErrors(): ErrorMap {
    map f | f in Fields :: RequiredMessage(f)
  }

  /** All nine fields, as submit marks them touched. */
  function AllFields(): (all: set<FieldName>)
    ensures forall f: FieldName :: f in all
  {
    FieldsComplete();
    set f | f in Fields
  }

  /** The target of a change or blur event: the input's name, its text and,
      for the checkbox, whether it is checked. */
  datatype Target = Target(name: FieldName, value: string, checked: bool)

  /** `type === "checkbox" ? checked : value`. */
  function EventValue(t: Target): (v: Value)
    ensures WellTyped(t.name, v)
    ensures v == Flag(t.checked) || v == Text(t.value)
  {
    if IsCheckbox(t.name) then Flag(t.checked) else Text(t.value)
  }

  class Form {
    var formData: FormValues
    var errors: ErrorMap
    var touched: set<FieldName>

    /** The values are a complete form, no stored message is empty, and an
        error is only ever recorded for a touched field. */
    ghost predicate Valid()
      reads this
    {
      IsForm(formData) && NoEmptyMessage(errors) && errors.Keys <= touched
    }

    /** The state at mount: the initial form, no errors, nothing touched. */
    constructor ()
      ensures Valid()
      ensures formData == InitialForm && errors == map[] && touched == {}
    {
      InitialFormIsForm();
      formData := InitialForm;
      errors := map[];
      touched := {};
    }

    /** validateForm: validates every field against the stored values,
        replaces the errors wholesale, and reports whether none failed.
        The values are not changed, so a second call stores the same map.
        Its one caller, handleSubmit, touches every field first, and from
        there the new state is valid. */
    method ValidateForm() returns (ok: bool)
      requires IsForm(formData)
      modifies this`errors
      ensures errors == FormErrors(formData)
      ensures NoEmptyMessage(errors)
      ensures ok <==> errors == map[]
      ensures touched == AllFields() ==> Valid()
    {
      var keys := Fields;
      var nextErrors: ErrorMap := map[];
      for i := 0 to |keys|
        invariant nextErrors == ErrorsOver(formData, keys[..i])
      {
        var key := keys[i];
        var msg := ValidateField(key, formData[key], formData);
        ErrorsOverStep(formData, keys, i);
        if msg != "" {
          nextErrors := nextErrors[key := msg];
        }
      }
      assert keys[..|keys|] == keys;
      FieldsComplete();
      ErrorsOverEveryField(formData, keys, nextErrors);
      errors := nextErrors;
      // Object.keys(nextErrors).length === 0
      ok := nextErrors == map[];
    }

    /** handleChange: stores the event's value for its field. A touched
        field is revalidated at once against the updated values; an
        untouched one keeps its errors as they were. */
    method HandleChange(e: Target)
      requires Valid()
      modifies this`formData, this`errors
      ensures Valid()
      ensures formData == old(formData)[e.name := EventValue(e)]
      ensures e.name !in touched ==> errors == old(errors)
      ensures e.name in touched ==>
        errors == SetError(old(errors), e.name, ValidateField(e.name, EventValue(e), formData))
    {
      var newValue := EventValue(e);
      var updated := formData[e.name := newValue];
      formData := updated;
      if e.name in touched {
        var msg := ValidateField(e.name, newValue, updated);
        errors := SetError(errors, e.name, msg);
      }
    }

    /** handleBlur: marks the field touched and revalidates it, from the
        event's value and the stored values; the values are not changed. */
    method HandleBlur(e: Target)
      requires Valid()
      modifies this`touched, this`errors
      ensures Valid()
      ensures touched == old(touched) + {e.name}
      ensures errors == SetError(old(errors), e.name, ValidateField(e.name, EventValue(e), formData))
    {
      var val := EventValue(e);
      touched := touched + {e.name};
      var msg := ValidateField(e.name, val, formData);
      errors := SetError(errors, e.name, msg);
    }

    /** handleSubmit: marks every field touched and validates the whole
        form. On success everything returns to the state at mount; on
        failure the values stay and every failing field shows its message. */
    method HandleSubmit() returns (ok: bool)
      requires Valid()
      modifies this
      ensures Valid()
      ensures ok <==> FormErrors(old(formData)) == map[]
      ensures ok ==> formData == InitialForm && errors == map[] && touched == {}
      ensures !ok ==> formData == old(formData) && errors == FormErrors(formData) && touched == AllFields()
      ensures old(formData) == InitialForm ==> !ok && errors == RequiredErrors()
    {
      touched := AllFields();
      ok := ValidateForm();
      if ok {
        InitialFormIsForm();
        formData := InitialForm;
        errors := map[];
        touched := {};
      } else {
        FieldsComplete();
      }
      if old(formData) == InitialForm {
        InitialFormErrors();
      }
      FormErrorsMeaning(old(formData));
    }
  }

  // -----------------------------------------------------------------------
  // Properties of whole-form validation and of the error updates
  // -----------------------------------------------------------------------

  /** The form can be submitted exactly when every field passes its rule. */
  lemma SubmittableIff(values: FormValues)
    requires IsForm(values)
    ensures FormErrors(values) == map[] <==> forall f: FieldName :: ValidateField(f, values[f], values) == ""
  {
    FormErrorsMeaning(values);
    if FormErrors(values) != map[] {
      var f :| f in FormErrors(values);
      assert ValidateField(f, values[f], values) != "";
    }
  }

  /** The fields whole-form validation reports are exactly those whose
      condition fails, so the form can be submitted exactly when every
      field's condition holds. */
  lemma FormErrorsRejected(values: FormValues)
    requires IsForm(values)
    ensures forall f: FieldName :: f in FormErrors(values) <==> !Accepts(f, values[f], values)
    ensures FormErrors(values) == map[] <==> forall f: FieldName :: Accepts(f, values[f], values)
  {
    forall f: FieldName ensures f in FormErrors(values) <==> !Accepts(f, values[f], values) {
      AcceptsIff(f, values[f], values);
    }
    SubmittableIff(values);
  }

  /** When every field but one passes, whole-form validation reports that
      one field alone, with its message. */
  lemma SingleFailure(values: FormValues, f: FieldName)
    requires IsForm(values)
    requires forall g: FieldName | g != f :: Accepts(g, values[g], values)
    requires !Accepts(f, values[f], values)
    ensures FormErrors(values) == map[f := ValidateField(f, values[f], values)]
  {
    FormErrorsRejected(values);
    FormErrorsMeaning(values);
  }

  /** Validating the initial form reports all nine fields as required. */
  lemma InitialFormErrors()
    ensures IsForm(InitialForm)
    ensures FormErrors(InitialForm) == RequiredErrors()
  {
    InitialFormIsForm();
    FieldsComplete();
    forall f: FieldName
      ensures ValidateField(f, InitialForm[f], InitialForm) == RequiredMessage(f)
    {
      EmptyIsRequired(f, InitialForm);
      MessagesNonEmpty(f);
    }
    var req := RequiredErrors();
    forall f: FieldName ensures f in req && req[f] == RequiredMessage(f) {
      assert f in Fields;
    }
    assert FormErrors(InitialForm) == req;
  }

  /** Setting the same message twice is setting it once, so a repeated blur
      with the same value changes nothing. */
  lemma SetErrorIdempotent(errors: ErrorMap, name: FieldName, msg: string)
    ensures SetError(SetError(errors, name, msg), name, msg) == SetError(errors, name, msg)
  {
  }

  /** Storing a rule's result keeps every stored message non-empty. */
  lemma SetErrorKeepsNonEmpty(errors: ErrorMap, name: FieldName, msg: string)
    requires NoEmptyMessage(errors)
    ensures NoEmptyMessage(SetError(errors, name, msg))
    ensures SetError(errors, name, msg).Keys <= errors.Keys + {name}
  {
  }

  /** A change of password does not revalidate confirmPassword: with both
      fields touched, the "Passwords do not match" message survives a change
      that makes the two equal. */
  lemma StaleConfirmPasswordError(values: FormValues, errors: ErrorMap)
    requires IsForm(values)
    requires values[ConfirmPassword] == Text("abcdefgh")
    requires errors == map[ConfirmPassword := "Passwords do not match"]
    ensures var e := Target(Password, "abcdefgh", false);
      var updated := values[Password := EventValue(e)];
      var after := SetError(errors, Password, ValidateField(Password, EventValue(e), updated));
      && IsForm(updated)
      && ValidateField(ConfirmPassword, updated[ConfirmPassword], updated) == ""
      && after[ConfirmPassword] == "Passwords do not match"
  {
    var e := Target(Password, "abcdefgh", false);
    var updated := values[Password := EventValue(e)];
    assert IsForm(updated) by {
      forall f: FieldName ensures f in updated && WellTyped(f, updated[f]) {
        if f != Password {
          assert updated[f] == values[f];
        }
      }
    }
    ConfirmPasswordRule("abcdefgh", updated);
  }
}
