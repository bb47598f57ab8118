/**
 * The registration form's fields, their values, and the per-field rule set
 * of validateField: one rule per field, each a sequence of checks of which
 * the first that fails decides the message, "" meaning valid.
 */
module FieldRules {
  import opened Strings
  import opened Patterns

  datatype Option<T> = None | Some(value: T)

  /** The nine fields of the form. */
  datatype FieldName =
    FirstName | LastName | Email | Phone | Country | Dob | Password | ConfirmPassword | Terms

  /** The fields in the order the initial form declares them, which is the
      order Object.keys gives for the form values. */
  const Fields: seq<FieldName> :=
    [FirstName, LastName, Email, Phone, Country, Dob, Password, ConfirmPassword, Terms]

  /** The property name of the field in the form-values object. */
  function Key(f: FieldName): string {
    match f
    case FirstName => "firstName"
    case LastName => "lastName"
    case Email => "email"
    case Phone => "phone"
    case Country => "country"
    case Dob => "dob"
    case Password => "password"
    case ConfirmPassword => "confirmPassword"
    case Terms => "terms"
  }

  /** The field a property name denotes, if any. */
  function Parse(name: string): (r: Option<FieldName>)
    ensures r.Some? ==> Key(r.value) == name
  {
    if name == "firstName" then Some(FirstName)
    else if name == "lastName" then Some(LastName)
    else if name == "email" then Some(Email)
    else if name == "phone" then Some(Phone)
    else if name == "country" then Some(Country)
    else if name == "dob" then Some(Dob)
    else if name == "password" then Some(Password)
    else if name == "confirmPassword" then Some(ConfirmPassword)
    else if name == "terms" then Some(Terms)
    else None
  }

  /** A stored or submitted value: the text of an input, or the checked
      state of a checkbox. */
  datatype Value = Text(text: string) | Flag(checked: bool)

  /** Only the terms input is a checkbox; every other input yields text. */
  predicate IsCheckbox(f: FieldName) {
    f == Terms
  }

  predicate WellTyped(f: FieldName, v: Value) {
    v.Flag? == IsCheckbox(f)
  }

  /** The form-values object: a value of the right kind for every field. */
  type FormValues = map<FieldName, Value>

  predicate IsForm(m: FormValues) {
    forall f: FieldName :: f in m && WellTyped(f, m[f])
  }

  /** initialForm: empty text everywhere, terms not accepted. */
  const InitialForm: FormValues := map[
    FirstName := Text(""), LastName := Text(""), Email := Text(""),
    Phone := Text(""), Country := Text(""), Dob := Text(""),
    Password := Text(""), ConfirmPassword := Text(""), Terms := Flag(false)]

  // ---------------------------------------------------------------------
  // Messages
  // ---------------------------------------------------------------------

  /** The message of a field's first check: the value is missing. */
  function RequiredMessage(f: FieldName): string {
    match f
    case FirstName => "First name is required"
    case LastName => "Last name is required"
    case Email => "Email ID is required"
    case Phone => "Phone number is required"
    case Country => "Please select country"
    case Dob => "Date of birth required"
    case Password => "Password is required"
    case ConfirmPassword => "Confirm Password is required"
    case Terms => "Accept terms to proceed"
  }

  /** The message of a field's second check, for the fields that have one. */
  function FormatMessage(f: FieldName): Option<string> {
    match f
    case Email => Some("Invalid email address")
    case Phone => Some("Phone must be 10 digits")
    case Password => Some("Password must be 8+ chars")
    case ConfirmPassword => Some("Passwords do not match")
    case _ => None
  }

  /** The minimum password length. */
  const MinPasswordLength := 8

  // ---------------------------------------------------------------------
  // validateField
  // ---------------------------------------------------------------------

  /** The message for `value` in field `name`, "" when it passes every check;
      only the confirmPassword rule looks at the rest of the form. */
  function ValidateField(name: FieldName, value: Value, allValues: FormValues): (msg: string)
    requires WellTyped(name, value) && IsForm(allValues)
    ensures msg == "" || msg == RequiredMessage(name) || FormatMessage(name) == Some(msg)
  {
    match name
    case FirstName =>
      if Trim(value.text) == "" then RequiredMessage(name) else ""
    case LastName =>
      if Trim(value.text) == "" then RequiredMessage(name) else ""
    case Email =>
      if value.text == "" then RequiredMessage(name)
      else if !MatchesEmail(value.text) then FormatMessage(name).value
      else ""
    case Phone =>
      if Trim(value.text) == "" then RequiredMessage(name)
      else if !TenDigits(value.text) then FormatMessage(name).value
      else ""
    case Country =>
      if value.text == "" then RequiredMessage(name) else ""
    case Dob =>
      if value.text == "" then RequiredMessage(name) else ""
    case Password =>
      if value.text == "" then RequiredMessage(name)
      else if |value.text| < MinPasswordLength then FormatMessage(name).value
      else ""
    case ConfirmPassword =>
      if value.text == "" then RequiredMessage(name)
      else if value.text != allValues[Password].text then FormatMessage(name).value
      else ""
    case Terms =>
      if !value.checked then RequiredMessage(name) else ""
  }

  /** The switch on the property name, with its default branch: a name that
      is none of the nine fields is always valid. */
  function ValidateName(name: string, value: Value, allValues: FormValues): (msg: string)
    requires Parse(name).Some? ==> WellTyped(Parse(name).value, value)
    requires IsForm(allValues)
    ensures Parse(name).None? ==> msg == ""
  {
    match Parse(name)
    case None => ""
    case Some(f) => ValidateField(f, value, allValues)
  }

  // ---------------------------------------------------------------------
  // Properties of the form model
  // ---------------------------------------------------------------------

  /** Fields lists every field exactly once. */
  lemma FieldsComplete()
    ensures |Fields| == 9
    ensures forall f: FieldName :: f in Fields
    ensures forall i, j | 0 <= i < j < |Fields| :: Fields[i] != Fields[j]
  {
    forall f: FieldName ensures f in Fields {
      match f
      case FirstName => assert Fields[0] == f;
      case LastName => assert Fields[1] == f;
      case Email => assert Fields[2] == f;
      case Phone => assert Fields[3] == f;
      case Country => assert Fields[4] == f;
      case Dob => assert Fields[5] == f;
      case Password => assert Fields[6] == f;
      case ConfirmPassword => assert Fields[7] == f;
      case Terms => assert Fields[8] == f;
    }
  }

  /** Key and Parse are inverse: every field has its own property name. */
  lemma KeyParse(f: FieldName, name: string)
    ensures Parse(Key(f)) == Some(f)
    ensures Parse(name) == Some(f) <==> Key(f) == name
  {
  }

  lemma InitialFormIsForm()
    ensures IsForm(InitialForm)
    ensures forall f | f != Terms :: InitialForm[f] == Text("")
    ensures InitialForm[Terms] == Flag(false)
  {
    forall f: FieldName ensures f in InitialForm && WellTyped(f, InitialForm[f]) {
      match f
      case FirstName =>
      case LastName =>
      case Email =>
      case Phone =>
      case Country =>
      case Dob =>
      case Password =>
      case ConfirmPassword =>
      case Terms =>
    }
  }

  /** Every message is non-empty, so `msg || undefined` stores no empty message. */
  lemma MessagesNonEmpty(f: FieldName)
    ensures RequiredMessage(f) != ""
    ensures FormatMessage(f).Some? ==> FormatMessage(f).value != ""
    ensures FormatMessage(f) != Some(RequiredMessage(f))
  {
  }

  // ---------------------------------------------------------------------
  // The rules, field by field
  // ---------------------------------------------------------------------

  /** firstName and lastName: required iff empty or all whitespace. */
  lemma NameRule(f: FieldName, s: string, all: FormValues)
    requires f == FirstName || f == LastName
    requires IsForm(all)
    ensures ValidateField(f, Text(s), all) == if AllWhitespace(s) then RequiredMessage(f) else ""
  {
    TrimEmptyIff(s);
  }

  /** email: required iff empty; otherwise valid iff it has the shape of the
      expression, so a whitespace-only value is an invalid address. */
  lemma EmailRule(s: string, all: FormValues)
    requires IsForm(all)
    ensures s == "" ==> ValidateField(Email, Text(s), all) == "Email ID is required"
    ensures s != "" ==>
      ValidateField(Email, Text(s), all) == if EmailShape(s) then "" else "Invalid email address"
    ensures s != "" && AllWhitespace(s) ==> ValidateField(Email, Text(s), all) == "Invalid email address"
  {
    MatchesEmailIff(s);
    if s != "" && AllWhitespace(s) {
      assert IsWhitespace(s[0]);
    }
  }

  /** phone: required iff empty or all whitespace; otherwise valid iff the
      value itself, untrimmed, is exactly ten digits. */
  lemma PhoneRule(s: string, all: FormValues)
    requires IsForm(all)
    ensures AllWhitespace(s) ==> ValidateField(Phone, Text(s), all) == "Phone number is required"
    ensures !AllWhitespace(s) ==>
      ValidateField(Phone, Text(s), all) == if TenDigits(s) then "" else "Phone must be 10 digits"
  {
    TrimEmptyIff(s);
  }

  /** Ten digits padded with a space pass the required check but not the
      digits check: the digits check sees the untrimmed value. */
  lemma PaddedPhoneRejected(digits: string, all: FormValues)
    requires TenDigits(digits)
    requires IsForm(all)
    ensures ValidateField(Phone, Text(" " + digits), all) == "Phone must be 10 digits"
    ensures ValidateField(Phone, Text(digits + " "), all) == "Phone must be 10 digits"
  {
    assert !IsWhitespace(digits[0]);
    assert (" " + digits)[1] == digits[0];
    PhoneRule(" " + digits, all);
    assert (digits + " ")[0] == digits[0];
    PhoneRule(digits + " ", all);
  }

  /** country and dob: required iff empty (no trimming). */
  lemma NonEmptyRule(f: FieldName, s: string, all: FormValues)
    requires f == Country || f == Dob
    requires IsForm(all)
    ensures ValidateField(f, Text(s), all) == if s == "" then RequiredMessage(f) else ""
  {
  }

  /** password: valid iff non-empty and at least eight characters long. */
  lemma PasswordRule(s: string, all: FormValues)
    requires IsForm(all)
    ensures ValidateField(Password, Text(s), all) ==
      if s == "" then "Password is required"
      else if |s| < 8 then "Password must be 8+ chars"
      else ""
    ensures ValidateField(Password, Text(s), all) == "" <==> |s| >= 8
  {
  }

  /** confirmPassword: valid iff non-empty and equal to the password of the
      snapshot; it has no length rule of its own. */
  lemma ConfirmPasswordRule(s: string, all: FormValues)
    requires IsForm(all)
    ensures ValidateField(ConfirmPassword, Text(s), all) ==
      if s == "" then "Confirm Password is required"
      else if s != all[Password].text then "Passwords do not match"
      else ""
    ensures ValidateField(ConfirmPassword, Text(s), all) == "" <==> s != "" && all[Password] == Text(s)
  {
  }

  /** terms: valid iff checked. */
  lemma TermsRule(b: bool, all: FormValues)
    requires IsForm(all)
    ensures ValidateField(Terms, Flag(b), all) == if b then "" else "Accept terms to proceed"
  {
  }

  /** The empty value of every field gets that field's "required" message;
      for terms the failing value is false. */
  lemma EmptyIsRequired(f: FieldName, all: FormValues)
    requires IsForm(all)
    ensures ValidateField(f, if IsCheckbox(f) then Flag(false) else Text(""), all) == RequiredMessage(f)
  {
    match f
    case FirstName => TrimEmptyIff("");
    case LastName => TrimEmptyIff("");
    case Phone => TrimEmptyIff("");
    case _ =>
  }

  /** The condition each rule checks, stated on the field's own terms: the
      rule reports nothing exactly when it holds. */
  predicate Accepts(name: FieldName, value: Value, allValues: FormValues)
    requires WellTyped(name, value) && IsForm(allValues)
  {
    match name
    case FirstName => !AllWhitespace(value.text)
    case LastName => !AllWhitespace(value.text)
    case Email => EmailShape(value.text)
    case Phone => TenDigits(value.text)
    case Country => value.text != ""
    case Dob => value.text != ""
    case Password => |value.text| >= MinPasswordLength
    case ConfirmPassword => value.text != "" && value.text == allValues[Password].text
    case Terms => value.checked
  }

  lemma AcceptsIff(name: FieldName, value: Value, allValues: FormValues)
    requires WellTyped(name, value) && IsForm(allValues)
    ensures ValidateField(name, value, allValues) == "" <==> Accepts(name, value, allValues)
  {
    match name
    case FirstName => NameRule(FirstName, value.text, allValues);
    case LastName => NameRule(LastName, value.text, allValues);
    case Email =>
      EmailRule(value.text, allValues);
      if value.text == "" {
        assert !HasTld(value.text);
      }
    case Phone => PhoneRule(value.text, allValues);
    case _ =>
  }

  /** The only dependency between fields: confirmPassword on password. Any
      other field's message ignores the snapshot altogether. */
  lemma OnlyConfirmPasswordReadsSnapshot(f: FieldName, v: Value, a: FormValues, b: FormValues)
    requires WellTyped(f, v) && IsForm(a) && IsForm(b)
    requires f == ConfirmPassword ==> a[Password] == b[Password]
    ensures ValidateField(f, v, a) == ValidateField(f, v, b)
  {
  }

  /** A name outside the nine fields is always valid. */
  lemma UnknownNameValid(name: string, v: Value, all: FormValues)
    requires forall f: FieldName :: Key(f) != name
    requires IsForm(all)
    ensures ValidateName(name, v, all) == ""
  {
  }

  /** The property name of a field selects that field's rule. */
  lemma KnownNameSelectsRule(f: FieldName, v: Value, all: FormValues)
    requires WellTyped(f, v) && IsForm(all)
    ensures ValidateName(Key(f), v, all) == ValidateField(f, v, all)
  {
    KeyParse(f, Key(f));
  }
}
