/** `validateForm` and the payload `handleSaveUser` builds from the form (assets/js/main.js). */
module Form {
  import opened Text
  import opened Validator

  /** The form controls as the handlers read them: the two names and the gender as typed or
      selected, the balance as `parseFloat` returned it, and the active checkbox. */
  datatype FormInput = FormInput(
    firstName: string,
    lastName: string,
    gender: string,
    balance: Number,
    isActive: bool)

  /** The fields in the order `validateForm` checks them. */
  datatype Field = FirstName | LastName | Gender | Balance

  /** The check applied to one field: the names are trimmed before `checkString`, the gender
      is passed as selected, the balance goes to `checkInt`. */
  predicate FieldValid(form: FormInput, f: Field) {
    match f
    case FirstName => CheckString(Str(Trim(form.firstName)))
    case LastName => CheckString(Str(Trim(form.lastName)))
    case Gender => CheckString(Str(form.gender))
    case Balance => CheckInt(form.balance)
  }

  datatype Validation = Valid | Invalid(field: Field)

  /** `validateForm`: the first field, in form order, that fails its check, or `Valid` when
      all four pass. */
  function ValidateForm(form: FormInput): (v: Validation)
    ensures v.Valid? <==> forall f: Field :: FieldValid(form, f)
    ensures v.Invalid? ==> !FieldValid(form, v.field)
    ensures v.Invalid? && v.field != FirstName ==> FieldValid(form, FirstName)
    ensures v.Invalid? && (v.field == Gender || v.field == Balance) ==> FieldValid(form, LastName)
    ensures v == Invalid(Balance) ==> FieldValid(form, Gender)
  {
    if !FieldValid(form, FirstName) then Invalid(FirstName)
    else if !FieldValid(form, LastName) then Invalid(LastName)
    else if !FieldValid(form, Gender) then Invalid(Gender)
    else if !FieldValid(form, Balance) then Invalid(Balance)
    else
      AllFieldsValid(form);
      Valid
  }

  lemma AllFieldsValid(form: FormInput)
    requires FieldValid(form, FirstName) && FieldValid(form, LastName)
    requires FieldValid(form, Gender) && FieldValid(form, Balance)
    ensures forall f: Field :: FieldValid(form, f)
  {
    forall f: Field ensures FieldValid(form, f) {
      match f
      case FirstName =>
      case LastName =>
      case Gender =>
      case Balance =>
    }
  }

  /** The error toast `validateForm` shows for the failing field. */
  function FieldMessage(f: Field): string {
    match f
    case FirstName => "Please enter a valid first name"
    case LastName => "Please enter a valid last name"
    case Gender => "Please select a gender"
    case Balance => "Please enter a valid positive balance (whole number)"
  }

  /** Each failing field has its own message, so the toast tells the user which one failed. */
  lemma FieldMessagesDistinct(f: Field, g: Field)
    requires f != g
    ensures FieldMessage(f) != FieldMessage(g)
  {
  }

  /** A blank or whitespace-only first name is reported before anything else is looked at. */
  lemma BlankFirstNameRejected(form: FormInput)
    requires AllSpace(form.firstName)
    ensures ValidateForm(form) == Invalid(FirstName)
  {
    TrimEmptyIff(form.firstName);
  }

  /** A gender made only of whitespace is rejected although the gender is not trimmed. */
  lemma BlankGenderRejected(form: FormInput)
    requires FieldValid(form, FirstName) && FieldValid(form, LastName)
    requires AllSpace(form.gender)
    ensures ValidateForm(form) == Invalid(Gender)
  {
  }

  /** The record `handleSaveUser` sends to the API. */
  datatype UserData = UserData(
    firstName: string,
    lastName: string,
    gender: string,
    balance: real,
    isActive: bool)

  predicate IsTrimmedNonEmpty(s: string) {
    s != [] && !IsSpace(s[0]) && !IsSpace(s[|s| - 1])
  }

  /** A name whose trimmed form passes `checkString` is sent non-empty and trimmed. */
  lemma AcceptedNameIsTrimmed(name: string)
    requires CheckString(Str(Trim(name)))
    ensures IsTrimmedNonEmpty(Trim(name))
  {
    var t := Trim(name);
    assert t != [];
  }

  /** `userData` in `handleSaveUser`, built only after `validateForm` passed: the form's
      names trimmed, hence non-empty and without surrounding whitespace, a gender holding a
      visible character, a whole non-negative balance. */
  function Payload(form: FormInput): (d: UserData)
    requires ValidateForm(form).Valid?
    ensures d.firstName == Trim(form.firstName) && d.lastName == Trim(form.lastName)
    ensures IsTrimmedNonEmpty(d.firstName) && IsTrimmedNonEmpty(d.lastName)
    ensures d.gender == form.gender && exists i :: 0 <= i < |d.gender| && !IsSpace(d.gender[i])
    ensures IsWhole(d.balance) && d.balance >= 0.0 && form.balance == Finite(d.balance)
    ensures d.isActive == form.isActive
  {
    var v := ValidateForm(form);
    assert FieldValid(form, FirstName) && FieldValid(form, LastName);
    assert FieldValid(form, Gender) && FieldValid(form, Balance);
    AcceptedNameIsTrimmed(form.firstName);
    AcceptedNameIsTrimmed(form.lastName);
    UserData(Trim(form.firstName), Trim(form.lastName), form.gender, form.balance.value, form.isActive)
  }
}
