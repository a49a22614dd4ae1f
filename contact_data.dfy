/** The ContactData container: the order form's initial schema, its
    validator, the per-keystroke change handler with its validity
    aggregation, the `formData` payload of `orderHandler`, and the `loading`
    flag. The validator and the aggregation are each given twice: as the
    source writes them (`...AsWritten`) and as evidently intended; the
    container class uses the intended ones. */
module ContactDataForm {
  import opened JsRuntime
  import opened FormSchema

  function TextInput(placeholder: string, rules: RuleSet): Field {
    Field(Input, InputConfig("text", placeholder), "", Some(rules), false, false)
  }

  const RequiredOnly := NoRules.(required := Some(true))

  const ZipCodeRules := RuleSet(Some(true), Some(5), Some(5), None, None)

  const DeliveryOptions := [SelectOption("fastest", "Fastest"), SelectOption("cheapest", "Cheapest")]

  /** The `orderForm` state before any input. */
  function InitialOrderForm(): (form: Form)
    ensures DistinctKeys(form)
  {
    [ ("name", TextInput("Your Name", RequiredOnly)),
      ("street", TextInput("Street", RequiredOnly)),
      ("zipCode", TextInput("ZIP Code", ZipCodeRules)),
      ("country", TextInput("Country", RequiredOnly)),
      ("email", Field(Input, InputConfig("email", "Your E-Mail"), "", Some(RequiredOnly), false, false)),
      ("deliveryMethod", Field(Select, SelectConfig(DeliveryOptions), "fastest", Some(NoRules), true, false)) ]
  }

  /** What `checkValidity` computes as written: the length rules compare
      `value.minLength` and `value.maxLength`, which a string does not have. */
  predicate RulesHoldAsWritten(value: string, rules: RuleSet): (ok: bool)
    ensures ok <==> (TruthyFlag(rules.required) ==> !AllWhitespace(value))
                    && !TruthyNumber(rules.minLength) && !TruthyNumber(rules.maxLength)
  {
    TrimEmptyIffAllWhitespace(value);
    && (TruthyFlag(rules.required) ==> NotBlank(value))
    && (TruthyNumber(rules.minLength) ==> AtLeast(StringProperty(value, "minLength"), rules.minLength.value))
    && (TruthyNumber(rules.maxLength) ==> AtMost(StringProperty(value, "maxLength"), rules.maxLength.value))
  }

  /** What `checkValidity` evidently means: the length rules compare `value.length`. */
  predicate RulesHold(value: string, rules: RuleSet) {
    && (TruthyFlag(rules.required) ==> NotBlank(value))
    && (TruthyNumber(rules.minLength) ==> AtLeast(StringProperty(value, "length"), rules.minLength.value))
    && (TruthyNumber(rules.maxLength) ==> AtMost(StringProperty(value, "length"), rules.maxLength.value))
  }

  /** As written, a truthy `minLength` or `maxLength` rejects every string. */
  lemma LengthRulesRejectAllAsWritten(value: string, rules: RuleSet)
    requires TruthyNumber(rules.minLength) || TruthyNumber(rules.maxLength)
    ensures !RulesHoldAsWritten(value, rules)
  {
  }

  /** So, as written, the ZIP code field can never become valid. */
  lemma ZipCodeNeverValidAsWritten(value: string)
    ensures !RulesHoldAsWritten(value, InitialOrderForm()[2].1.validation.value)
  {
    LengthRulesRejectAllAsWritten(value, ZipCodeRules);
  }

  /** The validator, intended reading: each truthy rule holds, with `required`
      meaning some character is not whitespace and the length rules bounding
      the number of UTF-16 code units. `isEmail` and `isNumeric` are not
      checked by this container. */
  lemma RulesHoldMeaning(value: string, rules: RuleSet)
    ensures RulesHold(value, rules) <==>
      && (TruthyFlag(rules.required) ==> !AllWhitespace(value))
      && (TruthyNumber(rules.minLength) ==> Utf16Length(value) >= rules.minLength.value)
      && (TruthyNumber(rules.maxLength) ==> Utf16Length(value) <= rules.maxLength.value)
  {
    TrimEmptyIffAllWhitespace(value);
  }

  /** `required` rejects the empty and the whitespace-only value, under both
      readings and whatever the other rules say. */
  lemma RequiredRejectsBlank(value: string, rules: RuleSet)
    requires TruthyFlag(rules.required) && AllWhitespace(value)
    ensures !RulesHold(value, rules) && !RulesHoldAsWritten(value, rules)
  {
    TrimEmptyIffAllWhitespace(value);
  }

  /** The empty rule object of `deliveryMethod` accepts every value. */
  lemma NoRulesAcceptEverything(value: string)
    ensures RulesHold(value, NoRules) && RulesHoldAsWritten(value, NoRules)
  {
  }

  /** The ZIP code rules, intended reading: exactly five UTF-16 code units,
      not all blank. */
  lemma ZipCodeRulesMeaning(value: string)
    ensures RulesHold(value, ZipCodeRules) <==> Utf16Length(value) == 5 && !AllWhitespace(value)
  {
    RulesHoldMeaning(value, ZipCodeRules);
  }

  /** For a string of digits the ZIP code rules hold exactly when it has five
      digits; as written they never hold. */
  lemma ZipCodeDigits(value: string)
    requires IsDigits(value)
    ensures RulesHold(value, ZipCodeRules) <==> |value| == 5
    ensures !RulesHoldAsWritten(value, ZipCodeRules)
  {
    Utf16LengthOfBmp(value);
    ZipCodeRulesMeaning(value);
    assert !IsWhitespace(value[0]);
    LengthRulesRejectAllAsWritten(value, ZipCodeRules);
  }

  /** `checkValidity(value, rules)` with the intended length reads: the
      `isValid` accumulator is threaded through one `if` per rule. Missing
      rules make `rules.required` throw. */
  method CheckValidity(value: string, rules: Option<RuleSet>) returns (r: Result<bool>)
    ensures rules.None? ==> r == Failure(TypeError)
    ensures rules.Some? ==> r == Success(RulesHold(value, rules.value))
  {
    if rules.None? {
      return Failure(TypeError);
    }
    var isValid := true;
    if TruthyFlag(rules.value.required) {
      isValid := Trim(value) != "" && isValid;
    }
    if TruthyNumber(rules.value.minLength) {
      isValid := AtLeast(StringProperty(value, "length"), rules.value.minLength.value) && isValid;
    }
    if TruthyNumber(rules.value.maxLength) {
      isValid := AtMost(StringProperty(value, "length"), rules.value.maxLength.value) && isValid;
    }
    return Success(isValid);
  }

  /** Which validator the change handler applies: the one the source writes,
      or the evidently intended one. */
  datatype Reading = AsWritten | Intended

  predicate Validates(reading: Reading, value: string, rules: RuleSet) {
    match reading
    case AsWritten => RulesHoldAsWritten(value, rules)
    case Intended => RulesHold(value, rules)
  }

  /** Every field's `valid` flag agrees with its rules applied to its value. */
  predicate FlagsCurrent(form: Form, reading: Reading) {
    forall i :: 0 <= i < |form| && form[i].1.validation.Some? ==>
      form[i].1.valid == Validates(reading, form[i].1.value, form[i].1.validation.value)
  }

  /** The form `inputChangedHandler` builds for an input event on field `id`:
      a copy in which that one field has the new value, its recomputed
      validity and `touched` set. A missing field, or one without rules,
      makes `checkValidity` throw. */
  function Changed(form: Form, id: string, value: string, reading: Reading): (r: Result<Form>)
    requires DistinctKeys(form)
    ensures r.Failure? <==> Lookup(form, id).None? || Lookup(form, id).value.validation.None?
    ensures r.Success? ==> SameSchema(r.value, form) && DistinctKeys(r.value)
    ensures r.Success? ==>
      var f := Lookup(form, id).value;
      Lookup(r.value, id) == Some(Touched(f, value, Validates(reading, value, f.validation.value)))
    ensures r.Success? ==> forall k :: k != id ==> Lookup(r.value, k) == Lookup(form, k)
  {
    match IndexOf(form, id)
    case None => Failure(TypeError)
    case Some(i) =>
      var f := form[i].1;
      match f.validation
      case None => Failure(TypeError)
      case Some(rules) =>
        var valid := Validates(reading, value, rules);
        var g := Touched(f, value, valid);
        ReplaceChangesOnlyItsKey(form, i, g);
        ReplaceKeepsSchema(form, i, value, valid);
        Success(Replace(form, i, g))
  }

  /** A change keeps every `valid` flag in agreement with its field's rules. */
  lemma ChangedKeepsFlagsCurrent(form: Form, id: string, value: string, reading: Reading)
    requires DistinctKeys(form) && FlagsCurrent(form, reading)
    requires Changed(form, id, value, reading).Success?
    ensures FlagsCurrent(Changed(form, id, value, reading).value, reading)
  {
    var i := IndexOf(form, id).value;
    var r := Changed(form, id, value, reading).value;
    assert r == form[i := (id, Touched(form[i].1, value, Validates(reading, value, form[i].1.validation.value)))];
  }

  /** A change keeps the order form's schema, distinct keys and current flags. */
  lemma ChangedKeepsOrderFormShape(form: Form, id: string, value: string, reading: Reading)
    requires SameSchema(form, InitialOrderForm()) && DistinctKeys(form) && FlagsCurrent(form, reading)
    requires Changed(form, id, value, reading).Success?
    ensures var r := Changed(form, id, value, reading).value;
      SameSchema(r, InitialOrderForm()) && DistinctKeys(r) && FlagsCurrent(r, reading)
  {
    ChangedKeepsFlagsCurrent(form, id, value, reading);
  }

  /** Repeating a change with the same value gives the same form. */
  lemma ChangedIdempotent(form: Form, id: string, value: string, reading: Reading)
    requires DistinctKeys(form) && Changed(form, id, value, reading).Success?
    ensures Changed(Changed(form, id, value, reading).value, id, value, reading) == Changed(form, id, value, reading)
  {
    var r := Changed(form, id, value, reading).value;
    IndexOfSameKeys(r, form, id);
    var i := IndexOf(form, id).value;
    assert r[i].1 == Touched(r[i].1, value, Validates(reading, value, r[i].1.validation.value));
    assert r[i := (id, r[i].1)] == r;
  }

  /** Typing into the ZIP code of the initial form replaces the third field
      with the new value, its validity under the ZIP code rules, and `touched`;
      the other five fields keep their initial descriptors. */
  lemma ChangedZipCode(value: string, reading: Reading)
    ensures var r := Changed(InitialOrderForm(), "zipCode", value, reading);
      && r.Success? && |r.value| == 6
      && r.value[2].1 == Touched(InitialOrderForm()[2].1, value, Validates(reading, value, ZipCodeRules))
      && forall i :: 0 <= i < 6 && i != 2 ==> r.value[i] == InitialOrderForm()[i]
  {
    InitialOrderFormKeys();
    IndexOfDistinct(InitialOrderForm(), 2);
  }

  /** Typing digits into the ZIP code of the initial form marks it touched;
      it becomes valid exactly when there are five digits and the intended
      validator is used. As written it stays invalid ("12345" included). */
  lemma ZipCodeScenario(value: string, reading: Reading)
    requires IsDigits(value)
    ensures var r := Changed(InitialOrderForm(), "zipCode", value, reading);
      && r.Success? && r.value[2].1.value == value && r.value[2].1.touched
      && (r.value[2].1.valid <==> reading == Intended && |value| == 5)
  {
    ChangedZipCode(value, reading);
    ZipCodeDigits(value);
  }

  /** The truthiness of the aggregation as written: the loop reads the key
      "undefined" once per field, so it stays truthy only on an empty form or
      one that has that key. */
  predicate FoldAsWrittenTruthy(form: Form) {
    |form| == 0 || Lookup(form, "undefined").Some?
  }

  /** The aggregation loop as written: it reads `updatedOrderForm[inputIdentifier.valid]`;
      a string has no `valid`, and indexing an object with `undefined` reads
      the key "undefined". The result is tracked by its truthiness. */
  method FormIsValidAsWritten(updatedOrderForm: Form) returns (formIsValid: bool)
    ensures formIsValid <==> FoldAsWrittenTruthy(updatedOrderForm)
  {
    formIsValid := true;
    var i := 0;
    while i < |updatedOrderForm|
      invariant 0 <= i <= |updatedOrderForm|
      invariant formIsValid <==> i == 0 || Lookup(updatedOrderForm, "undefined").Some?
    {
      var read := Lookup(updatedOrderForm, "undefined");
      formIsValid := read.Some? && formIsValid;
      i := i + 1;
    }
  }

  /** As written, the ORDER button stays disabled on every form with the
      order form's fields, whatever their values and flags. */
  lemma OrderButtonNeverEnabledAsWritten(form: Form)
    requires SameSchema(form, InitialOrderForm())
    ensures !FoldAsWrittenTruthy(form)
  {
    IndexOfSameKeys(form, InitialOrderForm(), "undefined");
    assert Keys(InitialOrderForm()) == ["name", "street", "zipCode", "country", "email", "deliveryMethod"];
  }

  /** The aggregation loop as intended: the conjunction of every field's `valid`. */
  method FormIsValid(updatedOrderForm: Form) returns (formIsValid: bool)
    ensures formIsValid <==> AllValid(updatedOrderForm)
  {
    formIsValid := true;
    var i := 0;
    while i < |updatedOrderForm|
      invariant 0 <= i <= |updatedOrderForm|
      invariant formIsValid <==> forall j :: 0 <= j < i ==> updatedOrderForm[j].1.valid
    {
      formIsValid := updatedOrderForm[i].1.valid && formIsValid;
      i := i + 1;
    }
  }

  /** Intended reading: the ORDER button of a form with current flags is
      enabled exactly when the five text fields are not blank and the ZIP code
      is five UTF-16 code units long. */
  lemma OrderFormValidIff(form: Form)
    requires SameSchema(form, InitialOrderForm()) && FlagsCurrent(form, Intended)
    ensures |form| == 6
    ensures AllValid(form) <==>
      (forall i :: 0 <= i < 5 ==> !AllWhitespace(form[i].1.value)) && Utf16Length(form[2].1.value) == 5
  {
    var init := InitialOrderForm();
    assert |form| == |Keys(form)| == |Keys(init)| == 6;
    forall i | 0 <= i < 6
      ensures form[i].1.validation == init[i].1.validation
      ensures form[i].1.valid == RulesHold(form[i].1.value, init[i].1.validation.value)
    {
    }
    forall i | 0 <= i < 5
      ensures form[i].1.valid <==> !AllWhitespace(form[i].1.value) && (i == 2 ==> Utf16Length(form[i].1.value) == 5)
    {
      RulesHoldMeaning(form[i].1.value, init[i].1.validation.value);
    }
    assert form[5].1.valid;
  }

  /** As written, a form whose flags agree with the as-written validator never
      has a valid ZIP code, so not every flag is set. */
  lemma OrderFormNeverValidAsWritten(form: Form)
    requires SameSchema(form, InitialOrderForm()) && FlagsCurrent(form, AsWritten)
    ensures |form| == 6 && !form[2].1.valid && !AllValid(form)
  {
    var init := InitialOrderForm();
    assert |form| == |Keys(form)| == |Keys(init)| == 6;
    assert form[2].1.validation == init[2].1.validation == Some(ZipCodeRules);
    ZipCodeNeverValidAsWritten(form[2].1.value);
  }

  /** The `formData` loop of `orderHandler`: each field id mapped to its value,
      in the form's key order. */
  method OrderFormData(orderForm: Form) returns (formData: Record<string>)
    ensures Keys(formData) == Keys(orderForm)
    ensures forall i :: 0 <= i < |orderForm| ==> formData[i].1 == orderForm[i].1.value
  {
    formData := [];
    var i := 0;
    while i < |orderForm|
      invariant 0 <= i <= |orderForm|
      invariant |formData| == i
      invariant forall j :: 0 <= j < i ==> formData[j] == (orderForm[j].0, orderForm[j].1.value)
    {
      formData := formData + [(orderForm[i].0, orderForm[i].1.value)];
      i := i + 1;
    }
  }

  /** The payload has exactly the form's keys, each holding that field's current value. */
  lemma FormDataLookup(orderForm: Form, formData: Record<string>, id: string)
    requires Keys(formData) == Keys(orderForm)
    requires forall i :: 0 <= i < |orderForm| ==> formData[i].1 == orderForm[i].1.value
    ensures Lookup(formData, id).Some? <==> Lookup(orderForm, id).Some?
    ensures Lookup(formData, id).Some? ==> Lookup(formData, id).value == Lookup(orderForm, id).value.value
  {
    IndexOfSameKeys(formData, orderForm, id);
  }

  lemma InitialOrderFormKeys()
    ensures Keys(InitialOrderForm()) == ["name", "street", "zipCode", "country", "email", "deliveryMethod"]
    ensures DistinctKeys(InitialOrderForm())
  {
    var form := InitialOrderForm();
    assert Keys(form) == ["name", "street", "zipCode", "country", "email", "deliveryMethod"];
  }

  /** The initial form: five empty, invalid, untouched, required text fields,
      and the delivery method preset to "fastest" and valid. */
  lemma InitialOrderFormFields()
    ensures forall i :: 0 <= i < 5 ==>
      var f := InitialOrderForm()[i].1;
      f.value == "" && !f.valid && !f.touched && f.validation.Some? && TruthyFlag(f.validation.value.required)
    ensures InitialOrderForm()[5].1.value == "fastest" && InitialOrderForm()[5].1.valid
  {
  }

  /** The initial `valid` flags are what the validator says of the initial
      values, under either reading, and the initial form is not valid (so
      `formIsValid: false` is consistent with it). */
  lemma InitialOrderFormFlagsCurrent(reading: Reading)
    ensures FlagsCurrent(InitialOrderForm(), reading) && !AllValid(InitialOrderForm())
  {
    InitialOrderFormFields();
    var form := InitialOrderForm();
    assert form[5].1.validation == Some(NoRules);
    EmptyRequiredFlagsCurrent(form, reading);
  }

  /** A form whose first five fields are empty, invalid and required, and
      whose last field has no truthy rule and is valid, has current flags. */
  lemma EmptyRequiredFlagsCurrent(form: Form, reading: Reading)
    requires |form| == 6
    requires forall i :: 0 <= i < 5 ==>
      var f := form[i].1;
      f.value == "" && !f.valid && f.validation.Some? && TruthyFlag(f.validation.value.required)
    requires form[5].1.validation == Some(NoRules) && form[5].1.valid
    ensures FlagsCurrent(form, reading) && !AllValid(form)
  {
    forall i | 0 <= i < |form| && form[i].1.validation.Some?
      ensures form[i].1.valid == Validates(reading, form[i].1.value, form[i].1.validation.value)
    {
      if i < 5 {
        RequiredRejectsBlank(form[i].1.value, form[i].1.validation.value);
      } else {
        NoRulesAcceptEverything(form[i].1.value);
      }
    }
    assert !form[0].1.valid;
  }

  /** The ContactData component's state. */
  class ContactData {
    var orderForm: Form
    var loading: bool
    var formIsValid: bool

    /** The schema never changes, every `valid` flag is current, and the ORDER
        button's `formIsValid` is the conjunction of the flags. */
    ghost predicate Valid()
      reads this
    {
      && SameSchema(orderForm, InitialOrderForm())
      && DistinctKeys(orderForm)
      && FlagsCurrent(orderForm, Intended)
      && formIsValid == AllValid(orderForm)
    }

    constructor ()
      ensures Valid()
      ensures orderForm == InitialOrderForm() && !loading && !formIsValid
    {
      InitialOrderFormKeys();
      InitialOrderFormFlagsCurrent(Intended);
      orderForm := InitialOrderForm();
      loading := false;
      formIsValid := false;
    }

    /** `inputChangedHandler(event, inputIdentifier)` with
        `event.target.value == newValue`. */
    method InputChanged(inputIdentifier: string, newValue: string) returns (outcome: Outcome)
      requires Valid()
      modifies this
      ensures Valid()
      ensures loading == old(loading)
      ensures Changed(old(orderForm), inputIdentifier, newValue, Intended).Success? ==>
        outcome == Pass && orderForm == Changed(old(orderForm), inputIdentifier, newValue, Intended).value
      ensures Changed(old(orderForm), inputIdentifier, newValue, Intended).Failure? ==>
        outcome == Fail(TypeError) && orderForm == old(orderForm) && formIsValid == old(formIsValid)
    {
      var updatedOrderForm := orderForm;
      var index := IndexOf(updatedOrderForm, inputIdentifier);
      if index.None? {
        return Fail(TypeError);
      }
      var i := index.value;
      var updatedFormElement := updatedOrderForm[i].1;
      updatedFormElement := updatedFormElement.(value := newValue);
      var checked := CheckValidity(updatedFormElement.value, updatedFormElement.validation);
      if checked.Failure? {
        return Fail(checked.error);
      }
      updatedFormElement := updatedFormElement.(valid := checked.value);
      updatedFormElement := updatedFormElement.(touched := true);
      updatedOrderForm := updatedOrderForm[i := (inputIdentifier, updatedFormElement)];
      ghost var expected := Changed(orderForm, inputIdentifier, newValue, Intended);
      assert expected.Success? && updatedOrderForm == expected.value;
      ChangedKeepsOrderFormShape(orderForm, inputIdentifier, newValue, Intended);
      var isValid := FormIsValid(updatedOrderForm);
      orderForm := updatedOrderForm;
      formIsValid := isValid;
      outcome := Pass;
    }

    /** `orderHandler`: raises `loading` and builds the `orderData` payload
        from the current form; the form itself is not changed. */
    method OrderHandler() returns (formData: Record<string>)
      requires Valid()
      modifies this`loading
      ensures Valid() && loading
      ensures Keys(formData) == Keys(orderForm)
      ensures forall i :: 0 <= i < |orderForm| ==> formData[i].1 == orderForm[i].1.value
    {
      loading := true;
      formData := OrderFormData(orderForm);
    }

    /** The response or the failure of the order request: both clear `loading`
        and leave the form as it was. */
    method OrderSettled()
      requires Valid()
      modifies this`loading
      ensures Valid() && !loading
    {
      loading := false;
    }
  }
}
