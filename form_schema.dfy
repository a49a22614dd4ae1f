/** The declarative form shared in shape by the Auth and ContactData
    containers: an ordered record from field id to field descriptor, the
    single-field replacement both change handlers perform, and the
    `formElementsArray` projection both containers render from. */
module FormSchema {
  import opened JsRuntime

  /** A validation rule object; a key the object does not have is `None`. */
  datatype RuleSet = RuleSet(
    required: Option<bool>,
    minLength: Option<int>,
    maxLength: Option<int>,
    isEmail: Option<bool>,
    isNumeric: Option<bool>)

  /** The empty rule object `{}`. */
  const NoRules := RuleSet(None, None, None, None, None)

  datatype ElementType = Input | Select

  datatype SelectOption = SelectOption(value: string, displayValue: string)

  /** `elementConfig`: the HTML input type and placeholder, or the options of a select. */
  datatype ElementConfig =
    | InputConfig(inputType: string, placeholder: string)
    | SelectConfig(options: seq<SelectOption>)

  /** A field descriptor. A descriptor written without `touched` has it undefined, i.e. false. */
  datatype Field = Field(
    elementType: ElementType,
    elementConfig: ElementConfig,
    value: string,
    validation: Option<RuleSet>,
    valid: bool,
    touched: bool)

  /** A JavaScript object used as a record: its entries in key insertion order. */
  type Record<T> = seq<(string, T)>

  type Form = Record<Field>

  function Keys<T>(entries: Record<T>): (ks: seq<string>)
    ensures |ks| == |entries|
  {
    seq(|entries|, i requires 0 <= i < |entries| => entries[i].0)
  }

  /** An object never holds the same key twice. */
  predicate DistinctKeys<T>(entries: Record<T>) {
    forall i, j :: 0 <= i < j < |entries| ==> entries[i].0 != entries[j].0
  }

  /** Position of `key` among the entries, if the object has it. */
  function IndexOf<T>(entries: Record<T>, key: string): (r: Option<nat>)
    ensures r.Some? ==> r.value < |entries| && entries[r.value].0 == key
    ensures r.Some? ==> forall i :: 0 <= i < r.value ==> entries[i].0 != key
    ensures r.None? ==> forall i :: 0 <= i < |entries| ==> entries[i].0 != key
  {
    if |entries| == 0 then None
    else if entries[0].0 == key then Some(0)
    else match IndexOf(entries[1..], key)
      case None => None
      case Some(k) => Some(k + 1)
  }

  /** `obj[key]`: the value under `key`, or `None` for undefined. */
  function Lookup<T>(entries: Record<T>, key: string): Option<T> {
    match IndexOf(entries, key)
    case None => None
    case Some(i) => Some(entries[i].1)
  }

  /** Where keys are distinct, the key at position `i` is found at `i`. */
  lemma IndexOfDistinct<T>(entries: Record<T>, i: nat)
    requires DistinctKeys(entries) && i < |entries|
    ensures IndexOf(entries, entries[i].0) == Some(i)
  {
  }

  /** Lookups depend only on the key order: records with the same keys find
      every key at the same position. */
  lemma IndexOfSameKeys<T, U>(a: Record<T>, b: Record<U>, key: string)
    requires Keys(a) == Keys(b)
    ensures IndexOf(a, key) == IndexOf(b, key)
  {
    assert forall i :: 0 <= i < |a| ==> a[i].0 == Keys(a)[i] == Keys(b)[i] == b[i].0;
  }

  /** Distinct keys depend only on the key order. */
  lemma DistinctKeysSameKeys<T, U>(a: Record<T>, b: Record<U>)
    requires Keys(a) == Keys(b) && DistinctKeys(b)
    ensures DistinctKeys(a)
  {
    assert forall i :: 0 <= i < |a| ==> a[i].0 == Keys(a)[i] == Keys(b)[i] == b[i].0;
  }

  /** The object spread `{...entries, [key]: x}` for a key the object already has. */
  function Replace<T>(entries: Record<T>, i: nat, x: T): (r: Record<T>)
    requires i < |entries|
  {
    entries[i := (entries[i].0, x)]
  }

  /** Replacing the value under one key keeps every key, and its position, and
      every other key's value; the replaced key now holds the new value. */
  lemma ReplaceChangesOnlyItsKey<T>(entries: Record<T>, i: nat, x: T)
    requires DistinctKeys(entries) && i < |entries|
    ensures Keys(Replace(entries, i, x)) == Keys(entries)
    ensures DistinctKeys(Replace(entries, i, x))
    ensures Lookup(Replace(entries, i, x), entries[i].0) == Some(x)
    ensures forall k :: k != entries[i].0 ==> Lookup(Replace(entries, i, x), k) == Lookup(entries, k)
  {
    var r := Replace(entries, i, x);
    assert Keys(r) == Keys(entries);
    IndexOfDistinct(r, i);
    forall k | k != entries[i].0
      ensures Lookup(r, k) == Lookup(entries, k)
    {
      IndexOfSameKeys(r, entries, k);
    }
  }

  /** The descriptor after an input event: the new value, the computed
      validity and `touched: true`; element type, config and rules are kept. */
  function Touched(f: Field, value: string, valid: bool): Field {
    f.(value := value, valid := valid, touched := true)
  }

  /** Two forms have the same schema: the same keys in the same order and, per
      key, the same element type, configuration and rules. */
  predicate SameSchema(a: Form, b: Form) {
    && Keys(a) == Keys(b)
    && forall i :: 0 <= i < |a| ==>
         && a[i].1.elementType == b[i].1.elementType
         && a[i].1.elementConfig == b[i].1.elementConfig
         && a[i].1.validation == b[i].1.validation
  }

  /** Every field's `valid` flag is set. */
  predicate AllValid(form: Form) {
    forall i :: 0 <= i < |form| ==> form[i].1.valid
  }

  /** One entry of `formElementsArray`: `{ id: key, config: form[key] }`. */
  datatype FormElement = FormElement(id: string, config: Field)

  /** The `for (let key in form) formElementsArray.push(...)` loop: one element
      per field, in key insertion order. */
  method FormElementsArray(form: Form) returns (elements: seq<FormElement>)
    ensures |elements| == |form|
    ensures forall i :: 0 <= i < |form| ==> elements[i].id == form[i].0 && elements[i].config == form[i].1
  {
    elements := [];
    var i := 0;
    while i < |form|
      invariant 0 <= i <= |form|
      invariant |elements| == i
      invariant forall j :: 0 <= j < i ==> elements[j] == FormElement(form[j].0, form[j].1)
    {
      elements := elements + [FormElement(form[i].0, form[i].1)];
      i := i + 1;
    }
  }

  /** Replacing a descriptor keeps the schema, so the rendered inputs keep
      their order and ids. */
  lemma ReplaceKeepsSchema(form: Form, i: nat, value: string, valid: bool)
    requires DistinctKeys(form) && i < |form|
    ensures SameSchema(Replace(form, i, Touched(form[i].1, value, valid)), form)
  {
    ReplaceChangesOnlyItsKey(form, i, Touched(form[i].1, value, valid));
  }
}
