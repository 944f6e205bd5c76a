/**
 * The service-category picker and the submitted fields of the add-service
 * form (src/erp/Master/AddServiceForm.tsx). The picker keeps a list of
 * options that starts with two defaults. Picking a value adds it when no
 * option has it, creating one always adds it, and removing takes out every
 * option with that value; the two defaults offer no remove control.
 */
module CategoryOptions {

  import opened Js
  import Seqs

  datatype CategoryOption = CategoryOption(value: string, caption: string)

  /** The options and the form's `serviceCategory` field (`None` is `undefined`). */
  datatype Picker = Picker(options: seq<CategoryOption>, category: Option<string>)

  const Defaults := [CategoryOption("Residential Cleaning", "Residential Cleaning"),
                     CategoryOption("Commercial Cleaning", "Commercial Cleaning")]

  const Initial := Picker(Defaults, None)

  predicate HasValue(options: seq<CategoryOption>, value: string) {
    exists i :: 0 <= i < |options| && options[i].value == value
  }

  /** `onChange`: a picked value is added only if no option has it; clearing empties the field. */
  function OnChange(p: Picker, picked: Option<CategoryOption>): (r: Picker)
    ensures picked.None? ==> r == p.(category := None)
    ensures picked.Some? ==> r.category == Some(picked.value.value)
    ensures picked.Some? && HasValue(p.options, picked.value.value) ==> r.options == p.options
    ensures picked.Some? && !HasValue(p.options, picked.value.value) ==> r.options == p.options + [picked.value]
  {
    match picked
    case None => p.(category := None)
    case Some(o) =>
      Picker(if HasValue(p.options, o.value) then p.options else p.options + [o], Some(o.value))
  }

  /** Picking the same value twice is the same as picking it once. */
  lemma OnChangeIdempotent(p: Picker, picked: Option<CategoryOption>)
    ensures OnChange(OnChange(p, picked), picked) == OnChange(p, picked)
  {
    if picked.Some? && !HasValue(p.options, picked.value.value) {
      var o := picked.value;
      assert (p.options + [o])[|p.options|].value == o.value;
    }
  }

  /** `onCreateOption`: the typed text is always appended, even when an option already has it. */
  function OnCreate(p: Picker, input: string): (r: Picker)
    ensures r.options == p.options + [CategoryOption(input, input)]
    ensures r.category == Some(input)
  {
    Picker(p.options + [CategoryOption(input, input)], Some(input))
  }

  function CountValue(options: seq<CategoryOption>, value: string): nat
    decreases |options|
  {
    if |options| == 0 then 0
    else CountValue(options[..|options| - 1], value) + (if options[|options| - 1].value == value then 1 else 0)
  }

  /** Unlike picking, creating a value that is already there makes a second option with it. */
  lemma CreateDuplicates(p: Picker, input: string)
    ensures CountValue(OnCreate(p, input).options, input) == CountValue(p.options, input) + 1
  {
    assert OnCreate(p, input).options[..|p.options|] == p.options;
  }

  /** `isDefault`: the value is one of the two defaults. */
  predicate IsDefault(value: string) {
    exists i :: 0 <= i < |Defaults| && Defaults[i].value == value
  }

  function ValueIsNot(value: string): CategoryOption -> bool {
    (o: CategoryOption) => o.value != value
  }

  /** The remove control: every option with the value goes, and the field is cleared if it held it. */
  function Remove(p: Picker, value: string): (r: Picker)
    ensures !HasValue(r.options, value)
    ensures forall o :: o in r.options <==> o in p.options && o.value != value
    ensures forall o :: multiset(r.options)[o] == if o.value != value then multiset(p.options)[o] else 0
    ensures p.category == Some(value) ==> r.category.None?
    ensures p.category != Some(value) ==> r.category == p.category
  {
    var kept := Seqs.Filter(p.options, ValueIsNot(value));
    Seqs.FilterMembers(p.options, ValueIsNot(value));
    Seqs.FilterMultiset(p.options, ValueIsNot(value));
    assert forall i :: 0 <= i < |kept| ==> kept[i] in kept;
    Picker(kept, if p.category == Some(value) then None else p.category)
  }

  /**
   * Removing keeps the other options in their order: removal from a
   * concatenation removes from each part, and a single option stays iff its
   * value differs, so by induction the result is the other options in order.
   */
  lemma RemoveKeepsOrder(a: seq<CategoryOption>, b: seq<CategoryOption>, o: CategoryOption, value: string)
    ensures Remove(Picker(a + b, None), value).options ==
            Remove(Picker(a, None), value).options + Remove(Picker(b, None), value).options
    ensures Remove(Picker([o], None), value).options == if o.value != value then [o] else []
  {
    Seqs.FilterAppend(a, b, ValueIsNot(value));
    Seqs.FilterSnoc([], o, ValueIsNot(value));
    assert [] + [o] == [o];
  }

  /** What the user can do with the picker: pick or clear, create, or click a remove control. */
  datatype Action = Pick(picked: Option<CategoryOption>) | Create(input: string) | RemoveClicked(value: string)

  /** The remove control is drawn only beside a non-default option. */
  predicate Offered(a: Action) {
    a.RemoveClicked? ==> !IsDefault(a.value)
  }

  function Apply(p: Picker, a: Action): Picker {
    match a
    case Pick(picked) => OnChange(p, picked)
    case Create(input) => OnCreate(p, input)
    case RemoveClicked(value) => Remove(p, value)
  }

  function ApplyAll(p: Picker, actions: seq<Action>): Picker
    decreases |actions|
  {
    if |actions| == 0 then p else ApplyAll(Apply(p, actions[0]), actions[1..])
  }

  predicate DefaultsPresent(p: Picker) {
    forall i :: 0 <= i < |Defaults| ==> Defaults[i] in p.options
  }

  lemma ApplyKeepsDefaults(p: Picker, a: Action)
    requires DefaultsPresent(p) && Offered(a)
    ensures DefaultsPresent(Apply(p, a))
  {
    if a.RemoveClicked? {
      var r := Remove(p, a.value);
      forall i | 0 <= i < |Defaults|
        ensures Defaults[i] in r.options
      {
        assert Defaults[i].value != a.value;
      }
    }
  }

  /** Whatever the user does through the controls drawn, the two default categories stay. */
  lemma {:induction false} DefaultsAlwaysRemain(p: Picker, actions: seq<Action>)
    requires DefaultsPresent(p)
    requires forall i :: 0 <= i < |actions| ==> Offered(actions[i])
    ensures DefaultsPresent(ApplyAll(p, actions))
    decreases |actions|
  {
    if |actions| > 0 {
      ApplyKeepsDefaults(p, actions[0]);
      DefaultsAlwaysRemain(Apply(p, actions[0]), actions[1..]);
    }
  }

  lemma InitialHasDefaults()
    ensures DefaultsPresent(Initial)
  {
  }

  /** A form value as `handleAdd` sees it. */
  datatype FieldValue = Undefined | Null | Text(text: string)

  datatype Field = Field(key: string, value: FieldValue)

  /** A field `handleAdd` appends in its key loop: not an image upload, and neither null nor undefined. */
  predicate Submitted(f: Field) {
    f.key != "serviceAppIcon" && f.key != "serviceWebImage" && f.value.Text?
  }

  /** The pair `formData.append(key, val)` adds for a submitted field. */
  function Pair(f: Field): (string, string) {
    (f.key, if f.value.Text? then f.value.text else "")
  }

  /** The `(key, text)` pairs the key loop of `handleAdd` appends to the form data, in field order. */
  function SubmittedFields(fields: seq<Field>): (r: seq<(string, string)>)
    ensures |r| <= |fields|
    ensures forall k, t :: (k, t) in r <==> Field(k, Text(t)) in fields && Submitted(Field(k, Text(t)))
  {
    var kept := Seqs.Filter(fields, Submitted);
    Seqs.FilterMembers(fields, Submitted);
    var r := Seqs.Map(kept, Pair);
    assert forall k, t :: (k, t) in r ==> Field(k, Text(t)) in kept by {
      forall k, t | (k, t) in r
        ensures Field(k, Text(t)) in kept
      {
        var i :| 0 <= i < |r| && r[i] == (k, t);
        assert kept[i] in kept;
        assert kept[i] == Field(k, Text(t));
      }
    }
    assert forall k, t :: Field(k, Text(t)) in kept ==> (k, t) in r by {
      forall k, t | Field(k, Text(t)) in kept
        ensures (k, t) in r
      {
        var i :| 0 <= i < |kept| && kept[i] == Field(k, Text(t));
        assert r[i] == (k, t);
      }
    }
    r
  }

  /**
   * The pairs come in field order: the fields of a concatenation are
   * submitted part by part, and one field gives its pair iff it is submitted.
   */
  lemma SubmittedFieldsKeepOrder(a: seq<Field>, b: seq<Field>, f: Field)
    ensures SubmittedFields(a + b) == SubmittedFields(a) + SubmittedFields(b)
    ensures SubmittedFields([f]) == if Submitted(f) then [(f.key, f.value.text)] else []
  {
    Seqs.FilterAppend(a, b, Submitted);
    Seqs.MapAppend(Seqs.Filter(a, Submitted), Seqs.Filter(b, Submitted), Pair);
    Seqs.FilterSnoc([], f, Submitted);
    assert [] + [f] == [f];
  }
}
