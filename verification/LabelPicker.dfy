/**
 * components/label-picker/LabelPicker.tsx: a todo's `label` column holds the
 * selected label keys joined with ','; the picker parses that string against
 * the label catalog and serialises a new selection back into it.
 */
module LabelPicker {
  import opened Wrappers
  import opened Catalog

  type Label = ComboOption<string>

  /** `s.split(',')`, with JavaScript's semantics (empty pieces are kept). */
  function Split(s: string): (parts: seq<string>)
    ensures |parts| >= 1
    ensures forall i :: 0 <= i < |parts| ==> ',' !in parts[i]
  {
    if s == [] then [""]
    else if s[0] == ',' then [""] + Split(s[1..])
    else
      var rest := Split(s[1..]);
      [[s[0]] + rest[0]] + rest[1..]
  }

  /** `keys.join(',')`. */
  function Join(keys: seq<string>): (s: string)
    ensures keys == [] ==> s == ""
    ensures |keys| == 1 ==> s == keys[0]
  {
    if keys == [] then ""
    else if |keys| == 1 then keys[0]
    else keys[0] + "," + Join(keys[1..])
  }

  lemma {:induction false} SplitWithoutComma(a: string)
    requires ',' !in a
    ensures Split(a) == [a]
  {
    if a != [] {
      SplitWithoutComma(a[1..]);
      assert a[0] != ',';
      assert [a[0]] + a[1..] == a;
    }
  }

  lemma {:induction false} SplitAtFirstComma(a: string, b: string)
    requires ',' !in a
    ensures Split(a + "," + b) == [a] + Split(b)
  {
    if a == [] {
      assert a + "," + b == [','] + b;
      assert ([','] + b)[1..] == b;
    } else {
      SplitAtFirstComma(a[1..], b);
      assert (a + "," + b)[0] == a[0] != ',';
      assert (a + "," + b)[1..] == a[1..] + "," + b;
      assert [a[0]] + a[1..] == a;
    }
  }

  /** Splitting a join of comma-free keys gives the keys back. */
  lemma {:induction false} SplitJoin(keys: seq<string>)
    requires |keys| >= 1
    requires forall i :: 0 <= i < |keys| ==> ',' !in keys[i]
    ensures Split(Join(keys)) == keys
  {
    if |keys| == 1 {
      SplitWithoutComma(keys[0]);
    } else {
      SplitJoin(keys[1..]);
      SplitAtFirstComma(keys[0], Join(keys[1..]));
    }
  }

  /**
   * `catalog.filter(item => keys.includes(item.value))`: the catalog entries
   * whose key is among `keys`, in catalog order; unknown keys are dropped.
   */
  function FilterByKeys(catalog: seq<Label>, keys: seq<string>): (r: seq<Label>)
    ensures |r| <= |catalog|
    ensures forall x :: x in r <==> x in catalog && x.value in keys
  {
    if catalog == [] then []
    else if catalog[0].value in keys then [catalog[0]] + FilterByKeys(catalog[1..], keys)
    else FilterByKeys(catalog[1..], keys)
  }

  /** The filter keeps catalog order: it distributes over concatenation of catalogs. */
  lemma {:induction false} FilterByKeysAppend(a: seq<Label>, b: seq<Label>, keys: seq<string>)
    ensures FilterByKeys(a + b, keys) == FilterByKeys(a, keys) + FilterByKeys(b, keys)
    decreases |a|
  {
    if a == [] {
      assert a + b == b;
    } else {
      assert (a + b)[0] == a[0];
      assert (a + b)[1..] == a[1..] + b;
      FilterByKeysAppend(a[1..], b, keys);
    }
  }

  lemma {:induction false} FilterByNoKeys(catalog: seq<Label>)
    ensures FilterByKeys(catalog, []) == []
  {
    if catalog != [] {
      FilterByNoKeys(catalog[1..]);
    }
  }

  /** The filter depends only on which catalog keys occur, not on the order or repetition of `keys`. */
  lemma {:induction false} FilterByKeysCongruent(catalog: seq<Label>, keys1: seq<string>, keys2: seq<string>)
    requires forall x :: x in catalog ==> (x.value in keys1 <==> x.value in keys2)
    ensures FilterByKeys(catalog, keys1) == FilterByKeys(catalog, keys2)
  {
    if catalog != [] {
      FilterByKeysCongruent(catalog[1..], keys1, keys2);
    }
  }

  /** The parse effect: a falsy `value` selects nothing, otherwise split and filter the catalog. */
  function ParseLabels(value: Option<string>, catalog: seq<Label>): (r: seq<Label>)
    ensures value.None? || value == Some("") ==> r == []
    ensures forall x :: x in r <==> x in catalog && value.Some? && value.value != "" && x.value in Split(value.value)
  {
    if value.None? || value.value == "" then [] else FilterByKeys(catalog, Split(value.value))
  }

  /**
   * The parsed selection keeps catalog order: parsing against a catalog made
   * of two parts gives the parse against the first part, then the second.
   */
  lemma ParseLabelsKeepsCatalogOrder(value: Option<string>, a: seq<Label>, b: seq<Label>)
    ensures ParseLabels(value, a + b) == ParseLabels(value, a) + ParseLabels(value, b)
  {
    if value.Some? && value.value != "" {
      FilterByKeysAppend(a, b, Split(value.value));
    }
  }

  /** `handleChange`'s output: the selected keys joined with ','. */
  function SerializeLabels(selection: seq<Label>): (s: string)
    ensures selection == [] ==> s == ""
  {
    Join(Keys(selection))
  }

  /** Catalog keys are non-empty and contain no ','. */
  predicate WellFormedKeys(catalog: seq<Label>) {
    forall x :: x in catalog ==> x.value != "" && ',' !in x.value
  }

  /**
   * Round trip: parsing what `handleChange` emits gives back exactly the
   * catalog entries whose key was selected, in catalog order.
   */
  lemma SerializeThenParse(catalog: seq<Label>, selection: seq<Label>)
    requires WellFormedKeys(catalog)
    requires forall x :: x in selection ==> x in catalog
    ensures ParseLabels(Some(SerializeLabels(selection)), catalog) == FilterByKeys(catalog, Keys(selection))
  {
    var keys := Keys(selection);
    if selection == [] {
      FilterByNoKeys(catalog);
    } else {
      assert selection[0] in catalog;
      assert forall i :: 0 <= i < |keys| ==> keys[i] == selection[i].value && selection[i] in catalog;
      SplitJoin(keys);
      if |keys| == 1 {
        assert SerializeLabels(selection) == keys[0] != "";
      } else {
        assert SerializeLabels(selection) == keys[0] + "," + Join(keys[1..]);
      }
    }
  }

  /** A selection already in catalog order (as the parse effect produces) survives the round trip unchanged. */
  lemma SerializeThenParseIdentity(catalog: seq<Label>, keys: seq<string>)
    requires WellFormedKeys(catalog)
    ensures var selection := FilterByKeys(catalog, keys);
      ParseLabels(Some(SerializeLabels(selection)), catalog) == selection
  {
    var selection := FilterByKeys(catalog, keys);
    SerializeThenParse(catalog, selection);
    forall x | x in catalog
      ensures x.value in Keys(selection) <==> x.value in keys
    {
      var ks := Keys(selection);
      if x.value in keys {
        assert x in selection;
        var i :| 0 <= i < |selection| && selection[i] == x;
        assert ks[i] == x.value;
      }
      if x.value in ks {
        var i :| 0 <= i < |ks| && ks[i] == x.value;
        assert selection[i] in selection;
      }
    }
    FilterByKeysCongruent(catalog, Keys(selection), keys);
  }

  /** The picker's state: the catalog it resolves against and the selected labels. */
  class Picker {
    const catalog: seq<Label>
    var selectedLabel: seq<Label>

    constructor (catalog: seq<Label>)
      ensures this.catalog == catalog && selectedLabel == []
    {
      this.catalog := catalog;
      selectedLabel := [];
    }

    /** The effect run when the `value` prop changes. */
    method OnValueChange(value: Option<string>)
      modifies this
      ensures selectedLabel == ParseLabels(value, catalog)
    {
      if value.None? || value.value == "" {
        selectedLabel := [];
        return;
      }
      var arrayLabel := Split(value.value);
      selectedLabel := FilterByKeys(catalog, arrayLabel);
    }

    /** `handleChange`: keeps the modal's selection and emits its keys joined with ','. */
    method HandleChange(value: seq<Label>) returns (emitted: string)
      modifies this
      ensures selectedLabel == value
      ensures emitted == Join(Keys(value))
    {
      var selected := Keys(value);
      selectedLabel := value;
      emitted := Join(selected);
    }
  }
}
