/**
 * components/label-picker/LabelPickerModal.tsx: the label sheet keeps the
 * chosen labels in a JavaScript `Map` from key to catalog entry, which
 * remembers insertion order, and toggles membership as options are tapped.
 */
module LabelPickerModal {
  import opened Wrappers
  import opened Catalog

  type Label = ComboOption<string>

  /**
   * The entries of a `Map<string, ComboOptions>` in insertion order. Every
   * entry is stored under its own `value`, so the key of an entry is `e.value`.
   */
  type Entries = seq<Label>

  predicate DistinctKeys(s: Entries) {
    forall i, j :: 0 <= i < j < |s| ==> s[i].value != s[j].value
  }

  /** `map.set(o.value, o)`: an existing key keeps its position and takes the new entry; a new key goes last. */
  function MapSet(s: Entries, o: Label): (r: Entries)
    ensures Keys(s) == Keys(r) || Keys(r) == Keys(s) + [o.value]
    ensures o in r
    ensures FindIndex(s, o.value) < 0 ==> r == s + [o]
    ensures FindIndex(s, o.value) >= 0 ==> r == s[FindIndex(s, o.value) := o]
    ensures DistinctKeys(s) ==> DistinctKeys(r)
  {
    var i := FindIndex(s, o.value);
    if i < 0 then s + [o] else s[i := o]
  }

  /** `map.delete(key)`: drops the entry with that key and keeps the order of the rest. */
  function MapDelete(s: Entries, key: string): (r: Entries)
    ensures forall x :: x in r <==> x in s && x.value != key
    ensures |r| <= |s|
    ensures DistinctKeys(s) ==> DistinctKeys(r)
  {
    if s == [] then []
    else if s[0].value == key then MapDelete(s[1..], key)
    else
      var rest := MapDelete(s[1..], key);
      assert forall x :: x in rest ==> x in s[1..];
      [s[0]] + rest
  }

  /** Keeps the first occurrence of every element (an independent reference for insertion order). */
  function Dedup(s: seq<string>): (r: seq<string>)
    ensures forall k :: k in r <==> k in s
    ensures forall i, j :: 0 <= i < j < |r| ==> r[i] != r[j]
  {
    if s == [] then []
    else
      var d := Dedup(s[..|s| - 1]);
      var last := s[|s| - 1];
      assert forall k :: k in s <==> k in s[..|s| - 1] || k == last;
      if last in d then d else d + [last]
  }

  /** The keys of `items` that the catalog knows, in order. */
  function KnownKeys(catalog: seq<Label>, items: seq<string>): (r: seq<string>)
    ensures forall k :: k in r <==> k in items && FindByValue(catalog, k).Some?
  {
    if items == [] then []
    else
      var p := KnownKeys(catalog, items[..|items| - 1]);
      var last := items[|items| - 1];
      assert forall k :: k in items <==> k in items[..|items| - 1] || k == last;
      if FindByValue(catalog, last).Some? then p + [last] else p
  }

  /** One step of the `forEach` that builds the initial map. */
  function CollectStep(catalog: seq<Label>, s: Entries, item: string): Entries {
    match FindByValue(catalog, item)
    case Some(option) => MapSet(s, option)
    case None => s
  }

  /**
   * The map after the `forEach` has visited every element of `items`: it
   * holds, in order of first occurrence in `items`, each key of `items` that
   * the catalog knows, once, mapped to the catalog's entry.
   */
  function Collect(catalog: seq<Label>, items: seq<string>): (r: Entries)
    ensures Keys(r) == Dedup(KnownKeys(catalog, items))
    ensures DistinctKeys(r)
    ensures forall x :: x in r ==> FindByValue(catalog, x.value) == Some(x)
  {
    if items == [] then []
    else
      var init := items[..|items| - 1];
      var prev := Collect(catalog, init);
      CollectStepSpec(catalog, prev, KnownKeys(catalog, init), items[|items| - 1]);
      CollectStep(catalog, prev, items[|items| - 1])
  }

  /** The map the effect builds from the `value` prop; a missing prop gives an empty map. */
  function InitialSelection(catalog: seq<Label>, value: Option<seq<string>>): (r: Entries)
    ensures value.None? ==> r == []
    ensures value.Some? ==> Keys(r) == Dedup(KnownKeys(catalog, value.value))
    ensures DistinctKeys(r)
    ensures forall x :: x in r ==> FindByValue(catalog, x.value) == Some(x)
  {
    if value.None? then [] else Collect(catalog, value.value)
  }

  /** One visited element keeps the shape `Collect` describes. */
  lemma CollectStepSpec(catalog: seq<Label>, prev: Entries, keys: seq<string>, last: string)
    requires Keys(prev) == Dedup(keys) && DistinctKeys(prev)
    requires forall x :: x in prev ==> FindByValue(catalog, x.value) == Some(x)
    ensures var r := CollectStep(catalog, prev, last);
      && Keys(r) == Dedup(if FindByValue(catalog, last).Some? then keys + [last] else keys)
      && DistinctKeys(r)
      && forall x :: x in r ==> FindByValue(catalog, x.value) == Some(x)
  {
    match FindByValue(catalog, last)
    case None =>
    case Some(option) =>
      var k := keys + [last];
      assert k[..|k| - 1] == keys;
      var i := FindIndex(prev, last);
      if i < 0 {
        assert last !in Keys(prev);
      } else {
        assert Keys(prev)[i] == last;
        assert Keys(prev[i := option]) == Keys(prev);
        forall x: Label | x in prev[i := option] ensures FindByValue(catalog, x.value) == Some(x) {
          var j :| 0 <= j < |prev[i := option]| && prev[i := option][j] == x;
          if j != i { assert x == prev[j]; assert x in prev; }
        }
      }
  }

  /** `handleSelect(o)`: removes the key when present, appends the entry when absent. */
  function Toggle(s: Entries, o: Label): (r: Entries)
    ensures (o.value in Keys(r)) <==> (o.value !in Keys(s))
    ensures o.value !in Keys(s) ==> r == s + [o]
    ensures o.value in Keys(s) ==> r == MapDelete(s, o.value)
  {
    if o.value in Keys(s) then
      MapDeleteKeys(s, o.value);
      MapDelete(s, o.value)
    else
      var r := s + [o];
      assert Keys(r)[|s|] == o.value;
      r
  }

  /**
   * `handleSelect` leaves every other entry, and their order, untouched, and
   * keeps keys distinct.
   */
  lemma ToggleFrame(s: Entries, o: Label)
    requires DistinctKeys(s)
    ensures DistinctKeys(Toggle(s, o))
    ensures forall x: Label :: x.value != o.value ==> (x in Toggle(s, o) <==> x in s)
    ensures MapDelete(Toggle(s, o), o.value) == MapDelete(s, o.value)
  {
    if o.value in Keys(s) {
      MapDeleteIdempotent(s, o.value);
    } else {
      forall i | 0 <= i < |s| ensures s[i].value != o.value {
        assert Keys(s)[i] == s[i].value;
      }
      MapDeleteAppend(s, o);
      MapDeleteAbsent(s, o.value);
    }
  }

  /** `Map.delete` keeps the order of the remaining entries: it distributes over concatenation. */
  lemma {:induction false} MapDeleteConcat(a: Entries, b: Entries, key: string)
    ensures MapDelete(a + b, key) == MapDelete(a, key) + MapDelete(b, key)
    decreases |a|
  {
    if a == [] {
      assert a + b == b;
    } else {
      assert (a + b)[0] == a[0];
      assert (a + b)[1..] == a[1..] + b;
      MapDeleteConcat(a[1..], b, key);
    }
  }

  lemma {:induction false} MapDeleteIdempotent(s: Entries, key: string)
    ensures MapDelete(MapDelete(s, key), key) == MapDelete(s, key)
  {
    if s != [] {
      MapDeleteIdempotent(s[1..], key);
      if s[0].value != key {
        assert ([s[0]] + MapDelete(s[1..], key))[1..] == MapDelete(s[1..], key);
      }
    }
  }

  lemma {:induction false} MapDeleteAbsent(s: Entries, key: string)
    requires forall i :: 0 <= i < |s| ==> s[i].value != key
    ensures MapDelete(s, key) == s
  {
    if s != [] {
      MapDeleteAbsent(s[1..], key);
      assert [s[0]] + s[1..] == s;
    }
  }

  lemma {:induction false} MapDeleteAppend(s: Entries, o: Label)
    ensures MapDelete(s + [o], o.value) == MapDelete(s, o.value)
  {
    if s == [] {
      assert [o][1..] == [];
    } else {
      assert (s + [o])[1..] == s[1..] + [o];
      MapDeleteAppend(s[1..], o);
    }
  }

  lemma {:induction false} MapDeleteKeys(s: Entries, key: string)
    ensures forall k :: k in Keys(MapDelete(s, key)) <==> k in Keys(s) && k != key
  {
    if s != [] {
      MapDeleteKeys(s[1..], key);
      assert Keys(s) == [s[0].value] + Keys(s[1..]);
      if s[0].value != key {
        assert Keys(MapDelete(s, key)) == [s[0].value] + Keys(MapDelete(s[1..], key));
      }
    }
  }

  /**
   * Tapping the same option twice restores the key set; when the key was
   * absent it restores the map exactly.
   */
  lemma ToggleTwice(s: Entries, o: Label)
    ensures forall k :: k in Keys(Toggle(Toggle(s, o), o)) <==> k in Keys(s)
    ensures o.value !in Keys(s) ==> Toggle(Toggle(s, o), o) == s
  {
    if o.value !in Keys(s) {
      ToggleTwiceAbsent(s, o);
    } else {
      ToggleTwicePresent(s, o);
    }
  }

  lemma ToggleTwiceAbsent(s: Entries, o: Label)
    requires o.value !in Keys(s)
    ensures Toggle(Toggle(s, o), o) == s
  {
    var t := Toggle(s, o);
    forall i | 0 <= i < |s| ensures s[i].value != o.value {
      assert Keys(s)[i] == s[i].value;
    }
    assert t == s + [o];
    assert Keys(t)[|s|] == o.value;
    MapDeleteAppend(s, o);
    MapDeleteAbsent(s, o.value);
  }

  lemma ToggleTwicePresent(s: Entries, o: Label)
    requires o.value in Keys(s)
    ensures forall k :: k in Keys(Toggle(Toggle(s, o), o)) <==> k in Keys(s)
  {
    var t := MapDelete(s, o.value);
    MapDeleteKeys(s, o.value);
    assert Toggle(s, o) == t;
    assert o.value !in Keys(t);
    assert Toggle(t, o) == t + [o];
    KeysAppend(t, o);
  }

  lemma KeysAppend(t: Entries, o: Label)
    ensures Keys(t + [o]) == Keys(t) + [o.value]
  {
  }

  /** The sheet's state: the catalog it offers and the selected entries. */
  class Modal {
    const catalog: seq<Label>
    var selectedLabels: Entries

    ghost predicate Valid()
      reads this
    {
      DistinctKeys(selectedLabels)
    }

    constructor (catalog: seq<Label>)
      ensures Valid() && this.catalog == catalog && selectedLabels == []
    {
      this.catalog := catalog;
      selectedLabels := [];
    }

    /** The effect run when the `value` prop changes: rebuilds the map with a `forEach` loop. */
    method OnValueChange(value: Option<seq<string>>)
      modifies this
      ensures Valid()
      ensures selectedLabels == InitialSelection(catalog, value)
    {
      if value.None? {
        selectedLabels := [];
        return;
      }
      var items := value.value;
      var selected: Entries := [];
      for i := 0 to |items|
        invariant selected == Collect(catalog, items[..i])
      {
        assert items[..i + 1][..i] == items[..i];
        var option := FindByValue(catalog, items[i]);
        if option.Some? {
          selected := MapSet(selected, option.value);
        }
      }
      assert items[..|items|] == items;
      selectedLabels := selected;
    }

    /** `handleSelect`: copies the map, toggles the option's key and stores the copy. */
    method HandleSelect(option: Label)
      requires Valid()
      modifies this
      ensures Valid()
      ensures selectedLabels == Toggle(old(selectedLabels), option)
    {
      var selected := selectedLabels;
      if option.value in Keys(selected) {
        selected := MapDelete(selected, option.value);
      } else {
        selected := selected + [option];
      }
      ToggleFrame(selectedLabels, option);
      selectedLabels := selected;
    }

    /** `confirmSelect`: emits the map's entries in insertion order. */
    method ConfirmSelect() returns (emitted: seq<Label>)
      requires Valid()
      ensures emitted == selectedLabels
      ensures DistinctKeys(emitted)
    {
      emitted := selectedLabels;
    }
  }
}
