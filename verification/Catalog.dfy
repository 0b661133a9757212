/**
 * types/type.ts: the entries of the static catalogs (labels, priorities) the
 * pickers resolve against, and `Array.prototype.find` by key on them.
 */
module Catalog {
  import opened Wrappers

  /**
   * `ComboOptions<T>`: one catalog entry, identified by its `value` key
   * (`labelText` is the source's `label` field; `label` is a Dafny keyword).
   */
  datatype ComboOption<T> = ComboOption(labelText: string, value: T, icon: string, color: string)

  /** The position where `catalog.find(item => item.value === key)` stops: the first index with that key, or -1. */
  function FindIndex<T(==)>(catalog: seq<ComboOption<T>>, key: T): (i: int)
    ensures -1 <= i < |catalog|
    ensures i == -1 <==> forall j :: 0 <= j < |catalog| ==> catalog[j].value != key
    ensures i >= 0 ==> catalog[i].value == key && forall j :: 0 <= j < i ==> catalog[j].value != key
  {
    if catalog == [] then -1
    else if catalog[0].value == key then 0
    else
      var i := FindIndex(catalog[1..], key);
      if i == -1 then -1 else i + 1
  }

  /** `catalog.find(item => item.value === key)`: the first entry with that key, if any. */
  function FindByValue<T(==)>(catalog: seq<ComboOption<T>>, key: T): (r: Option<ComboOption<T>>)
    ensures r.None? <==> forall j :: 0 <= j < |catalog| ==> catalog[j].value != key
    ensures r.Some? ==> r.value in catalog && r.value.value == key
    ensures r.Some? ==> r.value == catalog[FindIndex(catalog, key)]
  {
    var i := FindIndex(catalog, key);
    if i < 0 then None else Some(catalog[i])
  }

  /** The keys of a list of entries, in order (`items.map(item => item.value)`). */
  function Keys<T>(items: seq<ComboOption<T>>): (r: seq<T>)
    ensures |r| == |items|
    ensures forall i :: 0 <= i < |items| ==> r[i] == items[i].value
  {
    if items == [] then [] else [items[0].value] + Keys(items[1..])
  }
}
