/**
 * components/priority-picker/PriorityPicker.tsx: resolves a todo's numeric
 * priority to its catalog entry and shows the entry's label.
 */
module PriorityPicker {
  import opened Wrappers
  import opened Catalog

  type Priority = ComboOption<int>

  const Placeholder: string := "Select priority"

  /**
   * `priorityOptions.find(item => item.value === value)`: undefined and null
   * never equal a number, and an unknown number resolves to nothing, silently.
   */
  function Lookup(catalog: seq<Priority>, value: Option<int>): (r: Option<Priority>)
    ensures value.None? ==> r.None?
    ensures r.Some? ==> r.value in catalog && value == Some(r.value.value)
    ensures value.Some? ==> (r.None? <==> forall j :: 0 <= j < |catalog| ==> catalog[j].value != value.value)
    ensures r.Some? ==> exists i :: 0 <= i < |catalog| && catalog[i] == r.value &&
                          forall j :: 0 <= j < i ==> catalog[j].value != value.value
  {
    if value.None? then None
    else
      var r := FindByValue(catalog, value.value);
      if r.Some? then
        var i := FindIndex(catalog, value.value);
        assert catalog[i] == r.value;
        r
      else r
  }

  /** `selectedPriority?.label || 'Select priority'`: an empty label falls back too. */
  function DisplayLabel(selected: Option<Priority>): (s: string)
    ensures s != ""
    ensures selected.None? || selected.value.labelText == "" ==> s == Placeholder
    ensures selected.Some? && selected.value.labelText != "" ==> s == selected.value.labelText
  {
    if selected.Some? && selected.value.labelText != "" then selected.value.labelText else Placeholder
  }

  /** The picker's state: the catalog and the selected entry. */
  class Picker {
    const catalog: seq<Priority>
    var selectedPriority: Option<Priority>

    constructor (catalog: seq<Priority>)
      ensures this.catalog == catalog && selectedPriority == None
    {
      this.catalog := catalog;
      selectedPriority := None;
    }

    /** The effect run when the `value` prop changes. */
    method OnValueChange(value: Option<int>)
      modifies this
      ensures selectedPriority == Lookup(catalog, value)
    {
      selectedPriority := Lookup(catalog, value);
    }

    /** `handleChange`: selects the value's entry and emits the value unchanged. */
    method HandleChange(value: Option<int>) returns (emitted: Option<int>)
      modifies this
      ensures selectedPriority == Lookup(catalog, value)
      ensures emitted == value
    {
      selectedPriority := Lookup(catalog, value);
      emitted := value;
    }
  }
}
