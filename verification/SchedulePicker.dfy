/**
 * components/schedule-picker/SchedulePicker.tsx: matches a todo's schedule
 * date against the date shortcuts (Today, Tomorrow, This Weekend, No Date).
 * A date is abstracted to its calendar day and its time within that day, so
 * `isSameDay` is equality of days.
 */
module SchedulePicker {
  import opened Wrappers

  datatype Date = Date(day: int, secondOfDay: int)

  /** `DateOption`: a shortcut; `No Date` has no value. */
  datatype DateOption = DateOption(labelText: string, value: Option<Date>, icon: string, color: string)

  /**
   * The selection state, `DateOption | null | undefined`: the effect and a
   * cleared date give `null`, an unmatched `handleChange` gives `undefined`.
   */
  datatype Selection = NullSelection | UndefinedSelection | Selected(option: DateOption)

  predicate IsSameDay(a: Date, b: Date) {
    a.day == b.day
  }

  /** The option the effect shows for a date no shortcut matches. */
  function CustomOption(value: Date): DateOption {
    DateOption("Custom", Some(value), "calendar-outline", "#687076")
  }

  /**
   * `dateOptions.filter(x => x?.value).find(item => isSameDay(item.value, value))`:
   * the first shortcut that has a date on the same day.
   */
  function MatchShortcut(options: seq<DateOption>, value: Date): (r: Option<DateOption>)
    ensures r.Some? ==> r.value in options && r.value.value.Some? && IsSameDay(r.value.value.value, value)
    ensures r.None? <==> forall i :: 0 <= i < |options| ==> options[i].value.None? || !IsSameDay(options[i].value.value, value)
    ensures r.Some? ==> exists i :: 0 <= i < |options| && options[i] == r.value &&
                          forall j :: 0 <= j < i ==> options[j].value.None? || !IsSameDay(options[j].value.value, value)
  {
    if options == [] then None
    else if options[0].value.Some? && IsSameDay(options[0].value.value, value) then Some(options[0])
    else
      var r := MatchShortcut(options[1..], value);
      if r.Some? then
        var i :| 0 <= i < |options[1..]| && options[1..][i] == r.value &&
                 forall j :: 0 <= j < i ==> options[1..][j].value.None? || !IsSameDay(options[1..][j].value.value, value);
        assert options[i + 1] == r.value;
        r
      else r
  }

  /** The selection the effect computes for the `value` prop. */
  function SelectionFor(options: seq<DateOption>, value: Option<Date>): (r: Selection)
    ensures value.None? <==> r == NullSelection
    ensures value.Some? && MatchShortcut(options, value.value).None? ==> r == Selected(CustomOption(value.value))
    ensures value.Some? && MatchShortcut(options, value.value).Some? ==>
      r == Selected(MatchShortcut(options, value.value).value)
    ensures r.Selected? ==> r.option.value.Some? && IsSameDay(r.option.value.value, value.value)
  {
    if value.None? then NullSelection
    else
      match MatchShortcut(options, value.value)
      case None => Selected(CustomOption(value.value))
      case Some(o) => Selected(o)
  }

  /** The picker's state: the shortcut catalog and the selection. */
  class Picker {
    const options: seq<DateOption>
    var selectedDate: Selection

    constructor (options: seq<DateOption>)
      ensures this.options == options && selectedDate == NullSelection
    {
      this.options := options;
      selectedDate := NullSelection;
    }

    /** The effect run when the `value` prop changes. */
    method OnValueChange(value: Option<Date>)
      modifies this
      ensures selectedDate == SelectionFor(options, value)
    {
      if value.None? {
        selectedDate := NullSelection;
        return;
      }
      var selected := MatchShortcut(options, value.value);
      if selected.None? {
        selectedDate := Selected(CustomOption(value.value));
      } else {
        selectedDate := Selected(selected.value);
      }
    }

    /**
     * `handleChange`: a cleared date selects and emits null; otherwise the
     * date is emitted unchanged and the selection is the matching shortcut,
     * or undefined (not `Custom`) when none matches.
     */
    method HandleChange(value: Option<Date>) returns (emitted: Option<Date>)
      modifies this
      ensures emitted == value
      ensures value.None? ==> selectedDate == NullSelection
      ensures value.Some? && MatchShortcut(options, value.value).Some? ==>
                selectedDate == Selected(MatchShortcut(options, value.value).value)
      ensures value.Some? && MatchShortcut(options, value.value).None? ==> selectedDate == UndefinedSelection
    {
      if value.None? {
        selectedDate := NullSelection;
        emitted := None;
        return;
      }
      var selected := MatchShortcut(options, value.value);
      selectedDate := if selected.Some? then Selected(selected.value) else UndefinedSelection;
      emitted := value;
    }
  }
}
