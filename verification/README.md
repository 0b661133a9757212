# TodoApp core logic in Dafny

A model of the logic underneath the TodoApp React Native screens. The screens
themselves are not modelled. The logic is:

- the todo store: the `todos` SQLite table, the ordered list the home screen
  shows, the draft being edited and the search text;
- the "not blank" validation rule and the way a form field composes its rules
  and its child's props;
- the label, priority and schedule pickers, which resolve stored values
  against catalogs of options and serialise selections back;
- the index lists and sizes the action sheet computes when it opens;
- the schema migration gate run when the app starts;
- the countdown screen's state;
- `getId`.

There is one module per source file. `Wrappers` holds `Option`. `Catalog` holds
what the pickers share: a catalog lookup that behaves like `find`/`findIndex`,
and the `map(item => item.value)` of a selection.

Where the source changes state, the model does too:

- the store, the pickers' selections, the action sheet, the database and the
  countdown screen are classes whose methods update their fields;
- the `reduce`/`forEach` accumulations and the row-id and listing queries are
  methods with loops.

Each of those is proved against pure functions that say what the state must
be. The lemmas below are about those functions.

Modelling decisions:

- **Ids and priorities** are integers. `Number(id)` and `Number(priority)` are
  assumed to receive a numeric string or nothing. An absent id is NULL, which
  SQLite turns into the next row id: one more than the largest key, or 1.
- **Schema.** The `todos` table has the columns of `db/schema.ts:4-15`. The
  id is an integer key, as `Number(id)` and the `INTEGER PRIMARY KEY` of the
  migration make it.
- **Listing order.** `refetchTodos` lists the rows by priority, *descending*,
  with NULL priorities last, because the code calls `desc(todos.priority)`.
  Ties may come in any order.
- **Search.** `onChangeSearchText` records the text and nothing else.
- **Upsert.** On a conflict the update set leaves out every undefined value,
  so a draft field that is undefined keeps the stored column. `title` is
  always defined when a save happens; `priority` (`Number(priority)`) and
  `complete` are always written.
- **Timestamps** are strings passed in by the caller.
- **Catalogs** (`labelOptions`, `priorityOptions`, `dateOptions`) are
  parameters.
- **Dates** are a day index plus a second of the day, so `isSameDay` is
  equality of day indices.
- **JavaScript values** are `Undefined | Null | Num | Str | Bool | Other`, with
  integer numbers only. Falsiness follows JavaScript, so `message || default`
  also falls back on an empty message.
- **Objects** passed as props or rules are maps. A spread `{ ...a, ...b }` is
  the right-biased union `a + b`.
- **Field name.** The `label` column and field is named `labels` (a catalog
  entry's `label` is `labelText`), because `label` is a Dafny keyword.

## Model

| member | source | states |
|---|---|---|
| TodoStore.CompleteFlag | hooks/useTodoStore.ts:120 | `complete ? 1 : 0` is 1 exactly when the draft is complete, else 0 |
| TodoStore.HasTitle | hooks/useTodoStore.ts:108-110 | the save goes ahead exactly when the title is defined and not '' (whitespace counts as a title) |
| TodoStore.NewRow | hooks/useTodoStore.ts:112-122 | the inserted row has the given id, holds every draft field (`complete` as 0/1), is created `now` and has no `updatedAt` |
| TodoStore.UpdatedRow | hooks/useTodoStore.ts:123-134 | on a conflict each defined title, description, label and schedule is written and each undefined one keeps the stored value; priority and `complete` (0/1) are always written; id and `createdAt` stay and `updatedAt` becomes `now` |
| TodoStore.UpdateOfFullDraftHoldsDraft | hooks/useTodoStore.ts:123-134 | an update from a draft whose text fields are all defined stores the draft as it is |
| TodoStore.Upsert | hooks/useTodoStore.ts:112-135 | the insert-or-update leaves exactly the old keys plus `id`. A new id gets a row holding the draft, with `createdAt = now` and no `updatedAt`. An existing id gets the update: defined draft fields written, undefined ones kept, priority and `complete` written, id and `createdAt` kept, `updatedAt = now`. A titled draft's title is always stored. Every other row is unchanged, and rows stay keyed by their id |
| TodoStore.Delete | hooks/useTodoStore.ts:141-144 | exactly the row with that id is removed, the others are unchanged, an absent id leaves the table as it was, and rows stay keyed by id |
| TodoStore.SaveTwice | hooks/useTodoStore.ts:112-135 | saving the same draft under the same id twice leaves one row for that id; the second save only moves `updatedAt` |
| TodoStore.InsertByPriority | hooks/useTodoStore.ts:41 | inserting a row into the listing adds exactly that row |
| TodoStore.InsertByPriorityKeepsOrder | hooks/useTodoStore.ts:41 | inserting keeps the listing ordered by priority descending (NULL last), and keeps ids distinct when the id is new |
| TodoStore.SelectAllByPriority | hooks/useTodoStore.ts:41-47 | the query returns every row of the table once, nothing else, ordered by priority descending |
| TodoStore.NextRowId | hooks/useTodoStore.ts:114 | a row saved without an id gets a key that is not in the table: one more than the largest key, or 1 for an empty table |
| TodoStore.UseTodo | hooks/useTodoStore.ts:65-71 | no id gives `DEFAULT_TODO`; an id gives that row, or undefined when absent |
| TodoStore.SearchStore.OnChangeSearchText | hooks/useTodoStore.ts:22-27 | sets `searchText` and nothing else (starts as '') |
| TodoStore.Store.constructor | hooks/useTodoStore.ts:40-60 | the store starts with the ordered listing of the table, or with `todos = []` when the first query throws; the draft starts as `DEFAULT_TODO` |
| TodoStore.Store.RefetchTodos | hooks/useTodoStore.ts:47 | `todos` becomes the ordered listing of the current table; table and draft are unchanged |
| TodoStore.Store.GetTodo | hooks/useTodoStore.ts:48 | returns the row with that id, or undefined |
| TodoStore.Store.OnChangeTitle | hooks/useTodoStore.ts:99 | changes only the draft's title; table and list are unchanged |
| TodoStore.Store.OnChangeDescription | hooks/useTodoStore.ts:100 | changes only the draft's description |
| TodoStore.Store.OnChangePriority | hooks/useTodoStore.ts:101 | changes only the draft's priority |
| TodoStore.Store.OnChangeLabel | hooks/useTodoStore.ts:102 | changes only the draft's label |
| TodoStore.Store.OnChangeSchedule | hooks/useTodoStore.ts:103 | changes only the draft's schedule |
| TodoStore.Store.ToggleComplete | hooks/useTodoStore.ts:104 | changes only the draft's `complete` |
| TodoStore.Store.SaveTodo | hooks/useTodoStore.ts:105-140 | saves exactly when the title is neither undefined nor '' (whitespace is accepted). Without a title nothing changes. Otherwise: the table is the upsert of the draft under the given id (or under a fresh key), the draft becomes `DEFAULT_TODO`, and `todos` is the refreshed listing |
| TodoStore.Store.DeleteTodo | hooks/useTodoStore.ts:141-147 | the table loses that row (if any), the draft is unchanged, and `todos` is the refreshed listing |
| Rules.MessageOr | utils/Rules.tsx:17-39 | the failure message is the supplied one when non-empty, else 'Value is not blank!'; never empty |
| Rules.IsNotBlankString | utils/Rules.tsx:17-22 | fails exactly on '', with the message |
| Rules.IsNotBlankBoolean | utils/Rules.tsx:24-29 | fails exactly on `false`, with the message |
| Rules.Validate | utils/Rules.tsx:35-49 | fails exactly on undefined, null, '' and `false`, always with the message; every number (0 included) and every other kind passes |
| Rules.IsNotBlank | utils/Rules.tsx:31-53 | the rules are the config's keys plus `validate`; config values win; without a config `validate` the default validator with the given message applies |
| Rules.IsNotBlankRejectsBlank | utils/Rules.tsx:31-53 | without a caller `validate`, the produced rules reject exactly the blank values |
| Rules.ConfigValidateOverrides | utils/Rules.tsx:52 | a `validate` in the config replaces the default validator |
| AppUtil.NatToStringRoundTrip | utils/AppUtil.ts:10-12 | the decimal string of a natural number reads back as that number |
| AppUtil.IntToStringRoundTrip | utils/AppUtil.ts:10-12 | the string `toString` gives for an integer is decimal and reads back as the same integer |
| AppUtil.IntToString | utils/AppUtil.ts:11 | `toString` of an integer starts with '-' exactly for negatives and is canonical: no leading zero and no '-0' |
| AppUtil.CanonicalNatUnique | utils/AppUtil.ts:11 | a canonical digit string is the decimal string of the number it reads as |
| AppUtil.CanonicalIntUnique | utils/AppUtil.ts:11 | a canonical decimal is the `toString` of the integer it reads as, so two integers never share a string and '05' or '-0' is never produced |
| AppUtil.GetId | utils/AppUtil.ts:1-13 | undefined and null give ''; a string is returned unchanged; a number gives its canonical decimal string, which reads back as that number; every other kind gives undefined |
| Catalog.FindIndex | components/label-picker/LabelPickerModal.tsx:37 | the index where `find` stops: the first catalog entry with that value, or -1 when there is none |
| Catalog.FindByValue | components/priority-picker/PriorityPicker.tsx:20 | the first catalog entry with that value, or undefined when no entry has it |
| Catalog.Keys | components/label-picker/LabelPicker.tsx:36 | the selection's values, in order, one per entry |
| LabelPicker.Split | components/label-picker/LabelPicker.tsx:25 | `split(',')` yields at least one part and no part contains a comma |
| LabelPicker.Join | components/label-picker/LabelPicker.tsx:39 | `join(',')` of no keys is '' and of one key is that key; `SplitJoin` is its inverse |
| LabelPicker.SerializeLabels | components/label-picker/LabelPicker.tsx:36-39 | an empty selection emits ''; `SerializeThenParse` says what parsing the emitted string gives |
| LabelPicker.SplitJoin | components/label-picker/LabelPicker.tsx:25-39 | splitting the comma-join of one or more comma-free keys gives the keys back |
| LabelPicker.FilterByKeys | components/label-picker/LabelPicker.tsx:26 | keeps exactly the catalog entries whose key is listed; unknown keys are dropped |
| LabelPicker.FilterByKeysAppend | components/label-picker/LabelPicker.tsx:26 | the filter keeps catalog order: filtering a concatenation is the concatenation of the filtered parts |
| LabelPicker.FilterByKeysCongruent | components/label-picker/LabelPicker.tsx:26 | the filter depends only on which catalog keys are listed, not on order or repetition |
| LabelPicker.ParseLabels | components/label-picker/LabelPicker.tsx:20-29 | a missing or empty value gives no labels; otherwise the catalog entries whose key occurs in `value.split(',')` |
| LabelPicker.ParseLabelsKeepsCatalogOrder | components/label-picker/LabelPicker.tsx:25-26 | the parsed labels come in catalog order, whatever the order of the keys in `value` |
| LabelPicker.SerializeThenParse | components/label-picker/LabelPicker.tsx:25-39 | parsing what `handleChange` emits for a selection of catalog entries gives the catalog entries with the selected keys, in catalog order |
| LabelPicker.SerializeThenParseIdentity | components/label-picker/LabelPicker.tsx:25-39 | a selection already in catalog order round-trips exactly |
| LabelPicker.Picker.OnValueChange | components/label-picker/LabelPicker.tsx:20-29 | the selection becomes the parse of the new value |
| LabelPicker.Picker.HandleChange | components/label-picker/LabelPicker.tsx:35-40 | the selection becomes the argument and the emitted string is its keys joined with ',' |
| LabelPickerModal.MapSet | components/label-picker/LabelPickerModal.tsx:39 | `Map.set` of a new key appends the entry at the end; of an existing key it replaces that entry in place; keys stay distinct |
| LabelPickerModal.MapDelete | components/label-picker/LabelPickerModal.tsx:68 | `Map.delete` drops exactly the entry with that key; keys stay distinct |
| LabelPickerModal.MapDeleteConcat | components/label-picker/LabelPickerModal.tsx:68 | `Map.delete` keeps the insertion order of the other entries: deleting from a concatenation deletes from each part |
| LabelPickerModal.Collect | components/label-picker/LabelPickerModal.tsx:34-41 | the map built from the keys holds the catalog-known keys, in first-occurrence order and without repeats, each mapped to its catalog entry |
| LabelPickerModal.InitialSelection | components/label-picker/LabelPickerModal.tsx:28-44 | a missing value gives an empty map; otherwise the map `Collect` describes for its keys |
| LabelPickerModal.Toggle | components/label-picker/LabelPickerModal.tsx:65-75 | tapping an option whose key is absent appends it at the end; tapping one whose key is present removes that key and keeps the rest in order |
| LabelPickerModal.ToggleFrame | components/label-picker/LabelPickerModal.tsx:66-74 | a tap keeps keys distinct, and every other entry stays, in the same order: deleting the tapped key before or after the tap gives the same map |
| LabelPickerModal.ToggleTwice | components/label-picker/LabelPickerModal.tsx:65-75 | tapping the same option twice restores the key set, and restores the map exactly when the key was absent |
| LabelPickerModal.Modal.OnValueChange | components/label-picker/LabelPickerModal.tsx:28-44 | a missing value gives an empty map; otherwise the `forEach` loop builds the map `Collect` describes |
| LabelPickerModal.Modal.HandleSelect | components/label-picker/LabelPickerModal.tsx:65-75 | the map becomes the toggled copy; keys stay distinct |
| LabelPickerModal.Modal.ConfirmSelect | components/label-picker/LabelPickerModal.tsx:60-63 | emits exactly the current entries in insertion order, with distinct keys |
| PriorityPicker.Lookup | components/priority-picker/PriorityPicker.tsx:19-22 | the first catalog entry equal to the value; undefined when none matches or there is no value |
| PriorityPicker.DisplayLabel | components/priority-picker/PriorityPicker.tsx:40 | shows the selected entry's label when it is non-empty, and 'Select priority' when nothing is selected or the label is empty |
| PriorityPicker.Picker.OnValueChange | components/priority-picker/PriorityPicker.tsx:19-22 | the selection becomes the lookup of the value |
| PriorityPicker.Picker.HandleChange | components/priority-picker/PriorityPicker.tsx:28-33 | the selection becomes the lookup of the argument and the argument is emitted unchanged |
| SchedulePicker.MatchShortcut | components/schedule-picker/SchedulePicker.tsx:26 | the first shortcut that has a date on the same day; entries without a date never match |
| SchedulePicker.SelectionFor | components/schedule-picker/SchedulePicker.tsx:20-39 | no value gives null; when a shortcut falls on the same day, that first matching shortcut is selected; otherwise a 'Custom' option carrying the value |
| SchedulePicker.Picker.OnValueChange | components/schedule-picker/SchedulePicker.tsx:20-39 | the selection becomes the one `SelectionFor` gives |
| SchedulePicker.Picker.HandleChange | components/schedule-picker/SchedulePicker.tsx:45-57 | no date sets null and emits null; a date is emitted unchanged and selects its same-day shortcut, or undefined (not 'Custom') when none matches |
| BaseField.Or | components/form/BaseField.tsx:91 | `a \|\| b` is truthy exactly when one operand is, and is one of them |
| BaseField.IsRequired | components/form/BaseField.tsx:41 | a field is required exactly when the caller's `required` is truthy or its field model has a truthy `required` |
| BaseField.ControllerRules | components/form/BaseField.tsx:40-51 | the rules given to the controller keep every caller rule; without a caller `validate`, one is added exactly when the caller or the field model marks the field required, and it is the default not-blank validator; a field required by neither gets exactly the caller's rules |
| BaseField.CurrentRules | components/form/BaseField.tsx:40-47 | the rules are the caller's plus `validate` exactly when the field is required. Caller values win. A required field without a caller `validate` gets the default not-blank validator. An optional field gets exactly the caller's rules, or none |
| BaseField.RequiredFieldRejectsBlank | components/form/BaseField.tsx:41-47 | a required field without a caller `validate` rejects exactly the blank values, with 'Value is not blank!' |
| BaseField.OptionalFieldKeepsCallerRules | components/form/BaseField.tsx:40 | an optional field's rules are the caller's or `{}` |
| BaseField.IsError | components/form/BaseField.tsx:88 | `isError` holds exactly when there is a field error with a message |
| BaseField.StripBaseProps | components/form/BaseField.tsx:77-85 | the copy is the props minus children, name, required, rules, the two style keys and onChange, with the same values |
| BaseField.OwnProps | components/form/BaseField.tsx:88-92 | the binder's own props: `isError` is whether the error has a message, `value` the watched value, `control` the form's; `readOnly` is truthy exactly when the field model, the caller or the form says so; `disabled` is the form's |
| BaseField.ChildProps | components/form/BaseField.tsx:87-97 | the child's `onChange` and `onBlur` are always the binder's; every other key takes the caller's value, else the field model's, else the binder's own |
| BaseField.RenderContent | components/form/BaseField.tsx:76-98 | the child receives the composition `ChildProps` describes, over the stripped props and the named field's model. So the stripped keys reach the child only from the field model. `onChange`/`onBlur` are the binder's. `isError` and `value` are the binder's unless the field model or the caller sets them |
| BaseField.HandleChange | components/form/BaseField.tsx:66-69 | forwards the same arguments to the form controller first, then to the caller's `onChange` when there is one |
| ActionSheet.IsTablet | components/action-sheet/BaseActionSheet.tsx:18 | a tablet is a window at least 744 points wide and 744 high |
| ActionSheet.ContainerHeight | components/action-sheet/BaseActionSheet.tsx:27 | each item adds one button of 61 points plus a half-point border above and below; the header's height is added once |
| ActionSheet.Options | components/action-sheet/BaseActionSheet.tsx:41 | the item titles, in order, one per item |
| ActionSheet.IndicesWhere | components/action-sheet/BaseActionSheet.tsx:43-49 | the `reduce` collects, in increasing order, exactly the indices of the items that satisfy the test |
| ActionSheet.DestructiveButtonIndex | components/action-sheet/BaseActionSheet.tsx:43-49 | exactly the indices of destructive items, increasing |
| ActionSheet.DisabledButtonIndices | components/action-sheet/BaseActionSheet.tsx:53-59 | exactly the indices of disabled items, increasing |
| ActionSheet.ExactIndicesUnique | components/action-sheet/BaseActionSheet.tsx:43-59 | the index lists are fully determined by the items |
| ActionSheet.CancelButtonIndex | components/action-sheet/BaseActionSheet.tsx:51 | the first cancel item's index, or -1 when there is none |
| ActionSheet.CancelItem | components/action-sheet/BaseActionSheet.tsx:100 | the cancel item `find` returns is the one at the cancel index |
| ActionSheet.Buttons | components/action-sheet/BaseActionSheet.tsx:84 | the buttons are exactly the non-cancel items |
| ActionSheet.ButtonsAppend | components/action-sheet/BaseActionSheet.tsx:84 | the filter keeps the items' order |
| ActionSheet.ButtonsDropCancel | components/action-sheet/BaseActionSheet.tsx:51-84 | the filter drops exactly the cancel items, and none when the cancel index is -1 |
| ActionSheet.ItemCount | components/action-sheet/BaseActionSheet.tsx:86 | the number of buttons on a tablet, the number of items otherwise |
| ActionSheet.SheetFor | components/action-sheet/BaseActionSheet.tsx:84-130 | the modal draws the non-cancel rows; a header exactly when the title is non-empty, laid out for `ItemCount` rows; and on a phone the cancel item `find` returns as the cancel row, none on a tablet |
| ActionSheet.HeaderCountsDrawnRows | components/action-sheet/BaseActionSheet.tsx:86-113 | the header's row count equals the rows drawn on a tablet, and on a phone exactly when there is at most one cancel item |
| ActionSheet.PressedAction | components/action-sheet/BaseActionSheet.tsx:73-75 | the native callback runs the pressed item's `onPress`, and nothing for an index outside the items |
| ActionSheet.BaseActionSheet.OnHeaderLayout | components/action-sheet/BaseActionSheet.tsx:25-29 | a header of height h ≠ 0 sets the container height to items·62 + h; h = 0 leaves it unchanged |
| ActionSheet.BaseActionSheet.OnClose | components/action-sheet/BaseActionSheet.tsx:35-37 | hides the sheet; the container height and the sheet's content stay |
| ActionSheet.BaseActionSheet.Open | components/action-sheet/BaseActionSheet.tsx:39-132 | on iOS: a native request with the titles, exact destructive and disabled index lists, the cancel index, title and message, and nothing else changes. Elsewhere: the modal sheet is set and made visible |
| Migration.CreateTable | drizzle/MigrationScript.ts:15-28 | each version-0 step switches to WAL and creates its table, failing when the table already exists |
| Migration.Migrate | drizzle/MigrationScript.ts:3-34 | a version ≥ 1 is left untouched. Version 0 succeeds exactly when none of todos, priorities, labels exists, and then adds all three and stamps version 1. A negative version creates nothing and is stamped 1. A failure leaves version 0 |
| Migration.MigrateIdempotent | drizzle/MigrationScript.ts:10-33 | running the migration twice is the same as running it once, failures included |
| Migration.Database.Exec | drizzle/MigrationScript.ts:15-28 | one `execAsync` step changes the database as `CreateTable` says |
| Migration.Database.MigrateDbIfNeeded | drizzle/MigrationScript.ts:3-34 | the step-by-step migration ends in the state and outcome `Migrate` gives |
| Focus.SelectedTime | app/focus.tsx:28-33 | h·3600 + m·60 + s for a clock time lies in [0, 86399] and gives back h, m and s |
| Focus.SelectedTimeInjective | app/focus.tsx:33 | different clock times give different durations |
| Focus.CountdownScreen.constructor | app/focus.tsx:14-18 | starts with time 0, key 0, not running |
| Focus.CountdownScreen.OnConfirmSelectTime | app/focus.tsx:28-38 | `time` and `currentTime` become the selected duration and `key` goes up by exactly 1 |
| Focus.CountdownScreen.HandleStart | app/focus.tsx:40-42 | sets running; nothing else changes |
| Focus.CountdownScreen.HandleStop | app/focus.tsx:44-46 | clears running; nothing else changes |
| Focus.CountdownScreen.HandleReset | app/focus.tsx:48-53 | `time` returns to the last confirmed duration (0 if none), the timer stops and `key` goes up by 1; `time` always equals the last confirmed duration |

## Left out

- All rendering, styling, layout and navigation. This covers sheets, modals,
  `renderError`, label widths, the dark-mode colours, `width * 0.45` and
  other float layout maths. Window and header sizes are whole numbers.
- Real clocks and date libraries. `new Date().toISOString()` is the `now`
  parameter. `isSameDay` is day-index equality. Parsing `new Date(value)` is
  not modelled: the schedule picker receives the parsed date.
- SQL text and the drizzle query builder. The table is a map, `desc` ordering
  is a sorted list, and `execAsync` is a state change.
- TodoStore.Store.RefetchTodos: `getTodo` calls `where` on the same query
  builder `refetchTodos` uses. With drizzle's mutable builder, a refetch after a
  `getTodo` would keep that filter and list only that row. The model does not
  capture this sharing; every refetch lists the whole table.
- AppUtil.GetId: numbers are integers only. Exponent notation from 1e21 on,
  fractions, NaN, and integers beyond 2^53 that doubles cannot hold exactly
  are not modelled.
- TodoStore.Store.SaveTodo: `Number(undefined)` for an absent `priority`
  gives NaN, which is not modelled; the priority is an optional integer.
  A non-numeric id or priority string is not modelled either.
- TodoStore.SelectAllByPriority: rows of equal priority may come in any order.
  The order the database engine returns them in is not modelled.
- TodoStore.Store.constructor: a query that throws only at construction is a
  parameter (`queryFails`). Later refetches are assumed to succeed.
- The two-argument calls `toggleComplete(id, value)` and `saveTodo(id, values)`
  made by the create/update modal do not match the one-argument store actions.
  The store is modelled as written.
- `typeOf`, `resetFormData` and `getRemainTime` are not part of this model.
  The rule's kind switch assumes `typeOf` names the kinds 'undefined',
  'null', 'number', 'string' and 'boolean'.
- BaseForm (form submit, reset, dirty state) is not part of this model. Of
  react-hook-form, only the controller calls `handleChange` makes are kept.
  Caller-supplied rules other than the not-blank validator are opaque and
  pass in `RunRule`.
- BaseField.RenderContent: a field without `children` renders nothing; the
  model assumes `children` is present.
- The search input's debounce timer, calendar integration, AsyncStorage,
  theming, and font and asset loading.
- The label, priority and date catalogs are parameters. Their contents, and
  the now-relative dates of the schedule shortcuts, are not modelled.
- ActionSheet.BaseActionSheet.Open: the native sheet's presentation options
  (anchor, tint colour, interface style) are passed through unmodelled, as
  are the `onPress` callbacks themselves (only their tags are kept).
- Migration.Migrate: the journal-mode pragma is modelled as a flag, and the
  column definitions of the created tables are not modelled.
