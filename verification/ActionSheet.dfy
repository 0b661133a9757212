/**
 * components/action-sheet/BaseActionSheet.tsx: one options object opens
 * either the native iOS action sheet (a request carrying titles and index
 * lists) or, elsewhere, a modal sheet drawn from the non-cancel items with a
 * separate cancel row on phones.
 * Window dimensions and layout heights are whole numbers here.
 */
module ActionSheet {
  import opened Wrappers

  const TabletMinWidth: int := 744
  const ButtonHeight: int := 61
  /** `BUTTON_HEIGHT + BORDER_WIDTH * 2` with a border of half a point. */
  const RowHeight: int := 62

  /** An item's `buttonType`; `NoType` is an absent one. */
  datatype ButtonType = NoType | DefaultButton | Destructive | Cancel

  /** An entry of `items`; `onPress` is an opaque callback tag. */
  datatype Item = Item(title: string, buttonType: ButtonType, disabled: bool, onPress: Option<nat>)

  datatype SheetOptions = SheetOptions(title: Option<string>, items: seq<Item>, message: Option<string>)

  /** A tablet is a window at least 744 points wide and high. */
  function IsTablet(width: int, height: int): (b: bool)
    ensures b <==> width >= 744 && height >= 744
    ensures b ==> width >= TabletMinWidth
  {
    width >= TabletMinWidth && height >= TabletMinWidth
  }

  /** `items.map(item => item.title)`. */
  function Options(items: seq<Item>): (r: seq<string>)
    ensures |r| == |items|
    ensures forall i :: 0 <= i < |items| ==> r[i] == items[i].title
  {
    if items == [] then [] else [items[0].title] + Options(items[1..])
  }

  predicate IsDestructive(item: Item) { item.buttonType == Destructive }
  predicate IsDisabled(item: Item) { item.disabled }
  predicate IsCancel(item: Item) { item.buttonType == Cancel }

  /** `acc` lists, in increasing order, exactly the indices of the items satisfying `p`. */
  ghost predicate ExactIndices(acc: seq<int>, items: seq<Item>, p: Item -> bool) {
    && (forall i, j :: 0 <= i < j < |acc| ==> acc[i] < acc[j])
    && (forall k :: k in acc <==> 0 <= k < |items| && p(items[k]))
  }

  /** The `reduce` that pushes the index of every item satisfying `p`. */
  method IndicesWhere(items: seq<Item>, p: Item -> bool) returns (acc: seq<int>)
    ensures ExactIndices(acc, items, p)
  {
    acc := [];
    for index := 0 to |items|
      invariant forall i, j :: 0 <= i < j < |acc| ==> acc[i] < acc[j]
      invariant forall k :: k in acc <==> 0 <= k < index && p(items[k])
      invariant forall i :: 0 <= i < |acc| ==> acc[i] < index
    {
      if p(items[index]) {
        acc := acc + [index];
      }
    }
  }

  /** `destructiveButtonIndex`: every destructive item's index, ascending. */
  method DestructiveButtonIndex(items: seq<Item>) returns (acc: seq<int>)
    ensures ExactIndices(acc, items, IsDestructive)
  {
    acc := IndicesWhere(items, IsDestructive);
  }

  /** `disabledButtonIndices`: every disabled item's index, ascending. */
  method DisabledButtonIndices(items: seq<Item>) returns (acc: seq<int>)
    ensures ExactIndices(acc, items, IsDisabled)
  {
    acc := IndicesWhere(items, IsDisabled);
  }

  /** The index lists are determined by the items: two that satisfy `ExactIndices` are equal. */
  lemma ExactIndicesUnique(a: seq<int>, b: seq<int>, items: seq<Item>, p: Item -> bool)
    requires ExactIndices(a, items, p) && ExactIndices(b, items, p)
    ensures a == b
  {
    SortedSameElements(a, b);
  }

  lemma EmptyOrHasFirst(s: seq<int>)
    ensures s == [] || s[0] in s
  {
  }

  lemma {:induction false} SortedSameElements(a: seq<int>, b: seq<int>)
    requires forall i, j :: 0 <= i < j < |a| ==> a[i] < a[j]
    requires forall i, j :: 0 <= i < j < |b| ==> b[i] < b[j]
    requires forall k :: k in a <==> k in b
    ensures a == b
    decreases |a|
  {
    EmptyOrHasFirst(a);
    EmptyOrHasFirst(b);
    if a != [] && b != [] {
      assert a[0] in b && b[0] in a;
      assert a[0] == b[0];
      forall k
        ensures k in a[1..] <==> k in b[1..]
      {
        if k in a[1..] {
          assert k in a && k != a[0];
          assert k in b[1..];
        }
        if k in b[1..] {
          assert k in b && k != b[0];
          assert k in a[1..];
        }
      }
      SortedSameElements(a[1..], b[1..]);
      assert a == [a[0]] + a[1..] && b == [b[0]] + b[1..];
    }
  }

  /** `items.findIndex(item => item?.buttonType === 'cancel')`: the first cancel item, or -1. */
  function CancelButtonIndex(items: seq<Item>): (r: int)
    ensures -1 <= r < |items|
    ensures r == -1 <==> forall i :: 0 <= i < |items| ==> !IsCancel(items[i])
    ensures r >= 0 ==> IsCancel(items[r]) && forall i :: 0 <= i < r ==> !IsCancel(items[i])
  {
    if items == [] then -1
    else if IsCancel(items[0]) then 0
    else
      var r := CancelButtonIndex(items[1..]);
      if r == -1 then -1 else r + 1
  }

  /** `items.find(item => item?.buttonType === 'cancel')`. */
  function CancelItem(items: seq<Item>): (r: Option<Item>)
    ensures r.Some? <==> CancelButtonIndex(items) >= 0
    ensures r.Some? ==> r.value == items[CancelButtonIndex(items)]
  {
    if items == [] then None
    else if IsCancel(items[0]) then Some(items[0])
    else CancelItem(items[1..])
  }

  /** `items.filter(item => item?.buttonType !== 'cancel')`. */
  function Buttons(items: seq<Item>): (r: seq<Item>)
    ensures |r| <= |items|
    ensures forall x :: x in r <==> x in items && !IsCancel(x)
  {
    if items == [] then []
    else if IsCancel(items[0]) then Buttons(items[1..])
    else [items[0]] + Buttons(items[1..])
  }

  /** The number of cancel items. */
  function CountCancel(items: seq<Item>): nat {
    if items == [] then 0 else (if IsCancel(items[0]) then 1 else 0) + CountCancel(items[1..])
  }

  /** Filtering keeps the order: it distributes over concatenation. */
  lemma {:induction false} ButtonsAppend(a: seq<Item>, b: seq<Item>)
    ensures Buttons(a + b) == Buttons(a) + Buttons(b)
    decreases |a|
  {
    if a != [] {
      assert (a + b)[1..] == a[1..] + b;
      ButtonsAppend(a[1..], b);
    } else {
      assert a + b == b;
    }
  }

  /** The filter removes exactly the cancel items, and none when the cancel index is -1. */
  lemma {:induction false} ButtonsDropCancel(items: seq<Item>)
    ensures |Buttons(items)| + CountCancel(items) == |items|
    ensures CountCancel(items) == 0 <==> CancelButtonIndex(items) == -1
    ensures CancelButtonIndex(items) == -1 ==> Buttons(items) == items
  {
    if items != [] {
      ButtonsDropCancel(items[1..]);
      assert items == [items[0]] + items[1..];
    }
  }

  /** `itemCount`: the rows the header height is computed for. */
  function ItemCount(items: seq<Item>, tablet: bool): (r: nat)
    ensures r <= |items|
    ensures tablet ==> r == |Buttons(items)|
    ensures !tablet ==> r == |items|
  {
    if tablet then |Buttons(items)| else |items|
  }

  /** `containerHeight` for a header laid out at `headerHeight`. */
  function ContainerHeight(items: int, headerHeight: int): (r: int)
    ensures r == items * ButtonHeight + items + headerHeight
    ensures items >= 0 ==> r >= headerHeight
    ensures items > 0 ==> r - headerHeight >= items * ButtonHeight
  {
    items * RowHeight + headerHeight
  }

  /** The request handed to `ActionSheetIOS.showActionSheetWithOptions`. */
  datatype NativeRequest = NativeRequest(
    options: seq<string>, destructiveButtonIndex: seq<int>, cancelButtonIndex: int,
    disabledButtonIndices: seq<int>, title: Option<string>, message: Option<string>)

  /**
   * The modal sheet: a header (when the title is non-empty) laid out for
   * `headerItems` rows, the non-cancel rows, and the cancel row if shown.
   */
  datatype Sheet = Sheet(headerItems: Option<nat>, rows: seq<Item>, cancelRow: Option<Item>)

  /** The modal sheet `open` builds off iOS. */
  function SheetFor(option: SheetOptions, tablet: bool): (s: Sheet)
    ensures s.rows == Buttons(option.items)
    ensures s.cancelRow.Some? <==> !tablet && CancelButtonIndex(option.items) >= 0
    ensures s.headerItems.Some? <==> option.title.Some? && option.title.value != ""
    ensures s.headerItems.Some? ==> s.headerItems.value == ItemCount(option.items, tablet)
    ensures s.cancelRow == (if tablet then None else CancelItem(option.items))
  {
    var itemCount := ItemCount(option.items, tablet);
    var cancelItem := CancelItem(option.items);
    Sheet(
      if option.title.Some? && option.title.value != "" then Some(itemCount) else None,
      Buttons(option.items),
      if cancelItem.Some? && !tablet then cancelItem else None)
  }

  /**
   * The header is sized for the rows the sheet draws: the non-cancel rows on
   * a tablet, and on a phone the non-cancel rows plus the cancel row, as
   * long as there is at most one cancel item (each further one is counted
   * but not drawn).
   */
  lemma HeaderCountsDrawnRows(option: SheetOptions, tablet: bool)
    requires option.title.Some? && option.title.value != ""
    ensures var s := SheetFor(option, tablet);
      var drawn := |s.rows| + (if s.cancelRow.Some? then 1 else 0);
      && (tablet ==> s.headerItems == Some(drawn))
      && (!tablet ==> (s.headerItems == Some(drawn) <==> CountCancel(option.items) <= 1))
  {
    ButtonsDropCancel(option.items);
  }

  /** The native sheet's `buttonIndex` callback: the pressed item's `onPress`, if any. */
  function PressedAction(items: seq<Item>, buttonIndex: int): (r: Option<nat>)
    ensures r.Some? ==> 0 <= buttonIndex < |items| && r == items[buttonIndex].onPress
    ensures 0 <= buttonIndex < |items| ==> r == items[buttonIndex].onPress
  {
    if 0 <= buttonIndex < |items| then items[buttonIndex].onPress else None
  }

  /** The mounted action sheet: its window, visibility, container height and modal content. */
  class BaseActionSheet {
    const ios: bool
    const width: int
    const height: int
    var visible: bool
    var containerHeight: int
    var component: Option<Sheet>

    constructor (ios: bool, width: int, height: int)
      ensures this.ios == ios && this.width == width && this.height == height
      ensures !visible && containerHeight == 0 && component.None?
    {
      this.ios := ios;
      this.width := width;
      this.height := height;
      visible := false;
      containerHeight := 0;
      component := None;
    }

    /** `onHeaderLayout(items)`: a laid-out header of non-zero height resizes the container. */
    method OnHeaderLayout(items: int, headerHeight: int)
      modifies this
      ensures headerHeight != 0 ==> containerHeight == ContainerHeight(items, headerHeight)
      ensures headerHeight == 0 ==> containerHeight == old(containerHeight)
      ensures visible == old(visible) && component == old(component)
    {
      if headerHeight != 0 {
        containerHeight := items * (ButtonHeight + 1) + headerHeight;
      }
    }

    /** `onClose`. */
    method OnClose()
      modifies this
      ensures !visible
      ensures containerHeight == old(containerHeight) && component == old(component)
    {
      visible := false;
    }

    /**
     * `open(option)`: on iOS, the native request for the items and nothing
     * else changes; elsewhere, the modal sheet is set and shown.
     */
    method Open(option: SheetOptions) returns (request: Option<NativeRequest>)
      modifies this
      ensures ios ==> request.Some? && unchanged(this)
      ensures ios ==> var q := request.value;
        && q.options == Options(option.items)
        && ExactIndices(q.destructiveButtonIndex, option.items, IsDestructive)
        && q.cancelButtonIndex == CancelButtonIndex(option.items)
        && ExactIndices(q.disabledButtonIndices, option.items, IsDisabled)
        && q.title == option.title && q.message == option.message
      ensures !ios ==> request.None? && visible
      ensures !ios ==> component == Some(SheetFor(option, IsTablet(width, height)))
      ensures !ios ==> containerHeight == old(containerHeight)
    {
      if ios {
        var options := Options(option.items);
        var destructiveButtonIndex := DestructiveButtonIndex(option.items);
        var cancelButtonIndex := CancelButtonIndex(option.items);
        var disabledButtonIndices := DisabledButtonIndices(option.items);
        request := Some(NativeRequest(options, destructiveButtonIndex, cancelButtonIndex,
                                      disabledButtonIndices, option.title, option.message));
      } else {
        component := Some(SheetFor(option, IsTablet(width, height)));
        visible := true;
        request := None;
      }
    }
  }
}
