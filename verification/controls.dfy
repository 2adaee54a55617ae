/**
 * The small decisions of the edit-baseline table: which icon a column's
 * sort button shows, which sort action a header click routes to, and
 * whether the empty-state panel reports a fetch error.
 */
module TableControls {
  import opened Wrappers
  import Decimal

  /**
   * A column's sort prop: equal to the ASC constant, equal to the DESC
   * constant, or anything else (no sort).
   */
  datatype SortOrder = Ascending | Descending | Unsorted

  /** Up arrow, down arrow, or the two-headed neutral arrow. */
  datatype SortIcon = ArrowUp | ArrowDown | ArrowsUpDown

  /** The icon `renderSortButton` returns for a sort prop. */
  function SortButton(sort: SortOrder): (icon: SortIcon)
    ensures icon == ArrowUp <==> sort == Ascending
    ensures icon == ArrowDown <==> sort == Descending
    ensures icon == ArrowsUpDown <==> sort == Unsorted
  {
    match sort
    case Ascending => ArrowUp
    case Descending => ArrowDown
    case Unsorted => ArrowsUpDown
  }

  /** The up and down arrows carry the highlighted style, the neutral one does not. */
  predicate IconHighlighted(icon: SortIcon) {
    icon != ArrowsUpDown
  }

  /**
   * The button is highlighted exactly when the column is sorted, and the
   * icon tells the three sort orders apart (any two props that are neither
   * ASC nor DESC share the neutral icon).
   */
  lemma SortButtonReflectsSort(a: SortOrder, b: SortOrder)
    ensures IconHighlighted(SortButton(a)) <==> a != Unsorted
    ensures SortButton(a) == SortButton(b) <==> a == b
  {
  }

  /** The two sort actions of the table's props. */
  datatype SortHandler = ToggleNameSort | ToggleValueSort

  /** A call of one sort action with the sort prop it is given. */
  datatype SortCall = SortCall(handler: SortHandler, sort: SortOrder)

  /** `toggleSort(sortType, sort)`: the name action for `'name'`, the value action otherwise. */
  function ToggleSort(sortType: string, sort: SortOrder): (call: SortCall)
    ensures call.handler == ToggleNameSort <==> sortType == "name"
    ensures call.handler == ToggleValueSort <==> sortType != "name"
    ensures call.sort == sort
  {
    if sortType == "name" then SortCall(ToggleNameSort, sort) else SortCall(ToggleValueSort, sort)
  }

  /** The two panels `renderEmptyState` can show. */
  datatype EmptyState = BaselineErrorPanel(error: string) | EmptyBaselinePanel

  /**
   * `renderEmptyState`: the error panel, whose error line is
   * `'Error ' + status + ': ' + detail`, when the fetch status is defined
   * and not 200; the empty-baseline panel otherwise (no status, or 200).
   */
  function RenderEmptyState(status: Option<int>, detail: string): (panel: EmptyState)
    ensures panel.BaselineErrorPanel? <==> status.Some? && status.value != 200
    ensures panel.BaselineErrorPanel? ==>
              panel.error == "Error " + Decimal.IntText(status.value) + ": " + detail
  {
    if status != Some(200) && status != None then
      BaselineErrorPanel("Error " + Decimal.IntText(status.value) + ": " + detail)
    else
      EmptyBaselinePanel
  }

  /** For the same detail text, two different failing statuses give two different error lines. */
  lemma ErrorLineNamesStatus(a: int, b: int, detail: string)
    requires a != 200 && b != 200
    ensures RenderEmptyState(Some(a), detail) == RenderEmptyState(Some(b), detail) <==> a == b
  {
    var ta, tb := Decimal.IntText(a), Decimal.IntText(b);
    var ea, eb := "Error " + ta + ": " + detail, "Error " + tb + ": " + detail;
    if RenderEmptyState(Some(a), detail) == RenderEmptyState(Some(b), detail) {
      assert ea == eb;
      assert |ta| == |tb|;
      assert ea[6..6 + |ta|] == ta;
      assert eb[6..6 + |tb|] == tb;
      Decimal.IntTextInjective(a, b);
    }
  }
}
