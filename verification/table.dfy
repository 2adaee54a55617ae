/**
 * The rows of the edit-baseline table: the header row, and for each fact of
 * the table data its group of body rows. A category's group is its own row
 * followed, when the category's name is among the expanded rows, by one
 * nested row per sub-fact. A checkbox column is present only with the
 * baseline write permission.
 */
module FactTable {
  import opened Wrappers
  import opened BaselineFacts
  import opened TableControls
  import Decimal

  /**
   * A rendered checkbox: its DOM id, its `name` attribute (the fact id as
   * text, read back with `Number` by the selection handler) and whether it
   * is checked.
   */
  datatype Checkbox = Checkbox(domId: string, name: string, isChecked: bool)

  /**
   * What a body row shows: a category (with its expand arrow pointing down
   * when expanded, right otherwise; a click expands or collapses that
   * name), a top-level leaf fact, or a sub-fact nested under a category.
   */
  datatype RowKind = CategoryRow(isExpanded: bool) | LeafRow | SubFactRow

  /** The value column: empty on a category's own row, else the fact's value. */
  datatype ValueCell = EmptyCell | ValueOf(value: FactValue)

  /**
   * A body row: optional checkbox cell, the name cell, the value cell, and
   * the actions menu cell (built by a helper outside this model, counted as
   * one cell).
   */
  datatype Row = Row(checkbox: Option<Checkbox>, kind: RowKind, name: string, value: ValueCell)

  /** Nesting depth: sub-fact rows sit one level under their category. */
  function Depth(r: Row): nat {
    if r.kind.SubFactRow? then 1 else 0
  }

  function CellCount(r: Row): nat {
    (if r.checkbox.Some? then 1 else 0) + 3
  }

  const CategoryIdPrefix: string := "category-"
  const FactIdPrefix: string := "fact-"

  /**
   * `renderCheckbox`'s DOM id: the kind prefix (`'category-'` for a category,
   * `'fact-'` for a string-valued fact) followed by text that reads back as
   * the fact's id.
   */
  function CheckboxDomId(f: Fact): (domId: string)
    ensures IsCategory(f) ==> |CategoryIdPrefix| < |domId| && domId[..|CategoryIdPrefix|] == CategoryIdPrefix
    ensures !IsCategory(f) ==> |FactIdPrefix| < |domId| && domId[..|FactIdPrefix|] == FactIdPrefix
    ensures Decimal.ParseInt(domId[if IsCategory(f) then |CategoryIdPrefix| else |FactIdPrefix|..]) == f.id
  {
    var text := Decimal.IntText(f.id);
    Decimal.IntTextRoundTrip(f.id);
    var domId := if IsCategory(f) then CategoryIdPrefix + text else FactIdPrefix + text;
    assert domId[if IsCategory(f) then |CategoryIdPrefix| else |FactIdPrefix|..] == text;
    domId
  }

  /**
   * The checkbox cell of a fact's row: present exactly with write
   * permission, carrying the fact's DOM id, a name that reads back as the
   * fact's id, and the fact's own `selected` flag as its checked state.
   */
  function CheckboxCell(f: Fact, baselinesWrite: bool): (cell: Option<Checkbox>)
    ensures cell.Some? <==> baselinesWrite
    ensures cell.Some? ==>
              && cell.value.domId == CheckboxDomId(f)
              && Decimal.ParseInt(cell.value.name) == f.id
              && cell.value.isChecked == f.selected
  {
    Decimal.IntTextRoundTrip(f.id);
    if baselinesWrite then Some(Checkbox(CheckboxDomId(f), Decimal.IntText(f.id), f.selected)) else None
  }

  function SubFactRowOf(sub: Fact, baselinesWrite: bool): Row {
    Row(CheckboxCell(sub, baselinesWrite), SubFactRow, sub.name, ValueOf(sub.value))
  }

  function SubFactRows(subs: seq<Fact>, baselinesWrite: bool): seq<Row> {
    seq(|subs|, k requires 0 <= k < |subs| => SubFactRowOf(subs[k], baselinesWrite))
  }

  /** The rows `renderRowData` produces for one fact of the table data. */
  function FactRows(fact: Fact, expandedRows: seq<string>, baselinesWrite: bool): seq<Row> {
    match fact.value
    case Category(subs) =>
      [Row(CheckboxCell(fact, baselinesWrite), CategoryRow(fact.name in expandedRows), fact.name, EmptyCell)]
      + (if fact.name in expandedRows then SubFactRows(subs, baselinesWrite) else [])
    case Leaf(_) =>
      [Row(CheckboxCell(fact, baselinesWrite), LeafRow, fact.name, ValueOf(fact.value))]
  }

  /**
   * `renderRowData`: the fact's own row, then, for an expanded category,
   * one row per sub-fact pushed in sub-fact order.
   */
  method RenderRowData(fact: Fact, expandedRows: seq<string>, baselinesWrite: bool) returns (rows: seq<Row>)
    ensures rows == FactRows(fact, expandedRows, baselinesWrite)
  {
    rows := [];
    var checkbox := CheckboxCell(fact, baselinesWrite);
    if IsCategory(fact) {
      var expanded := fact.name in expandedRows;
      rows := rows + [Row(checkbox, CategoryRow(expanded), fact.name, EmptyCell)];
      if expanded {
        var subs := SubFacts(fact);
        ghost var head, all := rows, SubFactRows(subs, baselinesWrite);
        for j := 0 to |subs|
          invariant rows == head + all[..j]
        {
          var row := SubFactRowOf(subs[j], baselinesWrite);
          assert all[..j + 1] == all[..j] + [row];
          rows := rows + [row];
        }
        assert all[..|subs|] == all;
      }
    } else {
      rows := rows + [Row(checkbox, LeafRow, fact.name, ValueOf(fact.value))];
    }
  }

  /**
   * `renderRows`: one row group per fact of the table data, in the data's
   * order; no facts, no groups.
   */
  method RenderRows(tableData: seq<Fact>, expandedRows: seq<string>, baselinesWrite: bool)
    returns (rows: seq<seq<Row>>)
    ensures |rows| == |tableData|
    ensures forall i :: 0 <= i < |tableData| ==> rows[i] == FactRows(tableData[i], expandedRows, baselinesWrite)
  {
    rows := [];
    if |tableData| != 0 {
      for i := 0 to |tableData|
        invariant |rows| == i
        invariant forall k :: 0 <= k < i ==> rows[k] == FactRows(tableData[k], expandedRows, baselinesWrite)
      {
        var rowData := RenderRowData(tableData[i], expandedRows, baselinesWrite);
        rows := rows + [rowData];
      }
    }
  }

  /** The header row: optional checkbox column, the Fact and Value sort headers, and a blank cell. */
  datatype HeaderRow = HeaderRow(checkColumn: bool, nameIcon: SortIcon, valueIcon: SortIcon,
                                 onNameClick: SortCall, onValueClick: SortCall)

  /**
   * `renderHeaderRow`: a checkbox column exactly with write permission, so
   * three or four cells; a click on the Fact header calls the name sort
   * action, and one on the Value header the value sort action, each with its
   * own column's sort prop.
   */
  function RenderHeaderRow(baselinesWrite: bool, nameSort: SortOrder, valueSort: SortOrder): (h: HeaderRow)
    ensures h.checkColumn <==> baselinesWrite
    ensures HeaderCellCount(h) == if baselinesWrite then 4 else 3
    ensures h.onNameClick == SortCall(ToggleNameSort, nameSort)
    ensures h.onValueClick == SortCall(ToggleValueSort, valueSort)
    ensures h.nameIcon == SortButton(nameSort) && h.valueIcon == SortButton(valueSort)
  {
    HeaderRow(baselinesWrite, SortButton(nameSort), SortButton(valueSort),
              ToggleSort("name", nameSort), ToggleSort("value", valueSort))
  }

  function HeaderCellCount(h: HeaderRow): nat {
    (if h.checkColumn then 1 else 0) + 3
  }

  // ---------------------------------------------------------------------
  // Lemmas.

  /** A leaf fact gets exactly one row, at depth 0, holding its name and value. */
  lemma LeafRows(fact: Fact, expandedRows: seq<string>, baselinesWrite: bool)
    requires fact.value.Leaf?
    ensures var rows := FactRows(fact, expandedRows, baselinesWrite);
            && |rows| == 1
            && rows[0].kind == LeafRow && Depth(rows[0]) == 0
            && rows[0].name == fact.name && rows[0].value == ValueOf(fact.value)
  {
  }

  /**
   * A category gets its own row with an empty value cell, then one depth-1
   * row per sub-fact, in sub-fact order, if and only if its name is expanded.
   */
  lemma CategoryRows(fact: Fact, expandedRows: seq<string>, baselinesWrite: bool)
    requires fact.value.Category?
    ensures var rows := FactRows(fact, expandedRows, baselinesWrite);
            var subs := fact.value.subFacts;
            && |rows| == 1 + (if fact.name in expandedRows then |subs| else 0)
            && rows[0].kind == CategoryRow(fact.name in expandedRows) && Depth(rows[0]) == 0
            && rows[0].name == fact.name && rows[0].value == EmptyCell
            && forall k :: 0 < k < |rows| ==>
                 && rows[k].kind == SubFactRow && Depth(rows[k]) == 1
                 && rows[k].name == subs[k - 1].name && rows[k].value == ValueOf(subs[k - 1].value)
  {
  }

  /** Row `k` of a fact's group shows `GroupMember(fact, k)` (the fact, then its sub-facts): its name and its checkbox. */
  lemma RowsShowTheirFacts(fact: Fact, expandedRows: seq<string>, baselinesWrite: bool, k: nat)
    requires k < |FactRows(fact, expandedRows, baselinesWrite)|
    ensures k <= |SubFacts(fact)|
    ensures FactRows(fact, expandedRows, baselinesWrite)[k].name == GroupMember(fact, k).name
    ensures FactRows(fact, expandedRows, baselinesWrite)[k].checkbox == CheckboxCell(GroupMember(fact, k), baselinesWrite)
  {
    if k > 0 {
      assert FactRows(fact, expandedRows, baselinesWrite)[k] == SubFactRowOf(SubFacts(fact)[k - 1], baselinesWrite);
    }
  }

  /**
   * Every row of a fact's group has a checkbox exactly when writing is
   * permitted, named by the id of the fact the row shows, showing that
   * fact's selected flag and carrying that fact's DOM id. The header row has
   * its checkbox column under the same condition, so every row has as many
   * cells as the header.
   */
  lemma CheckboxColumn(fact: Fact, expandedRows: seq<string>, baselinesWrite: bool,
                       nameSort: SortOrder, valueSort: SortOrder, k: nat)
    requires k < |FactRows(fact, expandedRows, baselinesWrite)|
    ensures RenderHeaderRow(baselinesWrite, nameSort, valueSort).checkColumn == baselinesWrite
    ensures var r := FactRows(fact, expandedRows, baselinesWrite)[k];
            && (r.checkbox.Some? <==> baselinesWrite)
            && CellCount(r) == HeaderCellCount(RenderHeaderRow(baselinesWrite, nameSort, valueSort))
            && (baselinesWrite ==>
                  var f := GroupMember(fact, k);
                  r.checkbox == Some(Checkbox(CheckboxDomId(f), Decimal.IntText(f.id), f.selected)))
  {
    RowsShowTheirFacts(fact, expandedRows, baselinesWrite, k);
  }

  /**
   * Checkbox DOM ids never collide across kinds: two facts get the same id
   * exactly when they have the same fact id and are both categories or both
   * string-valued.
   */
  lemma CheckboxDomIdsDistinct(f: Fact, g: Fact)
    ensures CheckboxDomId(f) == CheckboxDomId(g) <==> f.id == g.id && IsCategory(f) == IsCategory(g)
  {
    var tf, tg := Decimal.IntText(f.id), Decimal.IntText(g.id);
    assert CheckboxDomId(f)[0] == if IsCategory(f) then 'c' else 'f';
    assert CheckboxDomId(g)[0] == if IsCategory(g) then 'c' else 'f';
    if CheckboxDomId(f) == CheckboxDomId(g) && IsCategory(f) == IsCategory(g) {
      var n := if IsCategory(f) then |CategoryIdPrefix| else |FactIdPrefix|;
      assert CheckboxDomId(f)[n..] == tf;
      assert CheckboxDomId(g)[n..] == tg;
      Decimal.IntTextInjective(f.id, g.id);
    }
  }

  /**
   * The header's sort controls: the Fact header shows the name sort's icon
   * and a click on it goes to the name sort action with the name sort prop;
   * likewise the Value header with the value sort.
   */
  lemma HeaderSortControls(baselinesWrite: bool, nameSort: SortOrder, valueSort: SortOrder)
    ensures var h := RenderHeaderRow(baselinesWrite, nameSort, valueSort);
            && h.onNameClick == SortCall(ToggleNameSort, nameSort)
            && h.onValueClick == SortCall(ToggleValueSort, valueSort)
            && (IconHighlighted(h.nameIcon) <==> nameSort != Unsorted)
            && (IconHighlighted(h.valueIcon) <==> valueSort != Unsorted)
  {
    SortButtonReflectsSort(nameSort, nameSort);
    SortButtonReflectsSort(valueSort, valueSort);
  }

  /**
   * Every checkbox the table renders names a fact the selection handler
   * finds: reading its name back gives the id of the row's fact, and that id
   * is in the flattened id list, so `onSelect` on it does not fail.
   */
  lemma RenderedCheckboxesSelectable(tableData: seq<Fact>, expandedRows: seq<string>, baselinesWrite: bool,
                                     i: nat, k: nat)
    requires i < |tableData|
    requires k < |FactRows(tableData[i], expandedRows, baselinesWrite)|
    requires FactRows(tableData[i], expandedRows, baselinesWrite)[k].checkbox.Some?
    ensures var cb := FactRows(tableData[i], expandedRows, baselinesWrite)[k].checkbox.value;
            Decimal.ParseInt(cb.name) in Ids(Flatten(tableData))
  {
    RowsShowTheirFacts(tableData[i], expandedRows, baselinesWrite, k);
    GroupMemberListed(tableData, i, k);
    Decimal.IntTextRoundTrip(GroupMember(tableData[i], k).id);
  }
}
