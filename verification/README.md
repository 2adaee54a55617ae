# Edit-baseline fact table — a Dafny model

This project models the logic of the edit-baseline table in the drift front end's
`EditBaseline` component. A baseline's table data is an ordered list of facts. Each fact
has an id, a name and a value. The value is either a string (a leaf fact) or a list of
sub-facts (a category). The component turns this list, the list of expanded category
names and the write permission into table rows. Its two checkbox handlers build the list
of fact ids that the `selectFact` action receives.

Modules, one concern each:

- `Wrappers` (`wrappers.dfy`): `Option` (JavaScript's `undefined`) and `Result`.
- `Decimal` (`decimal.dfy`): the decimal text JavaScript gives an integer id (`'fact-' + 42`),
  and reading it back (`Number(name)`).
- `BaselineFacts` (`facts.dfy`): the `Fact` datatype. `Flatten` is the fully expanded table order (the order bulk selection walks): each
  top-level fact followed by its own sub-facts. `Lookup` is the search by id that the
  selection handler performs.
- `FactSelection` (`selection.dfy`): `onSelect` and `onBulkSelect` as methods with loops.
  Each returns the `selectFact` call it makes, or the failure when `onSelect` finds no fact.
- `TableControls` (`controls.dfy`): the sort icon, the routing of `toggleSort`, and the
  error-or-empty branch of `renderEmptyState`.
- `FactTable` (`table.dfy`): the header row and `renderRowData`/`renderRows` as methods
  with loops, each proved equal to a row function. Lemmas state each group's row shapes,
  the checkbox column and the checkbox ids.

The handlers only read the component's props and never update fields. So they are
modelled as methods that take the props as parameters and return what they would pass
on. No class is needed.

Details of `EditBaseline.js` that the model follows:

- The scan in `onSelect` (lines 156-166) is a `forEach` that never stops, so when several
  facts carry the id, the last match wins. A top-level match also skips that fact's own
  sub-facts. `Lookup` does exactly this, and `LookupUnique` shows it returns the one fact
  when ids are distinct.
- When no fact has the id, line 168 dereferences an undefined fact and throws, so
  `selectFact` is never called. The model returns `Failure(NoFactWithId(id))` and makes
  no call.
- A checkbox shows the fact's own `selected` flag (line 208), so `Fact` carries that flag.
- A sub-fact that is itself a category is toggled together with its own sub-facts
  (lines 170-174 apply `isCategory` to whatever was found). Bulk selection and the
  rows go one level deep only.

## Model

| member | source | states |
|---|---|---|
| `FactSelection.OnSelect` | src/SmartComponents/BaselinesPage/EditBaselinePage/EditBaseline/EditBaseline.js:150-177 | fails (no `selectFact` call) exactly when the id is not among the top-level and sub-fact ids; otherwise passes the found fact's id (equal to the requested id) followed by its sub-fact ids, with the given flag unchanged |
| `FactSelection.OnBulkSelect` | src/SmartComponents/BaselinesPage/EditBaselinePage/EditBaseline/EditBaseline.js:179-193 | passes the ids of the fully expanded table order (each fact, then its sub-facts) with the given flag unchanged |
| `FactSelection.BulkSelectLayout` | src/SmartComponents/BaselinesPage/EditBaselinePage/EditBaseline/EditBaseline.js:183-190 | the bulk id list is the ids of the facts before `tableData[i]`, then its id, immediately followed by its sub-fact ids in order, then the ids of the facts after it |
| `FactSelection.BulkSelectLength` | src/SmartComponents/BaselinesPage/EditBaselinePage/EditBaseline/EditBaseline.js:179-193 | the bulk id list has one entry per top-level fact plus one per sub-fact |
| `FactSelection.SelectCategory` | src/SmartComponents/BaselinesPage/EditBaselinePage/EditBaseline/EditBaseline.js:168-174 | with distinct ids, selecting a category passes exactly its id followed by all its sub-fact ids, in sub-fact order |
| `FactSelection.SelectLeaf` | src/SmartComponents/BaselinesPage/EditBaselinePage/EditBaseline/EditBaseline.js:168-170 | with distinct ids, selecting a leaf fact or a leaf sub-fact passes the one-element list of its id |
| `BaselineFacts.LookupSpec` | src/SmartComponents/BaselinesPage/EditBaselinePage/EditBaseline/EditBaseline.js:156-166 | the scan over top-level facts and the sub-facts of every category ends holding a fact exactly when some flattened fact has the id, and what it holds is such a fact |
| `BaselineFacts.LookupFindsListedIds` | src/SmartComponents/BaselinesPage/EditBaselinePage/EditBaseline/EditBaseline.js:154-168 | the scan finds a fact exactly when the id is in the id list that bulk selection would pass |
| `BaselineFacts.LookupUnique` | src/SmartComponents/BaselinesPage/EditBaselinePage/EditBaseline/EditBaseline.js:156-166 | when no two facts share an id, the scan returns the one fact carrying the id, wherever it sits |
| `BaselineFacts.FindLastSpec` | src/SmartComponents/BaselinesPage/EditBaselinePage/EditBaseline/EditBaseline.js:160-164 | the inner sub-fact scan finds something exactly when a sub-fact has the id, and finds such a sub-fact |
| `BaselineFacts.FlattenLength` | src/SmartComponents/BaselinesPage/EditBaselinePage/EditBaseline/EditBaseline.js:183-190 | the fully expanded table order holds every top-level fact and every sub-fact: its length is their sum |
| `BaselineFacts.FlattenAppend` | src/SmartComponents/BaselinesPage/EditBaselinePage/EditBaseline/EditBaseline.js:183-190 | the fully expanded table order of a concatenation is the concatenation of the fully expanded table orders (groups never interleave) |
| `BaselineFacts.GroupLayout` | src/SmartComponents/BaselinesPage/EditBaselinePage/EditBaseline/EditBaseline.js:183-190 | the fully expanded table order is the groups of the facts before `facts[i]`, then `facts[i]` immediately followed by its sub-facts in their own order, then the groups of the facts after it |
| `BaselineFacts.GroupMemberAt` | src/SmartComponents/BaselinesPage/EditBaselinePage/EditBaseline/EditBaseline.js:183-190 | member k of the group of `facts[i]` (the fact for k = 0, else its (k-1)-th sub-fact) sits at that group's start plus k in the fully expanded table order |
| `BaselineFacts.GroupMemberListed` | src/SmartComponents/BaselinesPage/EditBaselinePage/EditBaseline/EditBaseline.js:183-190 | the id of every top-level fact and of every one of its sub-facts is in the bulk id list |
| `BaselineFacts.FlattenMembers` | src/SmartComponents/BaselinesPage/EditBaselinePage/EditBaseline/EditBaseline.js:156-166 | a fact is in the fully expanded table order exactly when it is a top-level fact or a sub-fact of one |
| `FactTable.RenderRowData` | src/SmartComponents/BaselinesPage/EditBaselinePage/EditBaseline/EditBaseline.js:216-285 | the rows pushed for one fact are its own row, then, for an expanded category, one row per sub-fact in order |
| `FactTable.RenderRows` | src/SmartComponents/BaselinesPage/EditBaselinePage/EditBaseline/EditBaseline.js:287-301 | one row group per input fact, in input order, with no reordering; an empty fact list gives no groups |
| `FactTable.LeafRows` | src/SmartComponents/BaselinesPage/EditBaselinePage/EditBaseline/EditBaseline.js:274-282 | a leaf fact gets exactly one depth-0 row holding its name and its value |
| `FactTable.CategoryRows` | src/SmartComponents/BaselinesPage/EditBaselinePage/EditBaseline/EditBaseline.js:241-273 | a category gets one row with an empty value cell, plus one depth-1 row per sub-fact in order if and only if its name is expanded |
| `FactTable.RowsShowTheirFacts` | src/SmartComponents/BaselinesPage/EditBaselinePage/EditBaseline/EditBaseline.js:241-282 | row k of a fact's group shows the fact itself (k = 0) or its (k-1)-th sub-fact: that fact's name and checkbox |
| `FactTable.CheckboxColumn` | src/SmartComponents/BaselinesPage/EditBaselinePage/EditBaseline/EditBaseline.js:231-256 | header, category, leaf and sub-fact rows have a checkbox cell if and only if write is permitted; every row has as many cells as the header; the checkbox carries the shown fact's DOM id, id text and selected flag |
| `FactTable.CheckboxDomId` | src/SmartComponents/BaselinesPage/EditBaselinePage/EditBaseline/EditBaseline.js:195-202 | a category's checkbox id starts with `'category-'`, a string-valued fact's with `'fact-'`, and the rest reads back as the fact's id |
| `FactTable.CheckboxCell` | src/SmartComponents/BaselinesPage/EditBaselinePage/EditBaseline/EditBaseline.js:204-213 | a fact's checkbox is rendered exactly when write is permitted; it carries the fact's DOM id, a name that reads back as the fact's id, and the fact's `selected` flag as its checked state |
| `FactTable.RenderHeaderRow` | src/SmartComponents/BaselinesPage/EditBaselinePage/EditBaseline/EditBaseline.js:84-115 | the header has the checkbox column exactly when write is permitted (four cells, else three); the Fact header shows the name sort's icon and its click calls the name sort action with the name sort prop; the Value header shows the value sort's icon and its click calls the value sort action with the value sort prop (with `SortButton`, ASC is the up arrow, DESC the down arrow) |
| `FactTable.CheckboxDomIdsDistinct` | src/SmartComponents/BaselinesPage/EditBaselinePage/EditBaseline/EditBaseline.js:195-202 | `'category-'+id` and `'fact-'+id` ids coincide exactly when the fact ids are equal and both facts are of the same kind |
| `FactTable.RenderedCheckboxesSelectable` | src/SmartComponents/BaselinesPage/EditBaselinePage/EditBaseline/EditBaseline.js:204-213 | reading back the name of any rendered checkbox gives an id that `onSelect` finds |
| `FactTable.HeaderSortControls` | src/SmartComponents/BaselinesPage/EditBaselinePage/EditBaseline/EditBaseline.js:84-115 | the Fact header routes clicks to the name sort action with the name sort prop, the Value header to the value sort action with the value sort prop; each icon is highlighted exactly when its column is sorted |
| `TableControls.SortButton` | src/SmartComponents/BaselinesPage/EditBaselinePage/EditBaseline/EditBaseline.js:50-64 | ASC shows the up arrow, DESC the down arrow, any other value the neutral arrow, each if and only if |
| `TableControls.SortButtonReflectsSort` | src/SmartComponents/BaselinesPage/EditBaselinePage/EditBaseline/EditBaseline.js:50-64 | the icon is highlighted exactly when the column is sorted, and the three sort orders (ASC, DESC, anything else) give three distinct icons |
| `TableControls.ToggleSort` | src/SmartComponents/BaselinesPage/EditBaselinePage/EditBaseline/EditBaseline.js:66-75 | the name action is called if and only if the sort type is `'name'`, otherwise the value action; the sort prop is passed unchanged |
| `TableControls.RenderEmptyState` | src/SmartComponents/BaselinesPage/EditBaselinePage/EditBaseline/EditBaseline.js:303-329 | the error panel is chosen exactly when the status is defined and not 200, and its error line is `'Error ' + status + ': ' + detail` |
| `TableControls.ErrorLineNamesStatus` | src/SmartComponents/BaselinesPage/EditBaselinePage/EditBaseline/EditBaseline.js:313 | for the same detail, two failing statuses give the same error line only if they are equal |
| `Decimal.IntTextRoundTrip` | src/SmartComponents/BaselinesPage/EditBaselinePage/EditBaseline/EditBaseline.js:154 | the checkbox `name` (the id as text, line 211) read back as a number gives the id |

## Left out

- Rendering through React and PatternFly is not modelled: JSX, CSS classes (including
  the `nested-fact` class at lines 233-235), OUIA attributes, React keys, `SkeletonTable`,
  `Card`, the fact modal, `ErrorAlert`, `RegistryContext` and `render` itself. They bind
  the UI and add no behaviour beyond the branches modelled.
- `helpers.js` is not part of this model. That covers `isCategory`, `baselineSubFacts`,
  `renderKebab`, `findSelected` and `findFactCount`. A category is a fact whose value is a
  list, and its sub-facts are that list. The actions menu is one opaque cell.
- The `baselineData.baseline_facts.find` lookup in `renderRowData` (lines 221-229) is left
  out. It only feeds the actions menu and an OUIA id.
- What the actions do is left out: `selectFact`, `expandRow`, `toggleNameSort`,
  `toggleValueSort`, the NONE→ASC→DESC sort cycle and fact counting. Their reducers and
  action creators are not part of this model. The model states only what the component
  passes to them.
- `retryBaselineFetch` and the awaited dispatches are asynchronous Redux plumbing, and
  `fetchBaselineId` is not defined in the file.
- `renderCheckbox` leaves the id undefined when the value is neither a list nor a string.
  That case cannot arise in the model, because `FactValue` has exactly those two variants.
- Ids are integers. `Decimal.ParseInt` stands for `Number` only on text that `IntText`
  produces. JavaScript's exponent notation for numbers of 1e21 and beyond is not modelled.
- The ASC and DESC sort constants live in a constants file that is not part of this
  model. A sort prop is therefore modelled by which constant it equals (`SortOrder`).
- The header's DOM `id` attributes (`nameSort`, `valueSort || 'disabled'`) and the
  highlight class on the header labels (`sort !== ''`) are styling and are left out.
- The fetch status is an optional integer. Non-numeric statuses are not modelled.
- `src/SmartComponents/DriftPage/DriftToolbar/DriftToolbar.js`,
  `src/SmartComponents/BaselinesPage/EditBaselinePage/redux/types.js` and the checkbox
  snapshot test contain only dispatch chains, widget state, constants and render
  snapshots.
