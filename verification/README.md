# Drag-and-drop column reordering, modelled in Dafny

This project models the one piece of logic in a data table with draggable
column headers. The user drops one header onto another. The drop callback
looks both column ids up in `columnOrder`, the id-to-position list that the
table rebuilds from its headers on every render. `reorderCol` then copies the
column array, splices the dragged column out of the copy, splices it back in
at the target index, and commits the copy through the state setter.

Modules:

- `Sequences` (`sequences.dfy`): `Option` (JavaScript's `undefined` or a
  value), `Distinct`, `IndexOf` (first occurrence) and `Map`.
- `Js` (`js.dfy`): the JavaScript behaviour the handler relies on. It covers
  `Array.prototype.splice`, including ECMAScript's clamping of the start
  index and delete count (`RelativeStart`, `SpliceOf`), and `filter`. It also
  has `Js.Array`, a mutable array object, so that `[...a]` makes a fresh
  object and the array held before the call can be shown to be untouched.
- `ColumnMove` (`column_move.dfy`): `Move(s, from, to)`, the reorder as a
  function on sequences, with its lemmas. They cover length, placement,
  permutation, relative order, self-drop, undo, the position-by-position
  definition `MoveSource`, preservation of distinct ids, and moving
  commuting with an elementwise map.
- `Table` (`table.dfy`), for `src/components/ui/table.tsx`: column
  definitions, `columnOrder` entries, the lookup `Lookup`, and the
  `ColumnModel` class. The class holds the column state, a `Js.Array`
  reference as the state hook holds it. It also keeps a ghost `history` with
  one entry per setter call, and methods `SetColumns` (the setter),
  `ReorderCol` and `Drop`.
- `DataTable` (`data_table.dfy`), for `src/DataTable.tsx`: the static
  six-column list, the per-render `ColumnOrder`, `Mount` (the initial state)
  and `DropOnHeader` (a render followed by a drop). It also has the payment
  rows with accessor-based cell lookup and four example drops. The four
  client methods `DropAmountOntoId`, `DropStatusOntoCity`, `DropIdOntoItself`
  and `DropUnknownColumn` go through the whole path and assert the resulting
  order.

`ColumnModel.Valid()` says that the current order and every committed order
are permutations of the initial one. Every state-changing method preserves
it, so the order stays a permutation over any sequence of drops.

In three places the code behaves differently from what a reader might expect, and the model follows the code:

- Dropping a column onto itself computes an equal order, but the code still
  calls the setter with a new array. In the model this is one commit whose
  value equals the old order (`DropIdOntoItself`), not zero commits.
- The setter is only meant to receive a permutation of the current order.
  The code does not check this. `SetColumns` requires it, and `ReorderCol` proves it before
  each call.
- When an id has no entry, the code does not check and fail on purpose.
  `filter(...)[0]` is `undefined`, and reading `.index` throws a
  `TypeError` before the setter runs. `Drop` returns `TypeError` and leaves
  the state as it was.

## Model

| member | source | states |
|---|---|---|
| `Sequences.IndexOf` | src/components/ui/table.tsx:141-145 | the first position holding the id, or `None` exactly when the id is absent |
| `Js.RelativeStart` | src/components/ui/table.tsx:131-132 | splice's actual start always lies within the array, and equals the given start when that start is in range |
| `Js.SpliceOf` | src/components/ui/table.tsx:131-132 | how many elements splice removes (the clamped delete count); the prefix is kept and the items are placed at the actual start; putting the removed elements back gives the original array |
| `Js.Array.Splice` | src/components/ui/table.tsx:131-132 | in-place splice: returns the removed elements and leaves the spliced contents in the array |
| `Js.Filter` | src/components/ui/table.tsx:141-145 | every kept element comes from the input and satisfies the predicate, and every input element that satisfies it is kept |
| `Js.FilterHead` | src/components/ui/table.tsx:141-145 | `filter(p)[0]` is the first element of the input that satisfies `p` |
| `ColumnMove.Move` | src/components/ui/table.tsx:128-135 | the result has the input's length, and the dragged element sits at the target index |
| `ColumnMove.MoveAt` | src/components/ui/table.tsx:131-132 | position by position, the result takes the dragged element at the target, shifts the block between source and target one step, and keeps everything else in place |
| `ColumnMove.MovePermutation` | src/components/ui/table.tsx:131-132 | the result has the same multiset of columns as the input: none is lost or duplicated |
| `ColumnMove.MoveKeepsOthersInOrder` | src/components/ui/table.tsx:131-132 | removing the dragged column from the result gives the input without it, so the other columns keep their relative order |
| `ColumnMove.MoveSelf` | src/components/ui/table.tsx:131-132 | dropping onto the same index returns the input unchanged |
| `ColumnMove.MoveUndo` | src/components/ui/table.tsx:131-132 | dragging the column back from the target index to its old index restores the original order |
| `ColumnMove.MovePreservesDistinct` | src/components/ui/table.tsx:131-132 | a move keeps a repeat-free order repeat-free |
| `Js.Array.constructor` | src/components/ui/table.tsx:129 | the new array object holds exactly the given elements; used for the copy `[...mutableColumns]`, a fresh object distinct from the state's array, and for the column list literal |
| `Table.Ids` | src/DataTable.tsx:91-92 | one id per column, the `i`-th being the `i`-th column's `accessorKey`, which the table library uses as `header.column.id` |
| `Table.Lookup` | src/components/ui/table.tsx:141-145 | `None` exactly when no entry has the id; otherwise the result is the index of an entry with that id |
| `Table.LookupFirst` | src/components/ui/table.tsx:141-145 | on any list, when entry `k` is the first with the id, the lookup returns entry `k`'s index, as `filter(...)[0].index` does |
| `Table.LookupPositionIndex` | src/components/ui/table.tsx:141-145 | through a list that pairs each header id with its position, the lookup returns the first position of the id, and fails exactly when the id is absent |
| `Table.SpliceRemovesOne` | src/components/ui/table.tsx:131 | `splice(i, 1)` at an index below the length removes exactly the element at the actual start and returns it alone |
| `Table.SpliceInsertsOne` | src/components/ui/table.tsx:132 | `splice(j, 0, x)` inserts `x` at the actual start, with nothing removed |
| `Table.ColumnModel.constructor` | src/DataTable.tsx:75 | the state holds the given array; nothing has been committed yet |
| `Table.ColumnModel.SetColumns` | src/components/ui/table.tsx:134 | the setter replaces the whole array with a permutation of it and records exactly one commit |
| `Table.ColumnModel.ReorderCol` | src/components/ui/table.tsx:128-135 | the new state is a fresh array holding `Move` of the old order at splice's actual indices; the previous array is not modified; exactly one commit; the permutation invariant is kept |
| `Table.ColumnModel.Drop` | src/components/ui/table.tsx:139-147 | if both ids have entries: one commit of `Move(old, first index of dragged id, first index of target id)`; otherwise `TypeError`, no commit and the state unchanged |
| `DataTable.AccessorKeysDistinct` | src/DataTable.tsx:47-72 | the static list's ids are id, status, email, city, country, amount, and they are pairwise distinct |
| `DataTable.CellOf` | src/DataTable.tsx:47-72 | the table library's default cell: the row's field under the column's accessor key; a row has such a cell exactly when the key is one of the six column ids |
| `DataTable.RenderRow` | src/DataTable.tsx:116-123 | a body row has one cell per column, each the accessor lookup of that column's key |
| `DataTable.RowCellsFollowColumns` | src/DataTable.tsx:109-125 | after a reorder each body row is the old row moved in the same way: cells stay bound to their field, and row data is untouched |
| `DataTable.ColumnOrder` | src/DataTable.tsx:91-93 | one entry per header, and the `i`-th entry holds the `i`-th header's id with index `i` |
| `DataTable.ColumnOrderFindsPosition` | src/DataTable.tsx:91-93 | with distinct ids, looking up a column's id in the `columnOrder` built from the current state gives that column's position in the state |
| `DataTable.StaleColumnOrder` | src/DataTable.tsx:88-93 | once a move changed the order, the `columnOrder` from before no longer describes the state, which is why it is rebuilt each render |
| `DataTable.MoveKeepsIdsDistinct` | src/DataTable.tsx:47-72 | a drop keeps the column ids pairwise distinct, so later lookups stay unambiguous |
| `DataTable.Mount` | src/DataTable.tsx:47-75 | the column state starts as the static six-column list, with no commits |
| `DataTable.DropOnHeader` | src/DataTable.tsx:88-103 | a drop through a freshly built `columnOrder` commits exactly one `Move` by first indices when both ids are present, and otherwise throws without committing; distinct ids stay distinct; the previous array is untouched |
| `DataTable.DragAmountOntoId` | src/DataTable.tsx:47-72 | moving index 5 to index 0 of the static list gives amount, id, status, email, city, country |
| `DataTable.DragStatusOntoCity` | src/DataTable.tsx:47-72 | moving index 1 to index 3 of the static list gives id, email, city, status, country, amount |
| `DataTable.DropAmountOntoId` | src/DataTable.tsx:47-103 | from the initial state, dropping Amount onto Id through the render-built `columnOrder` commits amount, id, status, email, city, country |
| `DataTable.DropStatusOntoCity` | src/DataTable.tsx:47-103 | from the initial state, dropping Status onto City commits id, email, city, status, country, amount |
| `DataTable.DropIdOntoItself` | src/DataTable.tsx:47-103 | dropping Id onto itself commits, and the order stays id, status, email, city, country, amount |
| `DataTable.DropUnknownColumn` | src/DataTable.tsx:47-103 | a drop whose dragged id has no header throws `TypeError`, and the order stays as it was |

## Left out

- The presentational wrappers (`Table`, `TableHeader`, `TableBody`, `TableFooter`, `TableRow`, `TableHead`, `TableCell`, `TableCaption`) and `src/App.tsx`: markup and CSS classes, with no logic.
- The drag library's hooks (`useDrag`, `useDrop`): accept tags, monitor collection, refs, hover and `isDragging` state. Only the drop callback's effect is modelled. A drag cancelled outside any target never reaches the callback, so in the model it is simply no call.
- The opacity cue and header width: rendering only.
- The `console.log` in the drop callback: I/O.
- The table library (`useReactTable`, `getCoreRowModel`, `flexRender`) is taken as given. Header `i` is built from column `i` of the state, and a column's id is its `accessorKey` (`Table.Ids`). Cell rendering is reduced to a lookup of the row's field by accessor key.
- The sample rows in `data`: the row lemmas hold for every `Payment`, so the two concrete records are not needed.
- React's state hook and re-render scheduling: the state is a plain field, assigned once per commit. A render is modelled by `DropOnHeader` building `columnOrder` from the current state.
- `Table.ColumnModel.ReorderCol` requires a dragged index below the array length. Otherwise JavaScript's splice removes nothing and `undefined` is inserted as a column, which the model's column type cannot hold. `Drop` only ever passes positions from `columnOrder`.
- `Table.ColumnModel.Drop` requires `columnOrder` to pair each current column id with its position. This is what the render supplies (`DataTable.ColumnOrder`); a stale or foreign list is not modelled.
- Arrays are not shared between the state and other code, so aliasing of the column array beyond the copy made by `[...mutableColumns]` is not modelled.
