/**
 * The table container of src/DataTable.tsx: the static column list that
 * seeds the column state, the `columnOrder` list rebuilt from the headers on
 * every render, and the payment rows, which a reorder never touches.
 */
module DataTable {
  import opened Sequences
  import opened Js
  import opened ColumnMove
  import opened Table

  datatype Status = Pending | Processing | Success | Failed

  /** One row of the table. */
  datatype Payment = Payment(id: string, amount: int, status: Status, email: string, city: string, country: string)

  /** What a cell shows. */
  datatype CellValue = Text(text: string) | Amount(value: int) | StatusCell(status: Status)

  /** The six columns in their initial order, one per `Payment` field. */
  const Columns: seq<ColumnDef> := [
    ColumnDef("id", "Id"),
    ColumnDef("status", "Status"),
    ColumnDef("email", "Email"),
    ColumnDef("city", "City"),
    ColumnDef("country", "Country"),
    ColumnDef("amount", "Amount")
  ]

  /** The accessor keys differ, so the drop handler's lookup by id is unambiguous. */
  lemma AccessorKeysDistinct()
    ensures Ids(Columns) == ["id", "status", "email", "city", "country", "amount"]
    ensures Distinct(Ids(Columns))
  {
  }

  /** A row's cell under a column, found by the column's accessor key and not by position. */
  function CellOf(p: Payment, key: string): (r: Option<CellValue>)
    ensures r.Some? <==> key in Ids(Columns)
  {
    AccessorKeysDistinct();
    if key == "id" then Some(Text(p.id))
    else if key == "status" then Some(StatusCell(p.status))
    else if key == "email" then Some(Text(p.email))
    else if key == "city" then Some(Text(p.city))
    else if key == "country" then Some(Text(p.country))
    else if key == "amount" then Some(Amount(p.amount))
    else None
  }

  /** The cells of one body row, in column order. */
  function RenderRow(p: Payment, columns: seq<ColumnDef>): (r: seq<Option<CellValue>>)
    ensures |r| == |columns|
    ensures forall i :: 0 <= i < |columns| ==> r[i] == CellOf(p, columns[i].accessorKey)
  {
    Map((c: ColumnDef) => CellOf(p, c.accessorKey), columns)
  }

  /**
   * Reordering the columns reorders each rendered row in the same way: every
   * cell stays bound to its row's field and travels with its column.
   */
  lemma RowCellsFollowColumns(p: Payment, columns: seq<ColumnDef>, from: nat, to: nat)
    requires from < |columns| && to < |columns|
    ensures RenderRow(p, Move(columns, from, to)) == Move(RenderRow(p, columns), from, to)
  {
    MoveCommutesWithMap((c: ColumnDef) => CellOf(p, c.accessorKey), columns, from, to);
  }

  /**
   * `headerGroup.headers.map((header, index) => ({ id: header.column.id, index }))`:
   * each header's column id paired with its position.
   */
  function ColumnOrder(headerIds: seq<string>): (r: seq<OrderEntry>)
    ensures IsPositionIndex(r, headerIds)
  {
    seq(|headerIds|, i requires 0 <= i < |headerIds| => OrderEntry(headerIds[i], i))
  }

  /**
   * Built from the headers of the current column state, `columnOrder`
   * resolves each column's id to that column's position in the state.
   */
  lemma ColumnOrderFindsPosition(columns: seq<ColumnDef>, k: nat)
    requires Distinct(Ids(columns)) && k < |columns|
    ensures Lookup(ColumnOrder(Ids(columns)), columns[k].accessorKey) == Some(k)
  {
    LookupPositionIndex(ColumnOrder(Ids(columns)), Ids(columns), columns[k].accessorKey);
    IndexOfDistinct(Ids(columns), k);
  }

  /**
   * A `columnOrder` built before a move that changed the order no longer
   * describes the new state, which is why it is rebuilt on every render.
   */
  lemma StaleColumnOrder(columns: seq<ColumnDef>, from: nat, to: nat)
    requires Distinct(Ids(columns)) && from < |columns| && to < |columns| && from != to
    ensures !IsPositionIndex(ColumnOrder(Ids(columns)), Ids(Move(columns, from, to)))
  {
    var moved := Move(columns, from, to);
    assert Ids(moved)[to] == columns[from].accessorKey;
    assert ColumnOrder(Ids(columns))[to].id == columns[to].accessorKey;
  }

  /** A drop keeps the column ids free of repeats. */
  lemma MoveKeepsIdsDistinct(columns: seq<ColumnDef>, from: nat, to: nat)
    requires Distinct(Ids(columns)) && from < |columns| && to < |columns|
    ensures Distinct(Ids(Move(columns, from, to)))
  {
    MoveCommutesWithMap((c: ColumnDef) => c.accessorKey, columns, from, to);
    MovePreservesDistinct(Ids(columns), from, to);
  }

  /** `useState(columns)`: the column state starts as the static list. */
  method Mount() returns (m: ColumnModel)
    ensures fresh(m) && fresh(m.columns) && m.Valid()
    ensures m.columns.elems == Columns && m.original == Columns && m.history == []
  {
    var initial := new Array(Columns);
    m := new ColumnModel(initial);
  }

  /**
   * A drop on a rendered header: the render rebuilds `columnOrder` from the
   * headers of the current state and hands it to the header's drop callback.
   */
  method DropOnHeader(m: ColumnModel, draggedId: string, targetId: string) returns (outcome: DropOutcome)
    requires m.Valid()
    modifies m
    ensures m.Valid() && m.original == old(m.original)
    ensures old(m.columns).elems == old(m.columns.elems)
    ensures Distinct(Ids(old(m.columns.elems))) ==> Distinct(Ids(m.columns.elems))
    ensures var ids := Ids(old(m.columns.elems));
            var from := IndexOf(ids, draggedId);
            var to := IndexOf(ids, targetId);
            if from.Some? && to.Some? then
              && outcome == Committed
              && m.columns.elems == Move(old(m.columns.elems), from.value, to.value)
              && m.history == old(m.history) + [m.columns.elems]
            else
              && outcome == TypeError
              && m.columns == old(m.columns)
              && m.history == old(m.history)
  {
    var columnOrder := ColumnOrder(Ids(m.columns.elems));
    ghost var before := m.columns.elems;
    outcome := m.Drop(columnOrder, draggedId, targetId);
    if outcome == Committed && Distinct(Ids(before)) {
      ghost var from := IndexOf(Ids(before), draggedId);
      ghost var to := IndexOf(Ids(before), targetId);
      MoveKeepsIdsDistinct(before, from.value, to.value);
    }
  }

  /** Dragging Amount onto Id puts Amount first. */
  lemma DragAmountOntoId()
    ensures Ids(Move(Columns, 5, 0)) == ["amount", "id", "status", "email", "city", "country"]
  {
  }

  /** Dragging Status onto City puts Status after City. */
  lemma DragStatusOntoCity()
    ensures Ids(Move(Columns, 1, 3)) == ["id", "email", "city", "status", "country", "amount"]
  {
  }

  /** Drag Amount (index 5) onto Id (index 0) through the id lookup and the state. */
  method DropAmountOntoId() returns (outcome: DropOutcome, order: seq<string>)
    ensures outcome == Committed
    ensures order == ["amount", "id", "status", "email", "city", "country"]
  {
    AccessorKeysDistinct();
    IndexOfDistinct(Ids(Columns), 0);
    IndexOfDistinct(Ids(Columns), 5);
    DragAmountOntoId();
    var m := Mount();
    outcome := DropOnHeader(m, "amount", "id");
    order := Ids(m.columns.elems);
  }

  /** Drag Status (index 1) onto City (index 3). */
  method DropStatusOntoCity() returns (outcome: DropOutcome, order: seq<string>)
    ensures outcome == Committed
    ensures order == ["id", "email", "city", "status", "country", "amount"]
  {
    AccessorKeysDistinct();
    IndexOfDistinct(Ids(Columns), 1);
    IndexOfDistinct(Ids(Columns), 3);
    DragStatusOntoCity();
    var m := Mount();
    outcome := DropOnHeader(m, "status", "city");
    order := Ids(m.columns.elems);
  }

  /** Drop Id onto itself: the order is unchanged, though the setter still runs once. */
  method DropIdOntoItself() returns (outcome: DropOutcome, order: seq<string>)
    ensures outcome == Committed
    ensures order == ["id", "status", "email", "city", "country", "amount"]
  {
    AccessorKeysDistinct();
    IndexOfDistinct(Ids(Columns), 0);
    MoveSelf(Columns, 0);
    var m := Mount();
    outcome := DropOnHeader(m, "id", "id");
    assert m.columns.elems == Columns && m.history == [Columns];
    order := Ids(m.columns.elems);
  }

  /** A dragged id with no header throws before anything is committed. */
  method DropUnknownColumn() returns (outcome: DropOutcome, order: seq<string>)
    ensures outcome == TypeError
    ensures order == ["id", "status", "email", "city", "country", "amount"]
  {
    AccessorKeysDistinct();
    var m := Mount();
    outcome := DropOnHeader(m, "name", "id");
    assert m.history == [];
    order := Ids(m.columns.elems);
  }
}
