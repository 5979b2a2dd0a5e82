/**
 * The draggable header cell of src/components/ui/table.tsx: the id-to-index
 * lookup in its drop callback and `reorderCol`, which commits a moved copy
 * of the column list through the state setter.
 */
module Table {
  import opened Sequences
  import opened Js
  import opened ColumnMove

  /** A column definition; the table library uses its `accessorKey` as the column id. */
  datatype ColumnDef = ColumnDef(accessorKey: string, header: string)

  /** The column ids in order, which is also the order of the rendered headers. */
  function Ids(columns: seq<ColumnDef>): (r: seq<string>)
    ensures |r| == |columns|
    ensures forall i :: 0 <= i < |columns| ==> r[i] == columns[i].accessorKey
  {
    Map((c: ColumnDef) => c.accessorKey, columns)
  }

  /** One entry of the `columnOrder` prop: a header's column id and its position. */
  datatype OrderEntry = OrderEntry(id: string, index: int)

  /** `order` pairs every id of `ids` with its own position, one entry per id. */
  predicate IsPositionIndex(order: seq<OrderEntry>, ids: seq<string>) {
    |order| == |ids| &&
    forall i :: 0 <= i < |order| ==> order[i].id == ids[i] && order[i].index == i
  }

  /**
   * `columnOrder.filter((x) => x.id === id)[0].index`, with `None` where the
   * filter is empty and reading `.index` throws.
   */
  function Lookup(order: seq<OrderEntry>, id: string): (r: Option<int>)
    ensures r.None? <==> forall i :: 0 <= i < |order| ==> order[i].id != id
    ensures r.Some? ==> exists i :: 0 <= i < |order| && order[i] == OrderEntry(id, r.value)
  {
    var matches := Filter(order, (x: OrderEntry) => x.id == id);
    if |matches| == 0 then None else Some(matches[0].index)
  }

  /** On any list, the lookup returns the index carried by the first entry with the id. */
  lemma LookupFirst(order: seq<OrderEntry>, id: string, k: nat)
    requires k < |order| && order[k].id == id
    requires forall j :: 0 <= j < k ==> order[j].id != id
    ensures Lookup(order, id) == Some(order[k].index)
  {
    FilterHead(order, (x: OrderEntry) => x.id == id, k);
  }

  /** Through a position index, the lookup finds the first position of the id. */
  lemma LookupPositionIndex(order: seq<OrderEntry>, ids: seq<string>, id: string)
    requires IsPositionIndex(order, ids)
    ensures Lookup(order, id).None? <==> IndexOf(ids, id).None?
    ensures Lookup(order, id).Some? ==> Lookup(order, id).value == IndexOf(ids, id).value
  {
    match IndexOf(ids, id)
    case None =>
    case Some(k) =>
      FilterHead(order, (x: OrderEntry) => x.id == id, k);
  }

  /** Splicing one element out at a valid index removes exactly that element. */
  lemma SpliceRemovesOne<T>(s: seq<T>, start: int)
    requires 0 < |s| && start < |s|
    ensures RelativeStart(|s|, start) < |s|
    ensures SpliceOf(s, start, 1, []) == Spliced([s[RelativeStart(|s|, start)]], RemoveAt(s, RelativeStart(|s|, start)))
  {
  }

  /** Splicing one element in with nothing deleted inserts it at the actual start. */
  lemma SpliceInsertsOne<T>(s: seq<T>, start: int, x: T)
    ensures SpliceOf(s, start, 0, [x]).result == InsertAt(s, RelativeStart(|s|, start), x)
  {
  }

  /** How a drop ended: the new order was committed, or reading `.index` threw. */
  datatype DropOutcome = Committed | TypeError

  /**
   * The column state held by the table: the current column array, as the
   * state hook holds it, together with the ghost record of every order the
   * setter committed.
   */
  class ColumnModel {
    var columns: Array<ColumnDef>
    ghost var original: seq<ColumnDef>
    ghost var history: seq<seq<ColumnDef>>

    /** Every committed order, and the current one, is a permutation of the first. */
    ghost predicate Valid()
      reads this, columns
    {
      && multiset(columns.elems) == multiset(original)
      && (forall k :: 0 <= k < |history| ==> multiset(history[k]) == multiset(original))
      && (|history| > 0 ==> history[|history| - 1] == columns.elems)
    }

    /** The state hook's initial value. */
    constructor (initial: Array<ColumnDef>)
      ensures Valid()
      ensures columns == initial && original == initial.elems && history == []
    {
      columns := initial;
      original := initial.elems;
      history := [];
    }

    /** The state setter: replaces the whole column array with a permutation of it. */
    method SetColumns(newColumns: Array<ColumnDef>)
      requires Valid()
      requires multiset(newColumns.elems) == multiset(original)
      modifies this
      ensures Valid()
      ensures columns == newColumns && original == old(original)
      ensures history == old(history) + [newColumns.elems]
    {
      columns := newColumns;
      history := history + [newColumns.elems];
    }

    /**
     * `reorderCol`: splice the dragged column out of a fresh copy of the
     * column array, splice it back in at the target index, and commit the copy.
     * The array held before the call is left as it was.
     */
    method ReorderCol(draggedColIndex: int, targetColIndex: int)
      requires Valid()
      requires 0 < |columns.elems| && draggedColIndex < |columns.elems|
      modifies this
      ensures Valid() && original == old(original)
      ensures fresh(columns) && old(columns).elems == old(columns.elems)
      ensures columns.elems == Move(old(columns.elems),
                                    RelativeStart(|old(columns.elems)|, draggedColIndex),
                                    RelativeStart(|old(columns.elems)| - 1, targetColIndex))
      ensures history == old(history) + [columns.elems]
    {
      ghost var s := columns.elems;
      ghost var from := RelativeStart(|s|, draggedColIndex);
      ghost var to := RelativeStart(|s| - 1, targetColIndex);
      SpliceRemovesOne(s, draggedColIndex);
      SpliceInsertsOne(RemoveAt(s, from), targetColIndex, s[from]);
      MovePermutation(s, from, to);
      var newColumns := new Array(columns.elems);
      var removed := newColumns.Splice(draggedColIndex, 1, []);
      var draggedCol := removed[0];
      var _ := newColumns.Splice(targetColIndex, 0, [draggedCol]);
      SetColumns(newColumns);
    }

    /**
     * The drop callback: resolve the dragged and the target column ids
     * through `columnOrder`, then reorder. An id with no entry makes the
     * callback throw before anything is committed.
     */
    method Drop(columnOrder: seq<OrderEntry>, draggedId: string, targetId: string) returns (outcome: DropOutcome)
      requires Valid()
      requires IsPositionIndex(columnOrder, Ids(columns.elems))
      modifies this
      ensures Valid() && original == old(original)
      ensures old(columns).elems == old(columns.elems)
      ensures var ids := Ids(old(columns.elems));
              var from := IndexOf(ids, draggedId);
              var to := IndexOf(ids, targetId);
              if from.Some? && to.Some? then
                && outcome == Committed
                && fresh(columns)
                && columns.elems == Move(old(columns.elems), from.value, to.value)
                && history == old(history) + [columns.elems]
              else
                && outcome == TypeError
                && columns == old(columns)
                && history == old(history)
    {
      LookupPositionIndex(columnOrder, Ids(columns.elems), draggedId);
      LookupPositionIndex(columnOrder, Ids(columns.elems), targetId);
      var draggedColIndex := Lookup(columnOrder, draggedId);
      if draggedColIndex.None? {
        return TypeError;
      }
      var colIndex := Lookup(columnOrder, targetId);
      if colIndex.None? {
        return TypeError;
      }
      ReorderCol(draggedColIndex.value, colIndex.value);
      outcome := Committed;
    }
  }
}
