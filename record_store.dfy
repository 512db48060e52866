/**
 * The record list and the row selection of the application (src/App.tsx),
 * and the handlers that replace them: deleting one row, deleting the
 * selected rows, clearing everything and changing the selection. Each
 * handler builds new arrays with `filter` or `map`; here each is a function
 * from the old store to the new one. The answer of `window.confirm` is a
 * boolean parameter.
 */
module RecordStore {
  import opened Records
  import opened Seqs

  /** The extracted records, in list order, and the selected ids, in the order they were ticked. */
  datatype Store = Store(records: seq<Record>, selected: seq<int>)

  /** What a checkbox stands for: the header box (every row) or one row's box. */
  datatype Target = All | Row(id: int)

  /** How many times `x` occurs in `s`. */
  function Count<T(==)>(s: seq<T>, x: T): nat
  {
    multiset(s)[x]
  }

  /** The `filter` tests the handlers use. */
  function RecordIdIsNot(id: int): Record -> bool { (rec: Record) => rec.id != id }
  function IdIsNot(id: int): int -> bool { (x: int) => x != id }
  function RecordNotIn(selected: seq<int>): Record -> bool { (rec: Record) => rec.id !in selected }

  /**
   * `handleDeleteRow`: every record with that id leaves the list and every
   * copy of the id leaves the selection; everything else stays.
   */
  function DeleteRow(s: Store, id: int): (r: Store)
    ensures forall rec :: rec in r.records <==> rec in s.records && rec.id != id
    ensures forall x :: x in r.selected <==> x in s.selected && x != id
  {
    Store(Filter(s.records, RecordIdIsNot(id)), Filter(s.selected, IdIsNot(id)))
  }

  /**
   * `handleDeleteSelected`: nothing happens while the selection is empty or
   * when the user declines; otherwise the records whose id is selected leave
   * the list and the selection is emptied.
   */
  function DeleteSelected(s: Store, confirmed: bool): (r: Store)
    ensures s.selected == [] || !confirmed ==> r == s
    ensures s.selected != [] && confirmed ==> r.selected == []
    ensures s.selected != [] && confirmed ==>
      forall rec :: rec in r.records <==> rec in s.records && rec.id !in s.selected
  {
    if |s.selected| == 0 then s
    else if confirmed then Store(Filter(s.records, RecordNotIn(s.selected)), [])
    else s
  }

  /** `handleClearData`: when the user confirms, no records and no selection are left. */
  function ClearData(s: Store, confirmed: bool): (r: Store)
    ensures confirmed ==> r.records == [] && r.selected == []
    ensures !confirmed ==> r == s
  {
    if confirmed then Store([], []) else s
  }

  /**
   * `handleSelectionChange`: the header box selects every record id in list
   * order or nothing; a row box appends its id (even one already selected)
   * or removes every copy of it. The records never change.
   */
  function SelectionChange(s: Store, target: Target, checked: bool): (r: Store)
    ensures r.records == s.records
    ensures target == All && checked ==>
      (|r.selected| == |s.records| && forall i :: 0 <= i < |s.records| ==> r.selected[i] == s.records[i].id)
    ensures target == All && !checked ==> r.selected == []
    ensures target.Row? && checked ==> r.selected == s.selected + [target.id]
    ensures target.Row? && !checked ==>
      forall x :: x in r.selected <==> x in s.selected && x != target.id
  {
    match target
    case All => Store(s.records, if checked then Ids(s.records) else [])
    case Row(id) => Store(s.records, if checked then s.selected + [id] else Filter(s.selected, IdIsNot(id)))
  }

  // ---------------------------------------------------------------------------
  // Properties

  /**
   * Deleting a row counts copies exactly: a record with that id keeps none,
   * every other record keeps as many copies as it had; the same holds for
   * the ids in the selection.
   */
  lemma DeleteRowCounts(s: Store, id: int, rec: Record, x: int)
    ensures Count(DeleteRow(s, id).records, rec) == if rec.id == id then 0 else Count(s.records, rec)
    ensures Count(DeleteRow(s, id).selected, x) == if x == id then 0 else Count(s.selected, x)
  {
    FilterMultiplicity(s.records, RecordIdIsNot(id), rec);
    FilterMultiplicity(s.selected, IdIsNot(id), x);
  }

  /**
   * Deleting a row keeps the other records in their order: the list can be
   * cut anywhere and each piece filtered on its own.
   */
  lemma DeleteRowKeepsOrder(a: seq<Record>, b: seq<Record>, selected: seq<int>, id: int)
    ensures DeleteRow(Store(a + b, selected), id).records
         == DeleteRow(Store(a, selected), id).records + DeleteRow(Store(b, selected), id).records
  {
    FilterConcat(a, b, RecordIdIsNot(id));
  }

  /** Deleting a row whose id no record and no selection entry has changes nothing. */
  lemma DeleteAbsentRow(s: Store, id: int)
    requires forall rec :: rec in s.records ==> rec.id != id
    requires id !in s.selected
    ensures DeleteRow(s, id) == s
  {
    FilterKeepsAll(s.records, RecordIdIsNot(id));
    FilterKeepsAll(s.selected, IdIsNot(id));
  }

  /** Deleting the same row twice is the same as deleting it once. */
  lemma DeleteRowIdempotent(s: Store, id: int)
    ensures DeleteRow(DeleteRow(s, id), id) == DeleteRow(s, id)
  {
    DeleteAbsentRow(DeleteRow(s, id), id);
  }

  /**
   * Deleting the selection after confirming counts copies exactly: a record
   * whose id is selected keeps none, every other record keeps all of its.
   */
  lemma DeleteSelectedCounts(s: Store, rec: Record)
    requires s.selected != []
    ensures Count(DeleteSelected(s, true).records, rec)
         == if rec.id in s.selected then 0 else Count(s.records, rec)
  {
    FilterMultiplicity(s.records, RecordNotIn(s.selected), rec);
  }

  /** Deleting the selection keeps the remaining records in their order. */
  lemma DeleteSelectedKeepsOrder(a: seq<Record>, b: seq<Record>, selected: seq<int>)
    requires selected != []
    ensures DeleteSelected(Store(a + b, selected), true).records
         == DeleteSelected(Store(a, selected), true).records + DeleteSelected(Store(b, selected), true).records
  {
    FilterConcat(a, b, RecordNotIn(selected));
  }

  /** Unticking a row removes every copy of its id and leaves the count of every other id alone. */
  lemma UntickCounts(s: Store, id: int, x: int)
    ensures Count(SelectionChange(s, Row(id), false).selected, x)
         == if x == id then 0 else Count(s.selected, x)
  {
    FilterMultiplicity(s.selected, IdIsNot(id), x);
  }

  /** Ticking a row adds one more copy of its id, even when it was already selected. */
  lemma TickCounts(s: Store, id: int)
    ensures Count(SelectionChange(s, Row(id), true).selected, id) == Count(s.selected, id) + 1
  {
    assert multiset(s.selected + [id]) == multiset(s.selected) + multiset{id};
  }
}
