/**
 * The table of extracted records (components/DataTable.tsx): its columns,
 * the header checkbox's all-selected flag, the text of each cell, the
 * header and body layout and the toolbar buttons. The component only
 * derives values from its props; each is a function here, and the markup
 * is a datatype that keeps what a user sees and can press.
 */
module DataTable {
  import opened Wrappers
  import opened Strings
  import opened Records
  import opened StringOrder
  import RecordStore
  import Csv

  // ---------------------------------------------------------------------------
  // Columns

  /**
   * `allKeys`: every field name found in at least one record, each once,
   * in ascending order.
   */
  function Columns(data: seq<Record>): (cols: seq<string>)
    ensures StrictlySorted(cols)
    ensures forall k :: k in cols <==> exists rec :: rec in data && k in rec.data
  {
    SortedSeq(KeyUnion(data))
  }

  /** No field name is listed twice. */
  lemma ColumnsOccurOnce(data: seq<Record>, i: int, j: int)
    requires 0 <= i < j < |Columns(data)|
    ensures Columns(data)[i] != Columns(data)[j]
  {
    var cols := Columns(data);
    assert Less(cols[i], cols[j]);
  }

  /**
   * The columns are fixed by their properties: any ascending, repeat-free
   * list holding exactly the field names of the records is the column list.
   */
  lemma ColumnsUnique(data: seq<Record>, cols: seq<string>)
    requires StrictlySorted(cols)
    requires forall k :: k in cols <==> exists rec :: rec in data && k in rec.data
    ensures cols == Columns(data)
  {
    SortedSeqUnique(KeyUnion(data), cols);
  }

  /**
   * The columns depend on which records there are, not on their order or
   * their repeats: two lists holding the same records give the same columns.
   */
  lemma ColumnsIgnoreOrder(a: seq<Record>, b: seq<Record>)
    requires forall rec :: rec in a <==> rec in b
    ensures Columns(a) == Columns(b)
  {
    ColumnsUnique(b, Columns(a));
  }

  /** The table and the CSV export show the same columns, in the same order. */
  lemma ExportUsesColumns(data: seq<Record>)
    requires data != []
    ensures Csv.Export(data) == Some(Csv.Document(data, Columns(data)))
  {
  }

  // ---------------------------------------------------------------------------
  // The all-selected flag

  /** `isAllSelected`: there is data and the selection is as long as the data. */
  predicate IsAllSelected(data: seq<Record>, selected: seq<int>)
  {
    |data| > 0 && |selected| == |data|
  }

  lemma {:induction false} DistinctCardinality(s: seq<int>)
    requires Distinct(s)
    ensures |set x | x in s| == |s|
    decreases |s|
  {
    if |s| > 0 {
      var t := s[1..];
      DistinctCardinality(t);
      assert s[0] !in t;
      assert (set x | x in s) == {s[0]} + (set x | x in t);
    }
  }

  /**
   * The flag compares lengths only: with two rows it is set by a selection
   * that holds the first id twice and never the second.
   */
  lemma AllSelectedByLengthOnly()
    ensures exists data: seq<Record>, selected: seq<int> ::
      IsAllSelected(data, selected) && exists rec :: rec in data && rec.id !in selected
  {
    var data := [Record(1, "a.png", map[]), Record(2, "b.png", map[])];
    var selected := [1, 1];
    assert data[1] in data && data[1].id !in selected;
    assert IsAllSelected(data, selected);
    assert exists rec :: rec in data && rec.id !in selected;
  }

  /** A subset as large as its superset is the superset. */
  lemma SubsetOfSameSize(a: set<int>, b: set<int>)
    requires a <= b && |a| == |b|
    ensures a == b
  {
    assert b == a + (b - a) && a * (b - a) == {};
    assert |b - a| == 0;
  }

  /** The ids of the records are the ids of the rows, and every row's id is among them. */
  lemma IdsOfRows(data: seq<Record>)
    ensures forall rec :: rec in data ==> rec.id in Ids(data)
    ensures forall x :: x in Ids(data) ==> exists rec :: rec in data && rec.id == x
  {
    var ids := Ids(data);
    forall rec | rec in data
      ensures rec.id in ids
    {
      var i :| 0 <= i < |data| && data[i] == rec;
      assert ids[i] == rec.id;
    }
    forall x | x in ids
      ensures exists rec :: rec in data && rec.id == x
    {
      var i :| 0 <= i < |ids| && ids[i] == x;
      assert data[i] in data;
    }
  }

  /**
   * What the flag means when ids are unique, the selection holds no repeats
   * and only ids of existing rows: it is set exactly when there is data and
   * every row is selected.
   */
  lemma AllSelectedMeansEveryRow(data: seq<Record>, selected: seq<int>)
    requires Distinct(Ids(data)) && Distinct(selected)
    requires forall x :: x in selected ==> x in Ids(data)
    ensures IsAllSelected(data, selected) <==> |data| > 0 && forall rec :: rec in data ==> rec.id in selected
  {
    var ids := Ids(data);
    var chosen := set x | x in selected;
    var all := set x | x in ids;
    DistinctCardinality(selected);
    DistinctCardinality(ids);
    IdsOfRows(data);
    assert chosen <= all;
    if IsAllSelected(data, selected) {
      SubsetOfSameSize(chosen, all);
      forall rec | rec in data
        ensures rec.id in selected
      {
        assert rec.id in all;
      }
    }
    if |data| > 0 && forall rec :: rec in data ==> rec.id in selected {
      assert all <= chosen;
      assert chosen == all;
    }
  }

  /**
   * Ticking the header box sets the flag exactly when there is data;
   * unticking it clears the flag.
   */
  lemma SelectAllSetsFlag(data: seq<Record>, selected: seq<int>)
    ensures IsAllSelected(data, RecordStore.SelectionChange(RecordStore.Store(data, selected), RecordStore.All, true).selected)
        <==> |data| > 0
    ensures !IsAllSelected(data, RecordStore.SelectionChange(RecordStore.Store(data, selected), RecordStore.All, false).selected)
  {
  }

  // ---------------------------------------------------------------------------
  // Cells

  /** `row.data[key] ?? 'N/A'`: the stored string, or `N/A` for a null or missing field. */
  function CellText(data: Fields, key: string): string
  {
    if key in data && data[key].Some? then data[key].value else "N/A"
  }

  /**
   * The table and the CSV agree on stored strings, the empty string
   * included; a null or missing field shows as `N/A` in the table and as an
   * empty cell in the CSV.
   */
  lemma CellTextAgainstExport(data: Fields, key: string)
    ensures key in data && data[key].Some? ==>
      CellText(data, key) == Csv.CellValue(data, key) == data[key].value
    ensures !(key in data && data[key].Some?) ==>
      CellText(data, key) == "N/A" && Csv.CellValue(data, key) == ""
  {
  }

  // ---------------------------------------------------------------------------
  // Layout

  /** A header cell. */
  datatype HeaderCell = SelectAllBox(checked: bool) | ImageNameHeader | KeyHeader(key: string) | ActionsHeader

  /** A body cell; the delete button and the row's box act on the row's id. */
  datatype BodyCell = RowBox(id: int, checked: bool) | NameCell(name: string) | ValueCell(text: string) | DeleteButton(id: int)

  /** What the table area shows: the placeholder text, or a header row and body rows. */
  datatype View = Placeholder | Table(header: seq<HeaderCell>, rows: seq<seq<BodyCell>>)

  /** The toolbar: the delete-selected button with its label when it is shown, and whether the other two are disabled. */
  datatype Toolbar = Toolbar(deleteSelected: Option<string>, clearDisabled: bool, downloadDisabled: bool)

  function HeaderRow(data: seq<Record>, selected: seq<int>, cols: seq<string>): seq<HeaderCell>
  {
    [SelectAllBox(IsAllSelected(data, selected)), ImageNameHeader]
      + seq(|cols|, j requires 0 <= j < |cols| => KeyHeader(cols[j]))
      + [ActionsHeader]
  }

  function BodyRow(rec: Record, selected: seq<int>, cols: seq<string>): seq<BodyCell>
  {
    [RowBox(rec.id, rec.id in selected), NameCell(rec.imageName)]
      + seq(|cols|, j requires 0 <= j < |cols| => ValueCell(CellText(rec.data, cols[j])))
      + [DeleteButton(rec.id)]
  }

  /** The table area for the given records and selection. */
  function Render(data: seq<Record>, selected: seq<int>): View
  {
    if |data| == 0 then Placeholder
    else
      var cols := Columns(data);
      Table(HeaderRow(data, selected, cols), seq(|data|, i requires 0 <= i < |data| => BodyRow(data[i], selected, cols)))
  }

  /** The label of the delete-selected button. */
  function DeleteSelectedLabel(n: nat): string
  {
    "Delete Selected (" + (IntToString(n) + ")")
  }

  /** The label tells apart every selection size. */
  lemma DeleteSelectedLabelDistinct(m: nat, n: nat)
    ensures DeleteSelectedLabel(m) == DeleteSelectedLabel(n) ==> m == n
  {
    if DeleteSelectedLabel(m) == DeleteSelectedLabel(n) {
      MiddleOfEqual("Delete Selected (", IntToString(m), IntToString(n), ")");
      IntToStringInjective(m, n);
    }
  }

  /** The toolbar for the given records and selection. */
  function ToolbarOf(data: seq<Record>, selected: seq<int>): Toolbar
  {
    Toolbar(if |selected| > 0 then Some(DeleteSelectedLabel(|selected|)) else None, |data| == 0, |data| == 0)
  }

  /** The header row: the select-all box, `Image Name`, one header per column, `Actions`. */
  lemma HeaderRowLayout(data: seq<Record>, selected: seq<int>, cols: seq<string>)
    ensures var h := HeaderRow(data, selected, cols);
      && |h| == |cols| + 3
      && h[0] == SelectAllBox(IsAllSelected(data, selected))
      && h[1] == ImageNameHeader
      && h[|cols| + 2] == ActionsHeader
      && forall j :: 0 <= j < |cols| ==> h[j + 2] == KeyHeader(cols[j])
  {
  }

  /** A body row: the record's box, its image name, one cell per column, its delete button. */
  lemma BodyRowLayout(rec: Record, selected: seq<int>, cols: seq<string>)
    ensures var r := BodyRow(rec, selected, cols);
      && |r| == |cols| + 3
      && r[0] == RowBox(rec.id, rec.id in selected)
      && r[1] == NameCell(rec.imageName)
      && r[|cols| + 2] == DeleteButton(rec.id)
      && forall j :: 0 <= j < |cols| ==> r[j + 2] == ValueCell(CellText(rec.data, cols[j]))
  {
  }

  /**
   * A body row lines up under the header: it is as long as the header,
   * starts with the record's box (ticked when its id is selected) and its
   * image name, ends with its delete button, and holds under each
   * field-name header the text of that field of the record.
   */
  predicate LinesUp(header: seq<HeaderCell>, row: seq<BodyCell>, rec: Record, selected: seq<int>)
  {
    && |row| == |header| >= 3
    && row[0] == RowBox(rec.id, rec.id in selected)
    && row[1] == NameCell(rec.imageName)
    && row[|header| - 1] == DeleteButton(rec.id)
    && forall p :: 2 <= p < |header| - 1 ==>
         header[p].KeyHeader? && row[p] == ValueCell(CellText(rec.data, header[p].key))
  }

  lemma RowLinesUp(data: seq<Record>, selected: seq<int>, cols: seq<string>, rec: Record)
    ensures LinesUp(HeaderRow(data, selected, cols), BodyRow(rec, selected, cols), rec, selected)
  {
    var header := HeaderRow(data, selected, cols);
    var row := BodyRow(rec, selected, cols);
    HeaderRowLayout(data, selected, cols);
    BodyRowLayout(rec, selected, cols);
    forall p | 2 <= p < |header| - 1
      ensures header[p].KeyHeader? && row[p] == ValueCell(CellText(rec.data, header[p].key))
    {
      assert header[(p - 2) + 2] == KeyHeader(cols[p - 2]);
    }
  }

  /** The field-name headers are exactly the column names. */
  lemma HeaderNamesColumns(data: seq<Record>, selected: seq<int>, cols: seq<string>)
    ensures forall k :: KeyHeader(k) in HeaderRow(data, selected, cols) <==> k in cols
  {
    var header := HeaderRow(data, selected, cols);
    HeaderRowLayout(data, selected, cols);
    forall k
      ensures KeyHeader(k) in header <==> k in cols
    {
      if KeyHeader(k) in header {
        var p :| 0 <= p < |header| && header[p] == KeyHeader(k);
        assert cols[p - 2] == k;
      }
      if k in cols {
        var j :| 0 <= j < |cols| && cols[j] == k;
        assert header[j + 2] == KeyHeader(k);
      }
    }
  }

  /**
   * The layout: with no data, the placeholder. Otherwise the header starts
   * with the select-all box and `Image Name`, ends with `Actions`, and names
   * in between each field name found in some record; there is one body row
   * per record, in list order, and each lines up under the header.
   */
  lemma RenderLayout(data: seq<Record>, selected: seq<int>)
    ensures data == [] <==> Render(data, selected) == Placeholder
    ensures data != [] ==>
      var v := Render(data, selected);
      && v.Table?
      && |v.header| >= 3 && |v.rows| == |data|
      && v.header[0] == SelectAllBox(IsAllSelected(data, selected))
      && v.header[1] == ImageNameHeader
      && v.header[|v.header| - 1] == ActionsHeader
      && (forall k :: KeyHeader(k) in v.header <==> exists rec :: rec in data && k in rec.data)
      && forall i :: 0 <= i < |data| ==> LinesUp(v.header, v.rows[i], data[i], selected)
  {
    if data != [] {
      var cols := Columns(data);
      var v := Render(data, selected);
      HeaderRowLayout(data, selected, cols);
      HeaderNamesColumns(data, selected, cols);
      forall i | 0 <= i < |data|
        ensures LinesUp(v.header, v.rows[i], data[i], selected)
      {
        RowLinesUp(data, selected, cols, data[i]);
      }
    }
  }

  /**
   * The toolbar: the delete-selected button appears exactly when something
   * is selected and names how many ids are selected; clearing and
   * downloading are disabled exactly when there is no data.
   */
  lemma ToolbarLayout(data: seq<Record>, selected: seq<int>)
    ensures ToolbarOf(data, selected).deleteSelected.Some? <==> selected != []
    ensures selected != [] ==> ToolbarOf(data, selected).deleteSelected == Some(DeleteSelectedLabel(|selected|))
    ensures ToolbarOf(data, selected).clearDisabled <==> data == []
    ensures ToolbarOf(data, selected).downloadDisabled <==> data == []
  {
  }
}
