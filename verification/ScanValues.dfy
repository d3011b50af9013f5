// From the cells of a row to the values of an output vector.
module ScanValues {
  import opened AsciiText
  import opened CodaJson
  import opened CodaService
  import opened DuckValues
  import opened Sequences
  import opened Wrappers

  // RustExtScanValue
  datatype ScanValue = ScanValue(isNull: bool, valueType: nat, boolValue: bool, double: Option<real>, value: string)

  const NULL_SCAN_VALUE: ScanValue := ScanValue(true, 0, false, None, "")

  // The first cell of a column; ids are compared ignoring case.
  function FindCell(cells: seq<CellInfo>, columnId: string): (r: Option<CellInfo>)
    ensures r.None? ==> forall i :: 0 <= i < |cells| ==> !EqIgnoreCase(cells[i].columnId, columnId)
    ensures r.Some? ==> exists i :: 0 <= i < |cells| && cells[i] == r.value && EqIgnoreCase(cells[i].columnId, columnId)
                                    && forall j :: 0 <= j < i ==> !EqIgnoreCase(cells[j].columnId, columnId)
  {
    if cells == [] then None
    else if EqIgnoreCase(cells[0].columnId, columnId) then Some(cells[0])
    else
      var r := FindCell(cells[1..], columnId);
      assert r.Some? ==> exists i :: 0 <= i < |cells| && cells[i] == r.value && EqIgnoreCase(cells[i].columnId, columnId)
                                     && forall j :: 0 <= j < i ==> !EqIgnoreCase(cells[j].columnId, columnId) by {
        if r.Some? {
          var i :| 0 <= i < |cells[1..]| && cells[1..][i] == r.value && EqIgnoreCase(cells[1..][i].columnId, columnId)
                   && forall j :: 0 <= j < i ==> !EqIgnoreCase(cells[1..][j].columnId, columnId);
          assert cells[i + 1] == r.value;
          forall j | 0 <= j < i + 1 ensures !EqIgnoreCase(cells[j].columnId, columnId) {
            if j > 0 {
              assert cells[j] == cells[1..][j - 1];
            }
          }
        }
      }
      r
  }

  // scan_value
  function ScanValueOf(casts: Casts, column: ColumnInfo, row: RowInfo): ScanValue {
    if Has(column.capabilities, COLUMN_SYSTEM) then
      var value := if EqIgnoreCase(column.id, "createdAt") then row.createdAt
                   else if EqIgnoreCase(column.id, "updatedAt") then row.updatedAt
                   else "";
      if value == "" then NULL_SCAN_VALUE else ScanValue(false, 3, false, None, value)
    else
      match FindCell(row.cells, column.id)
      case None => NULL_SCAN_VALUE
      case Some(cell) =>
        if cell.valueType == 0 || cell.valueType == 1 then NULL_SCAN_VALUE
        else
          var double := if column.logicalType == 2 then casts.parseDouble(cell.value) else None;
          ScanValue(false, cell.valueType, cell.valueType == 2 && cell.value == "true", double, cell.value)
  }

  // ScanValueToValue; a cast that throws gives NULL.
  function ToDuckValue(casts: Casts, v: ScanValue, target: LogicalType): Value {
    if v.isNull then Null
    else if target == VARCHAR then VarcharValue(v.value)
    else if target == BOOLEAN && v.valueType == 2 then BooleanValue(v.boolValue)
    else if target == DOUBLE && v.double.Some? then DoubleValue(v.double.value)
    else casts.cast(v.value, target).GetOr(Null)
  }

  // The column of an output vector.
  datatype ColumnIndex = RowId | OtherVirtual | Physical(index: nat)

  datatype Projection = Projection(indexes: seq<ColumnIndex>, columns: seq<ColumnInfo>, casts: Casts) {
    predicate InRange(i: nat)
      requires i < |indexes|
    {
      indexes[i].Physical? ==> indexes[i].index < |columns|
    }

    // (Folded, as Wrappers.LookInside says.)
    ghost predicate Valid() {
      forall look {:trigger LookInside(look)} :: LookInside(look) ==>
        forall i :: 0 <= i < |indexes| ==> InRange(i)
    }

    function RenderColumn(c: ColumnIndex, row: RowInfo): Value {
      match c
      case RowId => VarcharValue(row.id)
      case OtherVirtual => Null
      case Physical(index) =>
        if index >= |columns| then Null
        else
          var column := columns[index];
          ToDuckValue(casts, ScanValueOf(casts, column, row), DuckType(column.logicalType))
    }

    // The output row of a row.
    function Render(row: RowInfo): seq<Value> {
      RenderFirst(|indexes|, row)
    }

    function RenderFirst(n: nat, row: RowInfo): (values: seq<Value>)
      requires n <= |indexes|
      ensures |values| == n
    {
      if n == 0 then [] else RenderFirst(n - 1, row) + [RenderColumn(indexes[n - 1], row)]
    }

    function RenderAll(rows: seq<RowInfo>): (output: seq<seq<Value>>)
      ensures |output| == |rows|
    {
      if rows == [] then [] else RenderAll(rows[..|rows| - 1]) + [Render(rows[|rows| - 1])]
    }

    // Column i of an output row is what the i-th index asks for; the row id is the row's own.
    lemma RenderAt(row: RowInfo, i: nat)
      requires i < |indexes|
      ensures Render(row)[i] == RenderColumn(indexes[i], row)
      ensures indexes[i] == RowId ==> Render(row)[i] == VarcharValue(row.id)
    {
      RenderFirstAt(|indexes|, row, i);
    }

    lemma {:induction false} RenderFirstAt(n: nat, row: RowInfo, i: nat)
      requires i < n <= |indexes|
      ensures RenderFirst(n, row)[i] == RenderColumn(indexes[i], row)
    {
      if i < n - 1 {
        RenderFirstAt(n - 1, row, i);
      }
    }

    // And row r of the output shows row r.
    lemma {:induction false} RenderAllAt(rows: seq<RowInfo>, r: nat)
      requires r < |rows|
      ensures RenderAll(rows)[r] == Render(rows[r])
    {
      if r < |rows| - 1 {
        RenderAllAt(rows[..|rows| - 1], r);
      }
    }

    lemma RenderPush(rows: seq<RowInfo>, n: nat, m: nat)
      requires n <= m < |rows|
      ensures RenderAll(rows[n..m + 1]) == RenderAll(rows[n..m]) + [Render(rows[m])]
    {
      assert rows[n..m + 1][..m - n] == rows[n..m];
    }

    lemma RenderAppend(rows: seq<RowInfo>, n: nat, m: nat)
      requires n <= m <= |rows|
      ensures RenderAll(rows[..m]) == RenderAll(rows[..n]) + RenderAll(rows[n..m])
    {
      assert rows[..m] == rows[..n] + rows[n..m];
      RenderConcat(rows[..n], rows[n..m]);
    }

    lemma {:induction false} RenderConcat(a: seq<RowInfo>, b: seq<RowInfo>)
      ensures RenderAll(a + b) == RenderAll(a) + RenderAll(b)
    {
      if b == [] {
        assert a + b == a;
      } else {
        var n := |b| - 1;
        assert (a + b)[..|a + b| - 1] == a + b[..n];
        RenderConcat(a, b[..n]);
      }
    }
  }

  // The member of a JSON row that a column shows: the first whose key is its id.
  ghost predicate IsMemberOf(item: RowItem, columnId: string, k: nat) {
    var values := item.values.GetOr([]);
    && k < |values| && EqIgnoreCase(values[k].0, columnId)
    && forall j :: 0 <= j < k ==> !EqIgnoreCase(values[j].0, columnId)
  }

  // The scan finds that member, and nothing when there is none.
  lemma MemberFound(item: RowItem, columnId: string, k: nat)
    requires item.id.Some?
    ensures var values, found := item.values.GetOr([]), FindCell(ParseRow(item).value.cells, columnId);
            && (IsMemberOf(item, columnId, k) ==> found == Some(ParseCell(values[k])))
            && ((forall j :: 0 <= j < |values| ==> !EqIgnoreCase(values[j].0, columnId)) ==> found == None)
  {
    var values := item.values.GetOr([]);
    var cells := ParseRow(item).value.cells;
    forall j | 0 <= j < |values| ensures cells[j] == ParseCell(values[j]) {
      MapAt(ParseCell, values, j);
    }
    match FindCell(cells, columnId)
    case None =>
    case Some(cell) =>
      var i :| 0 <= i < |cells| && cells[i] == cell && EqIgnoreCase(cells[i].columnId, columnId)
               && forall j :: 0 <= j < i ==> !EqIgnoreCase(cells[j].columnId, columnId);
      assert EqIgnoreCase(values[i].0, columnId);
      if IsMemberOf(item, columnId, k) {
        assert EqIgnoreCase(cells[k].columnId, columnId);
        assert i == k;
      }
  }

  // What a column shows of a text that is no boolean.
  function TextAs(casts: Casts, text: string, target: LogicalType): Value {
    if target == VARCHAR then VarcharValue(text) else casts.cast(text, target).GetOr(Null)
  }

  // Reading a row and showing it: a checkbox column shows a JSON boolean, and a number column
  // what its text reads as. Otherwise a column shows the text of the JSON value, cast to its
  // type. JSON null and an absent cell show as NULL.
  lemma CellRoundTrip(casts: Casts, item: RowItem, column: ColumnInfo, k: nat)
    requires item.id.Some? && !Has(column.capabilities, COLUMN_SYSTEM)
    ensures var row, target := ParseRow(item).value, DuckType(column.logicalType);
            var shown := ToDuckValue(casts, ScanValueOf(casts, column, row), target);
            && (IsMemberOf(item, column.id, k) ==>
                  var json := item.values.GetOr([])[k].1;
                  var text := match json
                              case CellNull => ""
                              case CellBool(b) => if b then "true" else "false"
                              case CellString(s) => s
                              case CellOther(text) => text;
                  shown == if json.CellNull? then Null
                           else if json.CellBool? && target == BOOLEAN then BooleanValue(json.b)
                           else if target == DOUBLE && casts.parseDouble(text).Some? then
                             DoubleValue(casts.parseDouble(text).value)
                           else TextAs(casts, text, target))
            && ((forall j :: 0 <= j < |item.values.GetOr([])| ==> !EqIgnoreCase(item.values.GetOr([])[j].0, column.id))
                ==> shown == Null)
  {
    MemberFound(item, column.id, k);
  }

  // A row metadata column shows the row's own timestamp, cast to its type. A timestamp that
  // is absent or empty shows as NULL, whatever the cells of the row are.
  lemma MetadataRoundTrip(casts: Casts, item: RowItem, column: ColumnInfo)
    requires item.id.Some? && Has(column.capabilities, COLUMN_SYSTEM)
    requires column.id == "createdAt" || column.id == "updatedAt"
    ensures var row, target := ParseRow(item).value, DuckType(column.logicalType);
            var stamp := if column.id == "createdAt" then item.createdAt else item.updatedAt;
            ToDuckValue(casts, ScanValueOf(casts, column, row), target)
            == if stamp.None? || stamp == Some("") then Null else TextAs(casts, stamp.value, target)
  {
    assert EqIgnoreCase(column.id, column.id);
    if column.id == "updatedAt" {
      assert ToLower(column.id[0]) != ToLower("createdAt"[0]);
    }
  }
}
