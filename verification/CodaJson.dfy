// Reading response bodies into hand-managed memory, and freeing what was read.
module CodaJson {
  import opened AsciiText
  import opened CodaService
  import opened Ffi
  import opened Sequences
  import opened Wrappers

  // Capability flags.
  type Caps = bv32
  const COLUMN_GENERATED: Caps := 1
  const COLUMN_SYSTEM: Caps := 2
  const COLUMN_EDITABLE: Caps := 4
  const COLUMN_FILTER_EQUALITY: Caps := 8
  const COLUMN_SORT_ASC: Caps := 16
  const COLUMN_ARRAY: Caps := 32

  const TABLE_VIEW: Caps := 1
  const TABLE_INSERT: Caps := 2
  const TABLE_UPDATE: Caps := 4
  const TABLE_DELETE: Caps := 8
  const TABLE_ROW_ID: Caps := 16

  predicate Has(caps: Caps, flag: Caps) {
    caps & flag != 0
  }

  // Values read from the service.
  datatype TableInfo = TableInfo(id: string, name: string, capabilities: Caps)
  datatype ColumnInfo = ColumnInfo(id: string, name: string, typeName: string, capabilities: Caps, logicalType: int)
  datatype CellInfo = CellInfo(columnId: string, valueType: nat, value: string)
  datatype RowInfo = RowInfo(id: string, createdAt: string, updatedAt: string, deleted: bool, cells: seq<CellInfo>)

  datatype TablesPage = TablesPage(tables: seq<TableInfo>, nextPageToken: string)
  datatype ColumnsPage = ColumnsPage(columns: seq<ColumnInfo>, nextPageToken: string)
  datatype RowsPage = RowsPage(rows: seq<RowInfo>, nextPageToken: string, nextSyncToken: string)

  // The same values in hand-managed memory.
  datatype Table = Table(id: Str, name: Str, capabilities: Caps)
  datatype Column = Column(id: Str, name: Str, typeName: Str, capabilities: Caps, logicalType: int)
  datatype Cell = Cell(columnId: Str, valueType: nat, value: Str)
  datatype Row = Row(id: Str, createdAt: Str, updatedAt: Str, deleted: bool, cells: Raw<Cell>)

  datatype TableList = TableList(items: Raw<Table>, nextPageToken: Str)
  datatype ColumnList = ColumnList(items: Raw<Column>, nextPageToken: Str)
  datatype RowsResponse = RowsResponse(rows: Raw<Row>, nextPageToken: Str, nextSyncToken: Str)

  // What a structure says ...
  function TableText(t: Table): TableInfo { TableInfo(t.id.text, t.name.text, t.capabilities) }
  function ColumnText(c: Column): ColumnInfo {
    ColumnInfo(c.id.text, c.name.text, c.typeName.text, c.capabilities, c.logicalType)
  }
  function CellText(c: Cell): CellInfo { CellInfo(c.columnId.text, c.valueType, c.value.text) }
  function RowText(r: Row): RowInfo {
    RowInfo(r.id.text, r.createdAt.text, r.updatedAt.text, r.deleted, Map(CellText, r.cells.items))
  }

  function ResponseText(r: RowsResponse): RowsPage {
    RowsPage(Map(RowText, r.rows.items), r.nextPageToken.text, r.nextSyncToken.text)
  }

  // ... and how often it owns block p.
  function TableOwns(p: Ptr, t: Table): nat { StrOwns(p, t.id) + StrOwns(p, t.name) }
  function ColumnOwns(p: Ptr, c: Column): nat { StrOwns(p, c.id) + StrOwns(p, c.name) + StrOwns(p, c.typeName) }
  function CellOwns(p: Ptr, c: Cell): nat { StrOwns(p, c.columnId) + StrOwns(p, c.value) }
  function CellsOwn(p: Ptr, cells: Raw<Cell>): nat { Owns(p, cells.ptr) + AllOwn(CellOwns, p, cells.items) }
  function RowOwns(p: Ptr, r: Row): nat {
    StrOwns(p, r.id) + StrOwns(p, r.createdAt) + StrOwns(p, r.updatedAt) + CellsOwn(p, r.cells)
  }
  function RowsOwn(p: Ptr, rows: Raw<Row>): nat { Owns(p, rows.ptr) + AllOwn(RowOwns, p, rows.items) }
  function ColumnsOwn(p: Ptr, columns: Raw<Column>): nat {
    Owns(p, columns.ptr) + AllOwn(ColumnOwns, p, columns.items)
  }
  function TablesOwn(p: Ptr, tables: Raw<Table>): nat { Owns(p, tables.ptr) + AllOwn(TableOwns, p, tables.items) }
  function ResponseOwns(p: Ptr, r: RowsResponse): nat {
    RowsOwn(p, r.rows) + StrOwns(p, r.nextPageToken) + StrOwns(p, r.nextSyncToken)
  }

  // ---------------------------------------------------------------- parsing

  function JsonValueType(value: CellJson): nat {
    match value
    case CellNull => 1
    case CellBool(_) => 2
    case CellString(_) => 3
    case CellOther(_) => 4
  }

  function JsonValueString(value: CellJson): string {
    match value
    case CellNull => "null"
    case CellBool(b) => if b then "true" else "false"
    case CellString(s) => s
    case CellOther(text) => text
  }

  const NUMERIC_FORMATS: seq<string> := ["number", "currency", "percent", "duration", "slider", "scale"]

  function LogicalType(formatType: string, isArray: bool): int {
    if isArray then 0
    else if EqIgnoreCase(formatType, "checkbox") then 1
    else if exists k :: 0 <= k < |NUMERIC_FORMATS| && EqIgnoreCase(formatType, NUMERIC_FORMATS[k]) then 2
    else 0
  }

  function TableCapabilities(tableType: string): Caps {
    if EqIgnoreCase(tableType, "table") then TABLE_INSERT | TABLE_UPDATE | TABLE_DELETE | TABLE_ROW_ID
    else TABLE_VIEW | TABLE_ROW_ID
  }

  function ColumnCapabilities(calculated: bool, isArray: bool): Caps {
    (if calculated then COLUMN_GENERATED else COLUMN_EDITABLE)
    | (if isArray then COLUMN_ARRAY else COLUMN_FILTER_EQUALITY)
  }

  function ParseTable(item: TableItem): Result<TableInfo, Error> {
    if item.id.None? then Failure(MissingTableId)
    else if item.name.None? then Failure(MissingTableName)
    else Success(TableInfo(item.id.value, item.name.value, TableCapabilities(item.tableType.GetOr("table"))))
  }

  function FormatType(item: ColumnItem): string {
    if item.format.Some? then item.format.value.formatType.GetOr("text") else "text"
  }

  function IsArray(item: ColumnItem): bool {
    item.format.Some? && item.format.value.isArray.GetOr(false)
  }

  function ParseColumn(item: ColumnItem): Result<ColumnInfo, Error> {
    if item.id.None? then Failure(MissingColumnId)
    else if item.name.None? then Failure(MissingColumnName)
    else Success(ColumnInfo(item.id.value, item.name.value, FormatType(item),
                            ColumnCapabilities(item.calculated.GetOr(false), IsArray(item)),
                            LogicalType(FormatType(item), IsArray(item))))
  }

  function ParseCell(entry: (string, CellJson)): CellInfo {
    CellInfo(entry.0, JsonValueType(entry.1), JsonValueString(entry.1))
  }

  function ParseRow(item: RowItem): Result<RowInfo, Error> {
    if item.id.None? then Failure(MissingRowId)
    else Success(RowInfo(item.id.value, item.createdAt.GetOr(""), item.updatedAt.GetOr(""),
                         item.deleted.GetOr(false) || item.isDeleted.GetOr(false),
                         Map(ParseCell, item.values.GetOr([]))))
  }

  function ParseTables(reply: Result<TablesBody, Error>): Result<TablesPage, Error> {
    if reply.Failure? then Failure(reply.error)
    else if reply.value.items.None? then Failure(MissingItems)
    else
      match ParseAll(ParseTable, reply.value.items.value)
      case Failure(e) => Failure(e)
      case Success(tables) => Success(TablesPage(tables, reply.value.nextPageToken.GetOr("")))
  }

  function ParseColumns(reply: Result<ColumnsBody, Error>): Result<ColumnsPage, Error> {
    if reply.Failure? then Failure(reply.error)
    else if reply.value.items.None? then Failure(MissingItems)
    else
      match ParseAll(ParseColumn, reply.value.items.value)
      case Failure(e) => Failure(e)
      case Success(columns) => Success(ColumnsPage(columns, reply.value.nextPageToken.GetOr("")))
  }

  function ParseRows(reply: Result<RowsBody, Error>): Result<RowsPage, Error> {
    if reply.Failure? then Failure(reply.error)
    else if reply.value.items.None? then Failure(MissingItems)
    else
      match ParseAll(ParseRow, reply.value.items.value)
      case Failure(e) => Failure(e)
      case Success(rows) => Success(RowsPage(rows, reply.value.nextPageToken.GetOr(""),
                                             reply.value.nextSyncToken.GetOr("")))
  }

  // A calculated column is never editable, and an array column takes no equality filter.
  lemma ColumnCapabilityRules(calculated: bool, isArray: bool)
    ensures Has(ColumnCapabilities(calculated, isArray), COLUMN_EDITABLE) <==> !calculated
    ensures Has(ColumnCapabilities(calculated, isArray), COLUMN_GENERATED) <==> calculated
    ensures Has(ColumnCapabilities(calculated, isArray), COLUMN_FILTER_EQUALITY) <==> !isArray
    ensures !Has(ColumnCapabilities(calculated, isArray), COLUMN_SORT_ASC)
    ensures !Has(ColumnCapabilities(calculated, isArray), COLUMN_SYSTEM)
  {
  }

  // ------------------------------------------------- parsing into memory

  // The items before these were parsed, and the next one could not be.
  ghost predicate StopsAfter<A, B>(parse: A -> Result<B, Error>, items: seq<A>, parsed: seq<B>, e: Error) {
    && |parsed| < |items| && ParseAll(parse, items[..|parsed|]) == Success(parsed)
    && parse(items[|parsed|]) == Failure(e)
  }

  method CellsFromJson(values: seq<(string, CellJson)>, heap: Heap) returns (cells: Raw<Cell>)
    requires heap.Valid()
    modifies heap
    ensures heap.Valid() && heap.freed == old(heap.freed)
    ensures Map(CellText, cells.items) == Map(ParseCell, values)
    ensures heap.live == old(heap.live) + CellsOwn(heap.watched, cells)
  {
    var items: seq<Cell> := [];
    for i := 0 to |values|
      invariant heap.Valid() && heap.freed == old(heap.freed)
      invariant Map(CellText, items) == Map(ParseCell, values[..i])
      invariant heap.live == old(heap.live) + AllOwn(CellOwns, heap.watched, items)
    {
      var columnId := heap.AllocString(values[i].0);
      var text := heap.AllocString(JsonValueString(values[i].1));
      var cell := Cell(columnId, JsonValueType(values[i].1), text);
      AllOwnPush(CellOwns, heap.watched, items, cell);
      MapPush(CellText, items, cell);
      MapPush(ParseCell, values[..i], values[i]);
      assert values[..i + 1] == values[..i] + [values[i]];
      items := items + [cell];
    }
    assert values[..|values|] == values;
    cells := heap.IntoRaw(items);
  }

  method RowFromJson(item: RowItem, heap: Heap) returns (r: Result<Row, Error>, ghost cells: Raw<Cell>)
    requires heap.Valid()
    modifies heap
    ensures heap.Valid() && heap.freed == old(heap.freed)
    ensures Map(CellText, cells.items) == Map(ParseCell, item.values.GetOr([]))
    ensures r.Failure? ==> ParseRow(item) == Failure(r.error)
    ensures r.Failure? ==> heap.live == old(heap.live) + CellsOwn(heap.watched, cells)
    ensures r.Success? ==> ParseRow(item) == Success(RowText(r.value))
    ensures r.Success? ==> heap.live == old(heap.live) + RowOwns(heap.watched, r.value)
  {
    var raw := CellsFromJson(item.values.GetOr([]), heap);
    cells := raw;
    if item.id.None? {
      return Failure(MissingRowId), cells;
    }
    var id := heap.AllocString(item.id.value);
    var createdAt := heap.AllocString(item.createdAt.GetOr(""));
    var updatedAt := heap.AllocString(item.updatedAt.GetOr(""));
    r := Success(Row(id, createdAt, updatedAt, item.deleted.GetOr(false) || item.isDeleted.GetOr(false), raw));
  }

  // On failure everything allocated so far stays allocated for ever: the rows before the one
  // without an id, and the cells of that one.
  method RowsFromJson(body: RowsBody, heap: Heap)
      returns (r: Result<RowsResponse, Error>, ghost leaked: seq<Row>, ghost cells: Raw<Cell>)
    requires heap.Valid()
    modifies heap
    ensures heap.Valid() && heap.freed == old(heap.freed) && old(heap.live) <= heap.live
    ensures r.Failure? ==> ParseRows(Success(body)) == Failure(r.error)
    ensures r.Failure? && r.error != MissingRowId ==> heap.live == old(heap.live)
    ensures r.Failure? && r.error == MissingRowId ==>
              && StopsAfter(ParseRow, body.items.GetOr([]), Map(RowText, leaked), r.error)
              && Map(CellText, cells.items) == Map(ParseCell, body.items.value[|leaked|].values.GetOr([]))
              && heap.live == old(heap.live) + AllOwn(RowOwns, heap.watched, leaked) + CellsOwn(heap.watched, cells)
    ensures r.Success? ==>
              && ParseRows(Success(body)) == Success(ResponseText(r.value))
              && r.value.nextPageToken.text == body.nextPageToken.GetOr("")
              && r.value.nextSyncToken.text == body.nextSyncToken.GetOr("")
    ensures r.Success? ==> heap.live == old(heap.live) + ResponseOwns(heap.watched, r.value)
  {
    leaked, cells := [], Raw(0, []);
    if body.items.None? {
      r := Failure(MissingItems);
      return;
    }
    var items := body.items.value;
    var rows: seq<Row> := [];
    for i := 0 to |items|
      invariant heap.Valid() && heap.freed == old(heap.freed)
      invariant ParseAll(ParseRow, items[..i]) == Success(Map(RowText, rows))
      invariant heap.live == old(heap.live) + AllOwn(RowOwns, heap.watched, rows)
    {
      ParseAllNext(ParseRow, items, i);
      var row;
      row, cells := RowFromJson(items[i], heap);
      if row.Failure? {
        r, leaked := Failure(row.error), rows;
        return;
      }
      AllOwnPush(RowOwns, heap.watched, rows, row.value);
      MapPush(RowText, rows, row.value);
      rows := rows + [row.value];
    }
    assert items[..|items|] == items;
    var raw := heap.IntoRaw(rows);
    var nextPageToken := heap.AllocString(body.nextPageToken.GetOr(""));
    var nextSyncToken := heap.AllocString(body.nextSyncToken.GetOr(""));
    r := Success(RowsResponse(raw, nextPageToken, nextSyncToken));
  }

  // The same for tables: those before the one that fails are left behind, and its id if that was
  // there.
  method TablesFromJson(body: TablesBody, heap: Heap)
      returns (r: Result<TableList, Error>, ghost leaked: seq<Table>, ghost stray: Str)
    requires heap.Valid()
    modifies heap
    ensures heap.Valid() && heap.freed == old(heap.freed) && old(heap.live) <= heap.live
    ensures r.Failure? ==> ParseTables(Success(body)) == Failure(r.error)
    ensures r.Failure? && r.error == MissingItems ==> heap.live == old(heap.live)
    ensures r.Failure? && r.error != MissingItems ==>
              && StopsAfter(ParseTable, body.items.GetOr([]), Map(TableText, leaked), r.error)
              && stray.text == body.items.value[|leaked|].id.GetOr("")
              && heap.live == old(heap.live) + AllOwn(TableOwns, heap.watched, leaked) + StrOwns(heap.watched, stray)
    ensures r.Success? ==>
              && ParseTables(Success(body)) == Success(TablesPage(Map(TableText, r.value.items.items),
                                                                  r.value.nextPageToken.text))
              && r.value.nextPageToken.text == body.nextPageToken.GetOr("")
              && heap.live == old(heap.live) + TablesOwn(heap.watched, r.value.items) + StrOwns(heap.watched, r.value.nextPageToken)
  {
    leaked, stray := [], EMPTY;
    if body.items.None? {
      r := Failure(MissingItems);
      return;
    }
    var items := body.items.value;
    var tables: seq<Table> := [];
    for i := 0 to |items|
      invariant heap.Valid() && heap.freed == old(heap.freed)
      invariant ParseAll(ParseTable, items[..i]) == Success(Map(TableText, tables))
      invariant heap.live == old(heap.live) + AllOwn(TableOwns, heap.watched, tables)
    {
      ParseAllNext(ParseTable, items, i);
      var item := items[i];
      if item.id.None? {
        r, leaked := Failure(MissingTableId), tables;
        return;
      }
      var id := heap.AllocString(item.id.value);
      if item.name.None? {
        r, leaked, stray := Failure(MissingTableName), tables, id;
        return;
      }
      var name := heap.AllocString(item.name.value);
      var table := Table(id, name, TableCapabilities(item.tableType.GetOr("table")));
      AllOwnPush(TableOwns, heap.watched, tables, table);
      MapPush(TableText, tables, table);
      tables := tables + [table];
    }
    assert items[..|items|] == items;
    var raw := heap.IntoRaw(tables);
    var nextPageToken := heap.AllocString(body.nextPageToken.GetOr(""));
    r := Success(TableList(raw, nextPageToken));
  }

  // A column is editable exactly when its item is not calculated.
  ghost predicate EditableAsListed(items: seq<ColumnItem>, columns: seq<Column>) {
    |columns| == |items| && forall i :: 0 <= i < |items| ==>
      (Has(columns[i].capabilities, COLUMN_EDITABLE) <==> items[i].calculated != Some(true))
  }

  lemma {:induction false} ColumnsAreListed(items: seq<ColumnItem>, columns: seq<Column>)
    requires ParseAll(ParseColumn, items) == Success(Map(ColumnText, columns))
    ensures EditableAsListed(items, columns)
  {
    forall i | 0 <= i < |items|
      ensures Has(columns[i].capabilities, COLUMN_EDITABLE) <==> items[i].calculated != Some(true)
    {
      ParseAllAt(ParseColumn, items, i);
      MapAt(ColumnText, columns, i);
      ColumnCapabilityRules(items[i].calculated.GetOr(false), IsArray(items[i]));
    }
  }

  method ColumnFromJson(item: ColumnItem, heap: Heap) returns (r: Result<Column, Error>, ghost stray: Str)
    requires heap.Valid()
    modifies heap
    ensures heap.Valid() && heap.freed == old(heap.freed)
    ensures r.Failure? ==> ParseColumn(item) == Failure(r.error)
    ensures r.Failure? ==> stray.text == item.id.GetOr("") && heap.live == old(heap.live) + StrOwns(heap.watched, stray)
    ensures r.Success? ==> ParseColumn(item) == Success(ColumnText(r.value))
    ensures r.Success? ==> heap.live == old(heap.live) + ColumnOwns(heap.watched, r.value)
  {
    stray := EMPTY;
    if item.id.None? {
      r := Failure(MissingColumnId);
      return;
    }
    var id := heap.AllocString(item.id.value);
    if item.name.None? {
      r, stray := Failure(MissingColumnName), id;
      return;
    }
    var name := heap.AllocString(item.name.value);
    var typeName := heap.AllocString(FormatType(item));
    r := Success(Column(id, name, typeName, ColumnCapabilities(item.calculated.GetOr(false), IsArray(item)),
                        LogicalType(FormatType(item), IsArray(item))));
  }

  method ColumnsFromJson(body: ColumnsBody, heap: Heap)
      returns (r: Result<ColumnList, Error>, ghost leaked: seq<Column>, ghost stray: Str)
    requires heap.Valid()
    modifies heap
    ensures heap.Valid() && heap.freed == old(heap.freed) && old(heap.live) <= heap.live
    ensures r.Failure? ==> ParseColumns(Success(body)) == Failure(r.error)
    ensures r.Failure? && r.error == MissingItems ==> heap.live == old(heap.live)
    ensures r.Failure? && r.error != MissingItems ==>
              && StopsAfter(ParseColumn, body.items.GetOr([]), Map(ColumnText, leaked), r.error)
              && stray.text == body.items.value[|leaked|].id.GetOr("")
              && heap.live == old(heap.live) + AllOwn(ColumnOwns, heap.watched, leaked) + StrOwns(heap.watched, stray)
    ensures r.Success? ==>
              && ParseColumns(Success(body)) == Success(ColumnsPage(Map(ColumnText, r.value.items.items),
                                                                    r.value.nextPageToken.text))
              && r.value.nextPageToken.text == body.nextPageToken.GetOr("")
              && body.items.Some? && EditableAsListed(body.items.value, r.value.items.items)
              && heap.live == old(heap.live) + ColumnsOwn(heap.watched, r.value.items) + StrOwns(heap.watched, r.value.nextPageToken)
  {
    leaked, stray := [], EMPTY;
    if body.items.None? {
      r := Failure(MissingItems);
      return;
    }
    var items := body.items.value;
    var columns: seq<Column> := [];
    for i := 0 to |items|
      invariant heap.Valid() && heap.freed == old(heap.freed)
      invariant ParseAll(ParseColumn, items[..i]) == Success(Map(ColumnText, columns))
      invariant heap.live == old(heap.live) + AllOwn(ColumnOwns, heap.watched, columns)
    {
      ParseAllNext(ParseColumn, items, i);
      var column;
      column, stray := ColumnFromJson(items[i], heap);
      if column.Failure? {
        r, leaked := Failure(column.error), columns;
        return;
      }
      AllOwnPush(ColumnOwns, heap.watched, columns, column.value);
      MapPush(ColumnText, columns, column.value);
      columns := columns + [column.value];
    }
    assert items[..|items|] == items;
    ColumnsAreListed(items, columns);
    var raw := heap.IntoRaw(columns);
    var nextPageToken := heap.AllocString(body.nextPageToken.GetOr(""));
    r := Success(ColumnList(raw, nextPageToken));
  }

  // ---------------------------------------------------------------- freeing

  method FreeCells(cells: Raw<Cell>, heap: Heap)
    requires heap.Valid() && CellsOwn(heap.watched, cells) <= heap.live
    modifies heap
    ensures heap.Valid() && heap.live == old(heap.live) - CellsOwn(heap.watched, cells)
  {
    var items := heap.FromRaw(cells);
    assert items[0..] == items;
    ghost var frame := heap.live - AllOwn(CellOwns, heap.watched, items);
    for i := 0 to |items|
      invariant heap.Valid() && heap.live == frame + AllOwn(CellOwns, heap.watched, items[i..])
    {
      AllOwnHead(CellOwns, heap.watched, items, i);
      heap.FreeString(items[i].columnId);
      heap.FreeString(items[i].value);
    }
  }

  method FreeRow(row: Row, heap: Heap)
    requires heap.Valid() && RowOwns(heap.watched, row) <= heap.live
    modifies heap
    ensures heap.Valid() && heap.live == old(heap.live) - RowOwns(heap.watched, row)
  {
    heap.FreeString(row.id);
    heap.FreeString(row.createdAt);
    heap.FreeString(row.updatedAt);
    FreeCells(row.cells, heap);
  }

  // free_rows_partial
  method FreeRows(rows: Raw<Row>, heap: Heap)
    requires heap.Valid() && RowsOwn(heap.watched, rows) <= heap.live
    modifies heap
    ensures heap.Valid() && heap.live == old(heap.live) - RowsOwn(heap.watched, rows)
  {
    var items := heap.FromRaw(rows);
    assert items[0..] == items;
    ghost var frame := heap.live - AllOwn(RowOwns, heap.watched, items);
    for i := 0 to |items|
      invariant heap.Valid() && heap.live == frame + AllOwn(RowOwns, heap.watched, items[i..])
    {
      AllOwnHead(RowOwns, heap.watched, items, i);
      FreeRow(items[i], heap);
    }
  }

  method FreeColumns(columns: Raw<Column>, heap: Heap)
    requires heap.Valid() && ColumnsOwn(heap.watched, columns) <= heap.live
    modifies heap
    ensures heap.Valid() && heap.live == old(heap.live) - ColumnsOwn(heap.watched, columns)
  {
    var items := heap.FromRaw(columns);
    assert items[0..] == items;
    ghost var frame := heap.live - AllOwn(ColumnOwns, heap.watched, items);
    for i := 0 to |items|
      invariant heap.Valid() && heap.live == frame + AllOwn(ColumnOwns, heap.watched, items[i..])
    {
      AllOwnHead(ColumnOwns, heap.watched, items, i);
      heap.FreeString(items[i].id);
      heap.FreeString(items[i].name);
      heap.FreeString(items[i].typeName);
    }
  }
}
