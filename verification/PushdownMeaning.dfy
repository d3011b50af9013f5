// When the rows that satisfy the filters of a query stay the same under filter pushdown.
module PushdownMeaning {
  import opened AsciiText
  import opened BridgeWrite
  import opened CatalogClient
  import opened CatalogRules
  import opened CodaJson
  import opened CodaService
  import opened Doubles
  import opened DuckValues
  import opened Pushdown
  import opened QueryText
  import opened ScanValues
  import opened Sequences
  import opened Wrappers

  // ------------------------------------------------------- what filters mean

  // `other` gives a value to all that pushdown does not look into.
  datatype Semantics = Semantics(get: Get, table: CatalogTableInfo, casts: Casts, other: (Expr, RowInfo) -> Value) {
    // What DuckDB sees in a column.
    function ColumnValue(c: nat, row: RowInfo): Value {
      Projection([], table.columns, casts).RenderColumn(Physical(c), row)
    }

    function Evaluate(e: Expr, row: RowInfo): Value {
      match e
      case ColumnRef(t, c) =>
        if t == get.tableIndex && c < |get.columnIds| && get.columnIds[c].Physical? then
          ColumnValue(get.columnIds[c].index, row)
        else other(e, row)
      case Constant(v) => v
      case Equal(l, r) =>
        var a, b := Evaluate(l, row), Evaluate(r, row);
        if a.Null? || b.Null? then Null else BooleanValue(a == b)
      case OtherFilter(_) => other(e, row)
    }

    predicate Holds(e: Expr, row: RowInfo) {
      Evaluate(e, row) == BooleanValue(true)
    }

    predicate AllHold(filters: seq<Expr>, row: RowInfo) {
      forall i :: 0 <= i < |filters| ==> Holds(filters[i], row)
    }

    // The rows that satisfy all filters.
    function Select(filters: seq<Expr>, rows: seq<RowInfo>): seq<RowInfo> {
      Filter((row: RowInfo) => AllHold(filters, row), rows)
    }
  }

  // The rows of a reply to a query.
  function ReplyTo(keeps: (string, RowInfo) -> bool, query: string, rows: seq<RowInfo>): seq<RowInfo> {
    Filter((row: RowInfo) => keeps(query, row), rows)
  }

  // ------------------------------------------------------- what the service compares

  // The JSON value of a cell, from its type and text; arrays and objects are none here.
  function CellValue(numbers: Numbers, cell: CellInfo): Option<Json> {
    match cell.valueType
    case 1 => Some(JNull)
    case 2 => Some(JBool(cell.value == "true"))
    case 3 => Some(JString(cell.value))
    case 4 =>
      if IsInteger(cell.value) then Some(JInt(IntegerValue(cell.value)))
      else if IsRealText(cell.value) && numbers.read(cell.value).Some? then Some(JReal(numbers.read(cell.value).value))
      else None
    case _ => None
  }

  function NumberOf(j: Json): Option<real> {
    match j
    case JInt(n) => Some(n as real)
    case JReal(x) => Some(x)
    case _ => None
  }

  // Equality of JSON values; numbers are equal as numbers.
  predicate SameJson(a: Json, b: Json) {
    a == b || (NumberOf(a).Some? && NumberOf(a) == NumberOf(b))
  }

  // A service that honours `column:literal`: it keeps the rows that have the literal's value in
  // the cell of the column.
  ghost predicate Honours(numbers: Numbers, keeps: (string, RowInfo) -> bool) {
    forall query, row :: ReadQuery(numbers, query).Some? ==>
      (keeps(query, row) <==> HasCell(numbers, row, ReadQuery(numbers, query).value.0, ReadQuery(numbers, query).value.1))
  }

  ghost predicate HasCell(numbers: Numbers, row: RowInfo, id: string, j: Json) {
    exists k :: 0 <= k < |row.cells| && IsCellWith(numbers, row.cells[k], id, j)
  }

  predicate IsCellWith(numbers: Numbers, cell: CellInfo, id: string, j: Json) {
    cell.columnId == id && CellValue(numbers, cell).Some? && SameJson(CellValue(numbers, cell).value, j)
  }

  // A row has one cell at most for an id, and does not spell the id otherwise.
  ghost predicate CleanRow(row: RowInfo, id: string) {
    forall k :: 0 <= k < |row.cells| && EqIgnoreCase(row.cells[k].columnId, id) ==>
      row.cells[k].columnId == id
      && forall j :: 0 <= j < k ==> !EqIgnoreCase(row.cells[j].columnId, id)
  }

  // ------------------------------------------------------- types

  ghost predicate HasType(v: Value, t: LogicalType) {
    match t
    case VARCHAR => v.VarcharValue?
    case BOOLEAN => v.BooleanValue?
    case DOUBLE => v.DoubleValue? && IsDouble(v.x)
    case TIMESTAMP_TZ => v.OtherValue?
  }

  // Casts give values of their target type. Reading a text as a number gives a double; it reads
  // an integer that is one as itself, and a number with a fraction as the service does.
  ghost predicate Regular(casts: Casts, numbers: Numbers) {
    && (forall s, t :: casts.cast(s, t).Some? ==> HasType(casts.cast(s, t).value, t))
    && (forall s :: casts.parseDouble(s).Some? ==> IsDouble(casts.parseDouble(s).value))
    && (forall s :: IsInteger(s) && IsDouble(IntegerValue(s) as real) ==>
                      casts.parseDouble(s) == Some(IntegerValue(s) as real))
    && (forall s :: !IsInteger(s) && IsRealText(s) && numbers.read(s).Some? ==> casts.parseDouble(s) == numbers.read(s))
  }

  // The JSON values that go with the type of a column. A number has to be a double.
  ghost predicate IsNative(numbers: Numbers, cell: CellInfo, t: LogicalType) {
    match t
    case VARCHAR => cell.valueType == 3
    case BOOLEAN => cell.valueType == 2
    case DOUBLE =>
      cell.valueType == 4 && CellValue(numbers, cell).Some? && IsDouble(NumberOf(CellValue(numbers, cell).value).value)
    case TIMESTAMP_TZ => false
  }

  // The row's cell of a column is such a value, or null, or absent.
  ghost predicate NativeCell(numbers: Numbers, column: ColumnInfo, row: RowInfo) {
    match FindCell(row.cells, column.id)
    case None => true
    case Some(cell) =>
      cell.valueType == 0 || cell.valueType == 1 || IsNative(numbers, cell, DuckType(column.logicalType))
  }

  function Shown(casts: Casts, column: ColumnInfo, row: RowInfo): Value {
    ToDuckValue(casts, ScanValueOf(casts, column, row), DuckType(column.logicalType))
  }

  // ------------------------------------------------------- one row

  lemma CleanCell(row: RowInfo, id: string, k: nat)
    requires CleanRow(row, id) && k < |row.cells| && row.cells[k].columnId == id
    ensures FindCell(row.cells, id) == Some(row.cells[k])
  {
    assert EqIgnoreCase(row.cells[k].columnId, id);
    var i :| 0 <= i < |row.cells| && row.cells[i] == FindCell(row.cells, id).value
             && EqIgnoreCase(row.cells[i].columnId, id)
             && forall j :: 0 <= j < i ==> !EqIgnoreCase(row.cells[j].columnId, id);
    assert i == k;
  }

  lemma CellFound(numbers: Numbers, row: RowInfo, id: string, j: Json)
    requires CleanRow(row, id)
    ensures HasCell(numbers, row, id, j)
            <==> FindCell(row.cells, id).Some? && IsCellWith(numbers, FindCell(row.cells, id).value, id, j)
  {
    if k :| 0 <= k < |row.cells| && IsCellWith(numbers, row.cells[k], id, j) {
      CleanCell(row, id, k);
    }
    if FindCell(row.cells, id).Some? {
      var i :| 0 <= i < |row.cells| && row.cells[i] == FindCell(row.cells, id).value
               && EqIgnoreCase(row.cells[i].columnId, id);
      assert row.cells[i].columnId == id;
    }
  }

  // The literal of a constant matches a cell exactly when the cell shows as the constant and is
  // of the JSON type that goes with the column.
  lemma CellMatches(casts: Casts, numbers: Numbers, column: ColumnInfo, row: RowInfo, v: Value)
    requires Regular(casts, numbers) && SoundColumn(column) && Has(column.capabilities, COLUMN_FILTER_EQUALITY)
    requires HasType(v, DuckType(column.logicalType)) && CleanRow(row, column.id)
    ensures HasCell(numbers, row, column.id, JsonOf(v))
            <==> Shown(casts, column, row) == v && NativeCell(numbers, column, row)
  {
    CellFound(numbers, row, column.id, JsonOf(v));
    match FindCell(row.cells, column.id)
    case None =>
    case Some(cell) =>
      var i :| 0 <= i < |row.cells| && row.cells[i] == cell && EqIgnoreCase(row.cells[i].columnId, column.id);
      assert cell.columnId == column.id;
      OneCellMatches(casts, numbers, column, row, cell, v);
  }

  lemma OneCellMatches(casts: Casts, numbers: Numbers, column: ColumnInfo, row: RowInfo, cell: CellInfo, v: Value)
    requires Regular(casts, numbers) && SoundColumn(column) && Has(column.capabilities, COLUMN_FILTER_EQUALITY)
    requires HasType(v, DuckType(column.logicalType))
    requires FindCell(row.cells, column.id) == Some(cell) && cell.columnId == column.id
    ensures IsCellWith(numbers, cell, column.id, JsonOf(v))
            <==> Shown(casts, column, row) == v && NativeCell(numbers, column, row)
  {
    match DuckType(column.logicalType)
    case VARCHAR =>
    case BOOLEAN =>
    case DOUBLE =>
      if IsNative(numbers, cell, DOUBLE) {
        assert casts.parseDouble(cell.value) == NumberOf(CellValue(numbers, cell).value);
      }
    case TIMESTAMP_TZ =>
  }

  lemma EqualityHolds(meaning: Semantics, e: Expr, c: nat, v: Value, row: RowInfo)
    requires IsEquality(meaning.get, meaning.table, e, c, v)
    ensures meaning.Holds(e, row) <==> meaning.ColumnValue(c, row) == v
  {
    var value := meaning.ColumnValue(c, row);
    assert {meaning.Evaluate(e.left, row), meaning.Evaluate(e.right, row)} == {value, v};
  }

  // A pushed filter as the planner leaves it: `e` says that column c is v, with the column's
  // type for both, and `query` is its text, faithfully printed.
  ghost predicate Pushed(numbers: Numbers, meaning: Semantics, e: Expr, c: nat, v: Value, query: string) {
    && IsEquality(meaning.get, meaning.table, e, c, v)
    && HasType(v, DuckType(meaning.table.columns[c].logicalType))
    && numbers.Faithful(JsonOf(v))
    && BuildEqualityQuery(numbers, meaning.table.columns[c].id, meaning.table.columns[c].name, InputOf(v)).value.0 == query
  }

  // What is given: regular casts, a sound column whose id has no colon, and a service that
  // honours queries.
  ghost predicate Given(numbers: Numbers, meaning: Semantics, keeps: (string, RowInfo) -> bool, c: nat) {
    && Regular(meaning.casts, numbers) && Honours(numbers, keeps)
    && c < |meaning.table.columns| && SoundColumn(meaning.table.columns[c]) && ':' !in meaning.table.columns[c].id
  }

  // The service keeps a row for the pushed query if and only if the filter holds for it and its
  // cell is of the JSON type that goes with the column.
  lemma QueryMeansFilter(numbers: Numbers, meaning: Semantics, keeps: (string, RowInfo) -> bool, e: Expr, c: nat,
                         v: Value, query: string, row: RowInfo)
    requires Given(numbers, meaning, keeps, c) && Pushed(numbers, meaning, e, c, v, query)
    requires CleanRow(row, meaning.table.columns[c].id)
    ensures keeps(query, row) <==> meaning.Holds(e, row) && NativeCell(numbers, meaning.table.columns[c], row)
  {
    var column := meaning.table.columns[c];
    QueryRoundTrip(numbers, column.id, column.name, InputOf(v));
    InputJson(v);
    EqualityHolds(meaning, e, c, v, row);
    CellMatches(meaning.casts, numbers, column, row, v);
    assert meaning.ColumnValue(c, row) == Shown(meaning.casts, column, row);
  }

  // ------------------------------------------------------- all rows

  lemma AllButOne(meaning: Semantics, filters: seq<Expr>, k: nat, row: RowInfo)
    requires k < |filters|
    ensures meaning.AllHold(filters, row)
            <==> meaning.Holds(filters[k], row) && meaning.AllHold(filters[..k] + filters[k + 1..], row)
  {
    var rest := filters[..k] + filters[k + 1..];
    assert forall i :: 0 <= i < k ==> rest[i] == filters[i];
    assert forall i :: k < i < |filters| ==> rest[i - 1] == filters[i];
  }

  // Filtering twice gives no more than filtering once for what implies it, and the same exactly
  // when no element tells them apart.
  lemma {:induction false} FilterTwice<A>(all: A -> bool, first: A -> bool, second: A -> bool, s: seq<A>)
    requires forall x :: x in s && first(x) && second(x) ==> all(x)
    ensures |Filter(second, Filter(first, s))| <= |Filter(all, s)|
    ensures Filter(all, s) == Filter(second, Filter(first, s)) <==> forall x :: x in s && all(x) ==> first(x) && second(x)
  {
    if s != [] {
      var n := |s| - 1;
      assert s == s[..n] + [s[n]] && s[n] in s;
      FilterTwice(all, first, second, s[..n]);
      FilterPush(second, Filter(first, s[..n]), s[n]);
      LastOfFilter(Filter(all, s[..n]), Filter(second, Filter(first, s[..n])), s[n]);
    }
  }

  lemma LastOfFilter<A>(a: seq<A>, b: seq<A>, x: A)
    ensures a + [x] == b + [x] <==> a == b
    ensures |b| <= |a| ==> a + [x] != b
  {
    if a + [x] == b + [x] {
      assert a == (a + [x])[..|a|] && b == (b + [x])[..|b|];
    }
  }

  // A row that satisfies all filters and has a cell of another JSON type in the pushed column.
  ghost predicate Lost(numbers: Numbers, meaning: Semantics, filters: seq<Expr>, c: nat, row: RowInfo)
    requires c < |meaning.table.columns|
  {
    meaning.AllHold(filters, row) && !NativeCell(numbers, meaning.table.columns[c], row)
  }

  // Pushdown keeps the rows of a query - those that satisfy all filters are those that satisfy
  // the remaining ones among the rows replied - if and only if none is lost like that.
  lemma PushdownPreservesIff(numbers: Numbers, meaning: Semantics, keeps: (string, RowInfo) -> bool, filters: seq<Expr>,
                             k: nat, c: nat, v: Value, query: string, rows: seq<RowInfo>)
    requires Given(numbers, meaning, keeps, c)
    requires k < |filters| && Pushed(numbers, meaning, filters[k], c, v, query)
    requires forall row :: row in rows ==> CleanRow(row, meaning.table.columns[c].id)
    ensures meaning.Select(filters, rows)
            == meaning.Select(filters[..k] + filters[k + 1..], ReplyTo(keeps, query, rows))
            <==> forall row :: row in rows ==> !Lost(numbers, meaning, filters, c, row)
  {
    var rest := filters[..k] + filters[k + 1..];
    var all, first, second := (row: RowInfo) => meaning.AllHold(filters, row), (row: RowInfo) => keeps(query, row),
                              (row: RowInfo) => meaning.AllHold(rest, row);
    forall row | row in rows
      ensures first(row) && second(row) <==> all(row) && NativeCell(numbers, meaning.table.columns[c], row)
    {
      QueryMeansFilter(numbers, meaning, keeps, filters[k], c, v, query, row);
      AllButOne(meaning, filters, k, row);
    }
    FilterTwice(all, first, second, rows);
    assert (forall row :: row in rows && all(row) ==> first(row) && second(row))
      <==> forall row :: row in rows ==> !Lost(numbers, meaning, filters, c, row);
  }

  // ------------------------------------------------------- all constants

  // For a constant the service's answer about a row is right.
  ghost predicate Right(numbers: Numbers, casts: Casts, column: ColumnInfo, row: RowInfo, v: Value) {
    HasCell(numbers, row, column.id, JsonOf(v)) <==> Shown(casts, column, row) == v
  }

  // A column can be filtered by the service without losing rows, whatever the constant, if and
  // only if every cell is of its JSON type, or shows as NULL.
  lemma ColumnFiltersIff(numbers: Numbers, casts: Casts, column: ColumnInfo, rows: seq<RowInfo>)
    requires Regular(casts, numbers) && SoundColumn(column) && Has(column.capabilities, COLUMN_FILTER_EQUALITY)
    requires forall row :: row in rows ==> CleanRow(row, column.id)
    ensures (forall v, row | HasType(v, DuckType(column.logicalType)) && row in rows :: Right(numbers, casts, column, row, v))
            <==> forall row :: row in rows ==> NativeCell(numbers, column, row) || Shown(casts, column, row) == Null
  {
    forall v, row | HasType(v, DuckType(column.logicalType)) && row in rows
      ensures Right(numbers, casts, column, row, v)
              <==> NativeCell(numbers, column, row) || Shown(casts, column, row) != v
    {
      CellMatches(casts, numbers, column, row, v);
    }
    forall row | row in rows && !NativeCell(numbers, column, row) && Shown(casts, column, row) != Null
      ensures HasType(Shown(casts, column, row), DuckType(column.logicalType))
      ensures !Right(numbers, casts, column, row, Shown(casts, column, row))
    {
    }
  }
}
