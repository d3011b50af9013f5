// What the requests of writes say of the chunk and the plan they are made from.
module WriteMeaning {
  import opened BridgeWrite
  import opened CatalogClient
  import opened CodaJson
  import opened CodaService
  import opened DuckValues
  import opened Mutation
  import opened QueryText
  import opened ScanValues
  import opened Sequences
  import opened Wrappers

  // The JSON value of a DuckDB value.
  predicate Carries(v: Value, j: Json) {
    match v
    case Null => j == JNull
    case BooleanValue(b) => j == JBool(b)
    case SignedValue(n) => j == JInt(n)
    case UnsignedValue(u) => j == JInt(u)
    case DoubleValue(x) => j == JReal(x)
    case VarcharValue(s) => j == JString(s)
    case OtherValue(text) => j == JString(text)
  }

  // The numbers below n that are chosen, in ascending order.
  ghost predicate Chosen(positions: seq<nat>, n: nat, choice: nat -> bool) {
    && (forall k :: 0 <= k < |positions| ==> positions[k] < n && choice(positions[k]))
    && (forall j, k :: 0 <= j < k < |positions| ==> positions[j] < positions[k])
    && (forall c: nat :: c < n && choice(c) ==> c in positions)
  }

  function Editable(columns: seq<ColumnInfo>): nat -> bool {
    (c: nat) => c < |columns| && Has(columns[c].capabilities, COLUMN_EDITABLE)
  }

  function Positions(columns: seq<ColumnInfo>): seq<nat> {
    EditablePositions(Map(WriteColumnOf, columns))
  }

  lemma {:induction false} PositionsAreChosen(columns: seq<ColumnInfo>)
    ensures Chosen(Positions(columns), |columns|, Editable(columns))
  {
    var written := Map(WriteColumnOf, columns);
    forall c | 0 <= c < |columns| ensures written[c] == WriteColumn(columns[c].id, columns[c].capabilities) {
      MapAt(WriteColumnOf, columns, c);
    }
    forall k | 0 <= k < |Positions(columns)|
      ensures Positions(columns)[k] < |columns| && Editable(columns)(Positions(columns)[k])
    {
      PositionEditable(written, k);
    }
    forall j, k | 0 <= j < k < |Positions(columns)| ensures Positions(columns)[j] < Positions(columns)[k] {
      PositionsAscend(written, j, k);
    }
    forall c: nat | c < |columns| && Editable(columns)(c) ensures c in Positions(columns) {
      PositionsComplete(written, c);
    }
  }

  // A row assigns to the columns at these positions, in their order, the values of a row of a chunk.
  ghost predicate AssignsRow(row: seq<Assignment>, positions: seq<nat>, columns: seq<ColumnInfo>, chunk: DataChunk, r: nat) {
    |row| == |positions| && forall k :: 0 <= k < |row| ==>
      AssignsCell(row[k], positions[k], columns, chunk, r)
  }

  ghost predicate AssignsCell(a: Assignment, c: nat, columns: seq<ColumnInfo>, chunk: DataChunk, r: nat) {
    && c < |columns| && c < |chunk.columns| && r < |chunk.columns[c]|
    && a.column == columns[c].id && Carries(chunk.columns[c][r], a.value)
  }

  lemma {:induction false} ChunkCell(chunk: DataChunk, c: nat, r: nat)
    requires chunk.Valid() && c < |chunk.columns| && r < chunk.size
    ensures r < |chunk.columns[c]| && chunk.GetValue(c, r) == chunk.columns[c][r]
  {
    assert LookInside(0);
  }

  lemma {:induction false} ChunkRowAssigns(columns: seq<ColumnInfo>, chunk: DataChunk, r: nat)
    requires chunk.Valid() && |columns| <= |chunk.columns| && r < chunk.size
    ensures AssignsRow(ChunkAssignments(columns, chunk, r), Positions(columns), columns, chunk, r)
  {
    if columns != [] {
      var n := |columns| - 1;
      var front := columns[..n];
      ChunkRowAssigns(front, chunk, r);
      MapSplit(WriteColumnOf, columns, n);
      MapAt(WriteColumnOf, columns, n);
      ChunkCell(chunk, n, r);
      forall k | 0 <= k < |Positions(front)|
        ensures AssignsCell(ChunkAssignments(front, chunk, r)[k], Positions(front)[k], columns, chunk, r)
      {
        assert AssignsCell(ChunkAssignments(front, chunk, r)[k], Positions(front)[k], front, chunk, r);
      }
    }
  }

  // ------------------------------------------------------- inserts

  // An insert goes to its table, with a row for every row of the chunk: that assigns to the
  // editable columns of the table, in their order, what the chunk has in these columns.
  lemma {:induction false} InsertMeans(table: CatalogTableInfo, chunk: DataChunk)
    requires chunk.Valid() && |table.columns| <= |chunk.columns|
    ensures var request := ChunkInsert(table, chunk);
            && request.UpsertRows? && request.tableId == table.id && DecodeInsert(request.payload).Some?
            && var rows, positions := DecodeInsert(request.payload).value, Positions(table.columns);
               && Chosen(positions, |table.columns|, Editable(table.columns))
               && |rows| == chunk.size
               && forall r :: 0 <= r < |rows| ==> AssignsRow(rows[r], positions, table.columns, chunk, r)
  {
    ChunkInsertRoundTrip(table, chunk);
    PositionsAreChosen(table.columns);
    var rows := ChunkRows(table.columns, chunk, chunk.size);
    forall r | 0 <= r < |rows| ensures AssignsRow(rows[r], Positions(table.columns), table.columns, chunk, r) {
      ChunkRowAt(table.columns, chunk, chunk.size, r);
      ChunkRowAssigns(table.columns, chunk, r);
    }
  }

  lemma {:induction false} ChunkRowAt(columns: seq<ColumnInfo>, chunk: DataChunk, rows: nat, r: nat)
    requires chunk.Valid() && |columns| <= |chunk.columns| && r < rows <= chunk.size
    ensures ChunkRows(columns, chunk, rows)[r] == ChunkAssignments(columns, chunk, r)
  {
    if r < rows - 1 {
      ChunkRowAt(columns, chunk, rows - 1, r);
    }
  }

  // ------------------------------------------------------- row ids

  // The text that names a row: a text is its own, as the row id that a scan shows is.
  ghost predicate NamesRow(v: Value, rowId: string) {
    v.VarcharValue? ==> rowId == v.s
  }

  // A row id that was scanned names the row that it was scanned from.
  lemma {:induction false} ScannedRowIsNamed(projection: Projection, row: RowInfo, rowId: string)
    requires NamesRow(projection.RenderColumn(RowId, row), rowId)
    ensures rowId == row.id
  {
  }

  // ------------------------------------------------------- updates

  // The e-th target of an update is an editable column of the table.
  predicate Writable(plan: UpdatePlan, e: nat) {
    e < |plan.expressions| <= |plan.columns| && plan.columns[e] < |plan.table.columns|
    && Has(plan.table.columns[plan.columns[e]].capabilities, COLUMN_EDITABLE)
  }

  // It is assigned the value that its own expression has for row i: that of the chunk's column x for
  // a reference to x, and null for the default.
  ghost predicate AssignsTarget(plan: UpdatePlan, chunk: DataChunk, i: nat, e: nat, a: Assignment) {
    && Writable(plan, e) && a.column == plan.table.columns[plan.columns[e]].id
    && match plan.expressions[e]
       case BoundRef(x) => x < |chunk.columns| && i < |chunk.columns[x]| && Carries(chunk.columns[x][i], a.value)
       case DefaultValue => a.value == JNull
       case OtherExpr => true
  }

  // The targets that are written, in the order of the SET clause.
  ghost predicate AssignsTargets(plan: UpdatePlan, chunk: DataChunk, i: nat, positions: seq<nat>, row: seq<Assignment>) {
    && Chosen(positions, |plan.expressions|, (e: nat) => Writable(plan, e)) && |row| == |positions|
    && forall k :: 0 <= k < |row| ==> AssignsTarget(plan, chunk, i, positions[k], row[k])
  }

  // An update is impossible exactly for a target with an expression that is not supported, for an
  // empty SET clause, and for a table that takes no updates.
  lemma {:induction false} ImpossibleIff(plan: UpdatePlan)
    requires |plan.expressions| <= |plan.columns|
    ensures plan.Impossible()
            <==> || plan.expressions == [] || !Has(plan.table.capabilities, TABLE_UPDATE)
                 || exists e :: 0 <= e < |plan.expressions| && plan.expressions[e].OtherExpr?
                                && plan.columns[e] < |plan.table.columns|
  {
    if e :| 0 <= e < |plan.expressions| && plan.expressions[e].OtherExpr? && plan.columns[e] < |plan.table.columns| {
      assert plan.InTable(e);
    }
  }

  // A pushed equality is described by the name of its column and the text of its value.
  lemma {:induction false} DescriptionIsText(numbers: Numbers, id: string, name: string, v: Value)
    requires !v.Null?
    ensures BuildEqualityQuery(numbers, id, name, InputOf(v)).value.1
            == name + " = " + ToText(Printer(numbers.describe), v)
  {
  }

  lemma {:induction false} TargetAt(plan: UpdatePlan, n: nat, e: nat)
    requires e < n <= |plan.expressions| <= |plan.columns|
    ensures plan.Targets(n)[e] == plan.TargetOf(e)
  {
    if e < n - 1 {
      TargetAt(plan, n - 1, e);
    }
  }

  lemma {:induction false} TargetsWritable(plan: UpdatePlan, e: nat)
    requires e < |plan.expressions| <= |plan.columns|
    ensures var targets := plan.Targets(|plan.expressions|);
            && (Editable(targets)(e) <==> Writable(plan, e))
            && (Writable(plan, e) ==> targets[e].id == plan.table.columns[plan.columns[e]].id)
  {
    TargetAt(plan, |plan.expressions|, e);
    assert !Has(COLUMN_GENERATED, COLUMN_EDITABLE);
  }

  lemma {:induction false} TargetCell(plan: UpdatePlan, chunk: DataChunk, i: nat, e: nat, a: Assignment)
    requires plan.Valid(chunk) && i < chunk.size && e < |plan.expressions| && Writable(plan, e)
    requires AssignsCell(a, e, plan.Targets(|plan.expressions|), plan.Values(chunk), i)
    ensures AssignsTarget(plan, chunk, i, e, a)
  {
    var values := plan.Values(chunk);
    TargetsWritable(plan, e);
    ChunkCell(values, e, i);
    assert values.columns[e][i] == plan.ValueOf(chunk, e, i);
    if plan.expressions[e].BoundRef? {
      ChunkCell(chunk, plan.expressions[e].index, i);
    }
  }

  lemma {:induction false} UpdateRowAssigns(plan: UpdatePlan, chunk: DataChunk, i: nat)
    requires plan.Valid(chunk) && i < chunk.size
    ensures var targets := plan.Targets(|plan.expressions|);
            AssignsTargets(plan, chunk, i, Positions(targets), ChunkAssignments(targets, plan.Values(chunk), i))
  {
    var targets, values := plan.Targets(|plan.expressions|), plan.Values(chunk);
    var positions, row := Positions(targets), ChunkAssignments(targets, values, i);
    ChunkRowAssigns(targets, values, i);
    PositionsAreChosen(targets);
    forall e: nat | e < |targets| ensures Editable(targets)(e) <==> Writable(plan, e) {
      TargetsWritable(plan, e);
    }
    forall k | 0 <= k < |row| ensures AssignsTarget(plan, chunk, i, positions[k], row[k]) {
      assert AssignsCell(row[k], positions[k], targets, values, i);
      TargetCell(plan, chunk, i, positions[k], row[k]);
    }
  }

  // Request i of an update goes to its table and to row i, and assigns to each editable target of
  // the SET clause, in that order, the value of that target's own expression; and nothing else.
  lemma {:induction false} UpdateMeans(printer: Printer, plan: UpdatePlan, chunk: DataChunk, i: nat)
    requires plan.Valid(chunk) && i < chunk.size
    ensures |ChunkUpdates(printer, plan, chunk, chunk.size)| == chunk.size
    ensures var request := ChunkUpdates(printer, plan, chunk, chunk.size)[i];
            && request.UpdateRow? && request.tableId == plan.table.id
            && |chunk.columns[|chunk.columns| - 1]| == chunk.size
            && NamesRow(chunk.columns[|chunk.columns| - 1][i], request.rowId)
            && DecodeUpdate(request.payload).Some?
            && AssignsTargets(plan, chunk, i, Positions(plan.Targets(|plan.expressions|)), DecodeUpdate(request.payload).value)
  {
    ChunkUpdateAt(printer, plan, chunk, chunk.size, i);
    UpdateRowAssigns(plan, chunk, i);
    UpdateNames(printer, plan, chunk, i);
  }

  lemma {:induction false} UpdateNames(printer: Printer, plan: UpdatePlan, chunk: DataChunk, i: nat)
    requires plan.Valid(chunk) && i < chunk.size
    ensures var request := ChunkUpdate(printer, plan, chunk, i);
            && request.UpdateRow? && request.tableId == plan.table.id
            && |chunk.columns[|chunk.columns| - 1]| == chunk.size
            && NamesRow(chunk.columns[|chunk.columns| - 1][i], request.rowId)
  {
    ChunkCell(chunk, |chunk.columns| - 1, i);
    assert LookInside(0);
  }

  // ------------------------------------------------------- deletes

  // A delete goes to its table and names every row of the chunk, in order.
  lemma {:induction false} DeleteMeans(printer: Printer, table: CatalogTableInfo, chunk: DataChunk, rowIdIndex: nat)
    requires chunk.Valid() && rowIdIndex < |chunk.columns|
    ensures var request := ChunkDelete(printer, table, chunk, rowIdIndex);
            && request.DeleteRows? && request.tableId == table.id && DecodeDelete(request.payload).Some?
            && var ids := DecodeDelete(request.payload).value;
               && |ids| == chunk.size == |chunk.columns[rowIdIndex]|
               && forall i :: 0 <= i < |ids| ==> NamesRow(chunk.columns[rowIdIndex][i], ids[i])
  {
    var ids := RowIdTexts(printer, chunk, rowIdIndex, chunk.size);
    DeleteRoundTrip(ids);
    assert LookInside(0);
    forall i | 0 <= i < |ids| ensures NamesRow(chunk.columns[rowIdIndex][i], ids[i]) {
      RowIdTextAt(printer, chunk, rowIdIndex, chunk.size, i);
      ChunkCell(chunk, rowIdIndex, i);
    }
  }
}
