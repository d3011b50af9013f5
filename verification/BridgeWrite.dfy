// The C++ side of writes: chunks are flattened row by row into values whose strings are
// borrowed from a vector that must not move.
module BridgeWrite {
  import opened AsciiText
  import opened CatalogClient
  import opened CodaJson
  import opened CodaService
  import opened DuckValues
  import opened Mutation
  import opened Sequences
  import opened Wrappers

  // ------------------------------------------------------- borrowed strings

  // A pointer to a string of a vector; it dangles once the vector has moved its strings.
  datatype View = View(generation: nat, index: nat)

  const NO_VIEW: View := View(0, 0)

  class StringVector {
    var strings: seq<string>
    var capacity: nat
    var generation: nat

    ghost predicate Valid()
      reads this
    {
      |strings| <= capacity
    }

    ghost predicate Points(v: View, text: string)
      reads this
    {
      v.generation == generation && v.index < |strings| && strings[v.index] == text
    }

    constructor ()
      ensures Valid() && strings == [] && capacity == 0
    {
      strings, capacity, generation := [], 0, 0;
    }

    method Reserve(count: nat)
      requires Valid()
      modifies this
      ensures Valid() && strings == old(strings) && capacity >= count
    {
      if count > capacity {
        capacity, generation := count, generation + 1;
      }
    }

    // push_back, then a pointer to the new last string. Without spare capacity all strings
    // are moved, and no pointer into them is good any more.
    method Push(text: string) returns (v: View)
      requires Valid()
      modifies this
      ensures Valid() && strings == old(strings) + [text] && Points(v, text)
      ensures old(|strings| < capacity) ==> generation == old(generation) && capacity == old(capacity)
    {
      if |strings| == capacity {
        capacity, generation := 2 * capacity + 1, generation + 1;
      }
      strings := strings + [text];
      v := View(generation, |strings| - 1);
    }
  }

  // ------------------------------------------------------- values

  // How floating point numbers print; this model leaves it open.
  datatype Printer = Printer(double: real -> string)

  // Value::ToString
  function ToText(printer: Printer, v: Value): string {
    match v
    case Null => "NULL"
    case BooleanValue(b) => if b then "true" else "false"
    case SignedValue(n) => PrintInt(n)
    case UnsignedValue(u) => Decimal(u)
    case DoubleValue(x) => printer.double(x)
    case VarcharValue(s) => s
    case OtherValue(text) => text
  }

  predicate IsText(v: Value) {
    v.VarcharValue? || v.OtherValue?
  }

  // Every value as the Rust side should see it.
  function InputOf(v: Value): InputValue<string> {
    match v
    case Null => InputValue(0, false, 0, 0, 0.0, "")
    case BooleanValue(b) => InputValue(1, b, 0, 0, 0.0, "")
    case SignedValue(n) => InputValue(2, false, n, 0, 0.0, "")
    case UnsignedValue(u) => InputValue(3, false, 0, u, 0.0, "")
    case DoubleValue(x) => InputValue(4, false, 0, 0, x, "")
    case VarcharValue(s) => InputValue(5, false, 0, 0, 0.0, s)
    case OtherValue(text) => InputValue(5, false, 0, 0, 0.0, text)
  }

  // The JSON value that stands for a DuckDB value.
  function JsonOf(v: Value): Json {
    match v
    case Null => JNull
    case BooleanValue(b) => JBool(b)
    case SignedValue(n) => JInt(n)
    case UnsignedValue(u) => JInt(u)
    case DoubleValue(x) => JReal(x)
    case VarcharValue(s) => JString(s)
    case OtherValue(text) => JString(text)
  }

  lemma InputJson(v: Value)
    ensures InputValueJson(InputOf(v)) == JsonOf(v)
  {
  }

  // What the Rust side reads through the pointers.
  function ReadInput(strings: seq<string>, generation: nat, v: InputValue<View>): Option<InputValue<string>> {
    if v.valueType != 5 then
      Some(InputValue(v.valueType, v.boolValue, v.intValue, v.uintValue, v.doubleValue, ""))
    else if v.stringValue.generation == generation && v.stringValue.index < |strings| then
      Some(InputValue(v.valueType, v.boolValue, v.intValue, v.uintValue, v.doubleValue, strings[v.stringValue.index]))
    else None
  }

  // All pointers are good, and the values read are these.
  ghost predicate ReadsAs(strings: seq<string>, generation: nat, values: seq<InputValue<View>>,
                          inputs: seq<InputValue<string>>)
  {
    |values| == |inputs| && forall i :: 0 <= i < |values| ==> ReadInput(strings, generation, values[i]) == Some(inputs[i])
  }

  lemma ReadsAsPush(strings: seq<string>, more: seq<string>, generation: nat, values: seq<InputValue<View>>,
                    inputs: seq<InputValue<string>>, value: InputValue<View>, input: InputValue<string>)
    requires ReadsAs(strings, generation, values, inputs)
    requires ReadInput(strings + more, generation, value) == Some(input)
    ensures ReadsAs(strings + more, generation, values + [value], inputs + [input])
  {
  }

  // RustBridgeInputValueBuffer::Convert. A string takes one place of the vector.
  method Convert(buffer: StringVector, value: Value) returns (r: InputValue<View>)
    requires buffer.Valid()
    modifies buffer
    ensures buffer.Valid()
    ensures ReadInput(buffer.strings, buffer.generation, r) == Some(InputOf(value))
    ensures buffer.strings == old(buffer.strings) + if IsText(value) then [InputOf(value).stringValue] else []
    ensures old(|buffer.strings| < buffer.capacity) ==>
              buffer.generation == old(buffer.generation) && buffer.capacity == old(buffer.capacity)
  {
    match value {
      case Null => r := InputValue(0, false, 0, 0, 0.0, NO_VIEW);
      case BooleanValue(b) => r := InputValue(1, b, 0, 0, 0.0, NO_VIEW);
      case SignedValue(n) => r := InputValue(2, false, n, 0, 0.0, NO_VIEW);
      case UnsignedValue(u) => r := InputValue(3, false, 0, u, 0.0, NO_VIEW);
      case DoubleValue(x) => r := InputValue(4, false, 0, 0, x, NO_VIEW);
      case VarcharValue(s) =>
        var v := buffer.Push(s);
        r := InputValue(5, false, 0, 0, 0.0, v);
      case OtherValue(text) =>
        var v := buffer.Push(text);
        r := InputValue(5, false, 0, 0, 0.0, v);
    }
  }

  // Crossing the C ABI: the callee reads through every pointer, so each must be good.
  method ReadInputs(buffer: StringVector, values: seq<InputValue<View>>, ghost inputs: seq<InputValue<string>>)
      returns (r: seq<InputValue<string>>)
    requires ReadsAs(buffer.strings, buffer.generation, values, inputs)
    ensures r == inputs
  {
    r := [];
    for i := 0 to |values|
      invariant r == inputs[..i]
    {
      r := r + [ReadInput(buffer.strings, buffer.generation, values[i]).value];
    }
  }

  method ReadStrings(buffer: StringVector, views: seq<View>, ghost texts: seq<string>) returns (r: seq<string>)
    requires |views| == |texts| && forall i :: 0 <= i < |views| ==> buffer.Points(views[i], texts[i])
    ensures r == texts
  {
    r := [];
    for i := 0 to |views|
      invariant r == texts[..i]
    {
      r := r + [buffer.strings[views[i].index]];
    }
  }

  // ------------------------------------------------------- chunks

  datatype DataChunk = DataChunk(size: nat, columns: seq<seq<Value>>) {
    // Every column has a value for every row. (Folded, as Wrappers.LookInside says.)
    ghost predicate Valid() {
      forall look {:trigger LookInside(look)} :: LookInside(look) ==>
        forall c :: 0 <= c < |columns| ==> |columns[c]| == size
    }

    function GetValue(column: nat, row: nat): Value
      requires Valid() && column < |columns| && row < size
    {
      assert LookInside(0);
      columns[column][row]
    }

    // The first `width` values of a row.
    function Row(width: nat, row: nat): (r: seq<Value>)
      requires Valid() && width <= |columns| && row < size
      ensures |r| == width
    {
      if width == 0 then [] else Row(width - 1, row) + [GetValue(width - 1, row)]
    }
  }

  // The inputs of the first `rows` rows, one row after the other.
  function RowMajor(chunk: DataChunk, width: nat, rows: nat): seq<InputValue<string>>
    requires chunk.Valid() && width <= |chunk.columns| && rows <= chunk.size
  {
    if rows == 0 then [] else RowMajor(chunk, width, rows - 1) + Map(InputOf, chunk.Row(width, rows - 1))
  }

  lemma {:induction false} RowMajorLength(chunk: DataChunk, width: nat, rows: nat)
    requires chunk.Valid() && width <= |chunk.columns| && rows <= chunk.size
    ensures |RowMajor(chunk, width, rows)| == Cells(rows, width)
  {
    if rows > 0 {
      RowMajorLength(chunk, width, rows - 1);
    }
  }

  // Slicing the flat values gives back each row.
  lemma {:induction false} RowMajorRow(chunk: DataChunk, width: nat, rows: nat, r: nat)
    requires chunk.Valid() && width <= |chunk.columns| && r < rows <= chunk.size
    ensures |RowMajor(chunk, width, rows)| == Cells(rows, width) && Cells(r + 1, width) <= Cells(rows, width)
    ensures RowValues(RowMajor(chunk, width, rows), width, r) == Map(InputOf, chunk.Row(width, r))
  {
    RowMajorLength(chunk, width, rows);
    RowMajorLength(chunk, width, rows - 1);
    RowFits(r, rows, width);
    var front, last := RowMajor(chunk, width, rows - 1), Map(InputOf, chunk.Row(width, rows - 1));
    if r < rows - 1 {
      RowMajorRow(chunk, width, rows - 1, r);
      RowOfFront(front, last, width, r);
    } else {
      RowOfLast(front, last, width, r);
    }
  }

  lemma RowOfFront<S>(front: seq<InputValue<S>>, last: seq<InputValue<S>>, width: nat, r: nat)
    requires Cells(r + 1, width) <= |front|
    ensures RowValues(front + last, width, r) == RowValues(front, width, r)
  {
    SliceOfFront(front, last, Cells(r, width), width);
  }

  lemma RowOfLast<S>(front: seq<InputValue<S>>, last: seq<InputValue<S>>, width: nat, r: nat)
    requires Cells(r, width) == |front| && width == |last| && Cells(r + 1, width) == |front + last|
    ensures RowValues(front + last, width, r) == last
  {
    SliceOfLast(front, last, Cells(r, width), width);
  }

  lemma SliceOfFront<T>(a: seq<T>, b: seq<T>, start: nat, width: nat)
    requires start + width <= |a|
    ensures (a + b)[start..start + width] == a[start..start + width]
  {
  }

  lemma SliceOfLast<T>(a: seq<T>, b: seq<T>, start: nat, width: nat)
    requires start == |a| && width == |b|
    ensures (a + b)[start..start + width] == b
  {
  }

  // EditableColumns: every column of the table, with its capabilities.
  function WriteColumnOf(c: ColumnInfo): WriteColumn {
    WriteColumn(c.id, c.capabilities)
  }

  function EditableColumns(table: CatalogTableInfo): (r: seq<WriteColumn>)
    ensures |r| == |table.columns|
  {
    Map(WriteColumnOf, table.columns)
  }

  // One row of the flattening loop.
  method FlattenRow(chunk: DataChunk, width: nat, row: nat, buffer: StringVector, values: seq<InputValue<View>>,
                    ghost inputs: seq<InputValue<string>>)
      returns (r: seq<InputValue<View>>)
    requires chunk.Valid() && width <= |chunk.columns| && row < chunk.size
    requires buffer.Valid() && |buffer.strings| + width <= buffer.capacity
    requires ReadsAs(buffer.strings, buffer.generation, values, inputs)
    modifies buffer
    ensures buffer.Valid() && buffer.generation == old(buffer.generation) && buffer.capacity == old(buffer.capacity)
    ensures |buffer.strings| <= old(|buffer.strings|) + width
    ensures ReadsAs(buffer.strings, buffer.generation, r, inputs + Map(InputOf, chunk.Row(width, row)))
  {
    r := values;
    ghost var done := inputs;
    for col := 0 to width
      invariant buffer.Valid() && buffer.generation == old(buffer.generation) && buffer.capacity == old(buffer.capacity)
      invariant |buffer.strings| <= old(|buffer.strings|) + col
      invariant done == inputs + Map(InputOf, chunk.Row(col, row))
      invariant ReadsAs(buffer.strings, buffer.generation, r, done)
    {
      ghost var before := buffer.strings;
      var cell := chunk.GetValue(col, row);
      var value := Convert(buffer, cell);
      ReadsAsPush(before, buffer.strings[|before|..], buffer.generation, r, done, value, InputOf(cell));
      assert buffer.strings == before + buffer.strings[|before|..];
      MapPush(InputOf, chunk.Row(col, row), cell);
      Assoc(inputs, Map(InputOf, chunk.Row(col, row)), [InputOf(cell)]);
      r := r + [value];
      done := done + [InputOf(cell)];
    }
  }

  // The values of a whole chunk, and a buffer whose strings have not moved.
  method FlattenChunk(chunk: DataChunk, width: nat) returns (values: seq<InputValue<View>>, buffer: StringVector)
    requires chunk.Valid() && width <= |chunk.columns|
    ensures fresh(buffer)
    ensures ReadsAs(buffer.strings, buffer.generation, values, RowMajor(chunk, width, chunk.size))
  {
    buffer := new StringVector();
    CellsProduct(chunk.size, width);
    buffer.Reserve(chunk.size * width);
    values := [];
    for row := 0 to chunk.size
      invariant fresh(buffer) && buffer.Valid() && buffer.capacity >= Cells(chunk.size, width)
      invariant |buffer.strings| <= Cells(row, width)
      invariant ReadsAs(buffer.strings, buffer.generation, values, RowMajor(chunk, width, row))
    {
      RowFits(row, chunk.size, width);
      values := FlattenRow(chunk, width, row, buffer, values, RowMajor(chunk, width, row));
    }
  }

  // ------------------------------------------------------- inserts

  // What a row of a chunk assigns: the editable columns of the table, each with the chunk's
  // value, as JSON.
  function ChunkAssignments(columns: seq<ColumnInfo>, chunk: DataChunk, row: nat): seq<Assignment>
    requires chunk.Valid() && |columns| <= |chunk.columns| && row < chunk.size
  {
    if columns == [] then []
    else
      var n := |columns| - 1;
      var front := ChunkAssignments(columns[..n], chunk, row);
      if Has(columns[n].capabilities, COLUMN_EDITABLE) then front + [Assignment(columns[n].id, JsonOf(chunk.GetValue(n, row)))]
      else front
  }

  lemma {:induction false} AssignmentsOfChunk(columns: seq<ColumnInfo>, chunk: DataChunk, row: nat,
                                              inputs: seq<InputValue<string>>)
    requires chunk.Valid() && |columns| <= |chunk.columns| && row < chunk.size && |columns| <= |inputs|
    requires forall c :: 0 <= c < |columns| ==> inputs[c] == InputOf(chunk.GetValue(c, row))
    ensures Assignments(Map(WriteColumnOf, columns), inputs) == ChunkAssignments(columns, chunk, row)
  {
    if columns != [] {
      var n := |columns| - 1;
      AssignmentsOfChunk(columns[..n], chunk, row, inputs);
      InputJson(chunk.GetValue(n, row));
    }
  }

  lemma {:induction false} RowInputs(chunk: DataChunk, width: nat, row: nat, c: nat)
    requires chunk.Valid() && c < width <= |chunk.columns| && row < chunk.size
    ensures Map(InputOf, chunk.Row(width, row))[c] == InputOf(chunk.GetValue(c, row))
  {
    MapPush(InputOf, chunk.Row(width - 1, row), chunk.GetValue(width - 1, row));
    if c < width - 1 {
      RowInputs(chunk, width - 1, row, c);
    }
  }

  // All rows of a chunk.
  function ChunkRows(columns: seq<ColumnInfo>, chunk: DataChunk, rows: nat): (r: seq<seq<Assignment>>)
    requires chunk.Valid() && |columns| <= |chunk.columns| && rows <= chunk.size
    ensures |r| == rows
  {
    if rows == 0 then [] else ChunkRows(columns, chunk, rows - 1) + [ChunkAssignments(columns, chunk, rows - 1)]
  }

  lemma RowOfChunk(columns: seq<ColumnInfo>, chunk: DataChunk, r: nat)
    requires chunk.Valid() && |columns| <= |chunk.columns| && r < chunk.size
    ensures var width, values := |columns|, RowMajor(chunk, |columns|, chunk.size);
            && Cells(r + 1, width) <= |values|
            && Assignments(Map(WriteColumnOf, columns), RowValues(values, width, r)) == ChunkAssignments(columns, chunk, r)
  {
    var width := |columns|;
    RowMajorRow(chunk, width, chunk.size, r);
    var row := Map(InputOf, chunk.Row(width, r));
    forall c | 0 <= c < width ensures row[c] == InputOf(chunk.GetValue(c, r)) {
      RowInputs(chunk, width, r, c);
    }
    AssignmentsOfChunk(columns, chunk, r, row);
  }

  lemma {:induction false} RowsOfChunk(columns: seq<ColumnInfo>, chunk: DataChunk, rows: nat)
    requires chunk.Valid() && |columns| <= |chunk.columns| && rows <= chunk.size
    ensures var width, values := |columns|, RowMajor(chunk, |columns|, chunk.size);
            && Cells(rows, width) <= |values|
            && RowAssignments(Map(WriteColumnOf, columns), values, rows, width) == ChunkRows(columns, chunk, rows)
  {
    if rows > 0 {
      RowsOfChunk(columns, chunk, rows - 1);
      RowOfChunk(columns, chunk, rows - 1);
    }
  }

  // The request of an insert. Decoding its body gives back, row by row, exactly the chunk's
  // values in the editable columns.
  function ChunkInsert(table: CatalogTableInfo, chunk: DataChunk): Request
    requires chunk.Valid() && |table.columns| <= |chunk.columns|
  {
    UpsertRows(table.id, InsertJson(ChunkRows(table.columns, chunk, chunk.size)))
  }

  lemma ChunkInsertRoundTrip(table: CatalogTableInfo, chunk: DataChunk)
    requires chunk.Valid() && |table.columns| <= |chunk.columns|
    ensures DecodeInsert(ChunkInsert(table, chunk).payload) == Some(ChunkRows(table.columns, chunk, chunk.size))
  {
    InsertRoundTrip(ChunkRows(table.columns, chunk, chunk.size));
  }

  // RustBridgeClient::InsertRows
  method ClientInsertRows(remote: Remote, table: CatalogTableInfo, chunk: DataChunk)
      returns (r: Result<nat, Error>, ghost sent: seq<Request>)
    requires chunk.Valid() && |table.columns| <= |chunk.columns|
    modifies remote
    ensures remote.log == old(remote.log) + sent
    ensures if !Has(table.capabilities, TABLE_INSERT) then r == Failure(UnsupportedOperation) && sent == []
            else
              && Sending(sent, r.Success?) == Sends(remote.service, old(remote.log), [ChunkInsert(table, chunk)])
              && r == if r.Success? then Success(chunk.size) else Failure(Transport)
  {
    var columns := EditableColumns(table);
    var values, buffer := FlattenChunk(chunk, |table.columns|);
    var inputs := ReadInputs(buffer, values, RowMajor(chunk, |table.columns|, chunk.size));
    RowsOfChunk(table.columns, chunk, chunk.size);
    r, sent := SendInsertRows(remote, table.id, columns, inputs, chunk.size, |table.columns|, table.capabilities);
  }

  // ------------------------------------------------------- updates and deletes

  // The expressions of a SET clause.
  datatype UpdateExpr = BoundRef(index: nat) | DefaultValue | OtherExpr

  datatype UpdatePlan = UpdatePlan(table: CatalogTableInfo, columns: seq<nat>, expressions: seq<UpdateExpr>) {
    ghost predicate Valid(chunk: DataChunk) {
      && chunk.Valid() && |chunk.columns| >= 1
      && |expressions| <= |columns|
      && forall e :: 0 <= e < |expressions| && expressions[e].BoundRef? ==> expressions[e].index < |chunk.columns|
    }

    predicate InTable(e: nat)
      requires e < |expressions| <= |columns|
    {
      columns[e] < |table.columns|
    }

    predicate SupportedUpTo(n: nat)
      requires n <= |expressions| <= |columns|
    {
      forall e :: 0 <= e < n ==> !(InTable(e) && expressions[e].OtherExpr?)
    }

    // Some column of the table is set to an expression that is not supported.
    predicate Unsupported()
      requires |expressions| <= |columns|
    {
      !SupportedUpTo(|expressions|)
    }

    // Rejected before anything is sent.
    predicate Impossible()
      requires |expressions| <= |columns|
    {
      Unsupported() || expressions == [] || !Has(table.capabilities, TABLE_UPDATE)
    }

    // The value that expression e gives a row.
    function ValueOf(chunk: DataChunk, e: nat, row: nat): Value
      requires Valid(chunk) && e < |expressions| && row < chunk.size
    {
      if InTable(e) && expressions[e].BoundRef? then chunk.GetValue(expressions[e].index, row) else Null
    }

    // The chunk of all these values.
    function Values(chunk: DataChunk): (r: DataChunk)
      requires Valid(chunk)
      ensures r.Valid() && r.size == chunk.size && |r.columns| == |expressions|
      ensures forall e: nat, row: nat :: e < |expressions| && row < chunk.size ==>
                r.GetValue(e, row) == ValueOf(chunk, e, row)
    {
      DataChunk(chunk.size,
                seq(|expressions|, e requires 0 <= e < |expressions| =>
                    seq(chunk.size, row requires 0 <= row < chunk.size => ValueOf(chunk, e, row))))
    }

    function TargetOf(e: nat): ColumnInfo
      requires e < |expressions| <= |columns|
    {
      if InTable(e) then table.columns[columns[e]]
      else ColumnInfo("", "", "", COLUMN_GENERATED, 0)
    }

    // The columns that are set, first to last; an index outside the table stands for a
    // column that is not editable.
    function Targets(n: nat): (r: seq<ColumnInfo>)
      requires n <= |expressions| <= |columns|
      ensures |r| == n
    {
      if n == 0 then [] else Targets(n - 1) + [TargetOf(n - 1)]
    }
  }

  // update_columns
  method TargetColumns(plan: UpdatePlan) returns (columns: seq<WriteColumn>)
    requires |plan.expressions| <= |plan.columns|
    ensures columns == PlanColumns(plan)
  {
    columns := [];
    for e := 0 to |plan.expressions|
      invariant columns == Map(WriteColumnOf, plan.Targets(e))
    {
      MapPush(WriteColumnOf, plan.Targets(e), plan.TargetOf(e));
      var columnIndex := plan.columns[e];
      if columnIndex >= |plan.table.columns| {
        columns := columns + [WriteColumn("", COLUMN_GENERATED)];
      } else {
        var column := plan.table.columns[columnIndex];
        columns := columns + [WriteColumn(column.id, column.capabilities)];
      }
    }
  }

  // One expression of an update, for one row.
  method Evaluate(plan: UpdatePlan, chunk: DataChunk, e: nat, row: nat, buffer: StringVector)
      returns (r: Result<InputValue<View>, Error>)
    requires plan.Valid(chunk) && e < |plan.expressions| && row < chunk.size
    requires buffer.Valid() && |buffer.strings| < buffer.capacity
    modifies buffer
    ensures buffer.Valid() && buffer.generation == old(buffer.generation) && buffer.capacity == old(buffer.capacity)
    ensures old(buffer.strings) <= buffer.strings && |buffer.strings| <= old(|buffer.strings|) + 1
    ensures if plan.InTable(e) && plan.expressions[e].OtherExpr? then r == Failure(UnsupportedExpression)
            else
              && r.Success?
              && ReadInput(buffer.strings, buffer.generation, r.value) == Some(InputOf(plan.ValueOf(chunk, e, row)))
  {
    if plan.columns[e] >= |plan.table.columns| {
      return Success(InputValue(0, false, 0, 0, 0.0, NO_VIEW));
    }
    var cell := Null;
    match plan.expressions[e] {
      case BoundRef(index) => cell := chunk.GetValue(index, row);
      case DefaultValue =>
      case OtherExpr => return Failure(UnsupportedExpression);
    }
    var value := Convert(buffer, cell);
    r := Success(value);
  }

  method PushCell(plan: UpdatePlan, chunk: DataChunk, e: nat, row: nat, buffer: StringVector,
                  values: seq<InputValue<View>>, ghost inputs: seq<InputValue<string>>)
      returns (r: Result<seq<InputValue<View>>, Error>)
    requires plan.Valid(chunk) && e < |plan.expressions| && row < chunk.size
    requires buffer.Valid() && |buffer.strings| < buffer.capacity
    requires ReadsAs(buffer.strings, buffer.generation, values, inputs)
    modifies buffer
    ensures buffer.Valid() && buffer.generation == old(buffer.generation) && buffer.capacity == old(buffer.capacity)
    ensures |buffer.strings| <= old(|buffer.strings|) + 1
    ensures if plan.InTable(e) && plan.expressions[e].OtherExpr? then r == Failure(UnsupportedExpression)
            else
              && r.Success?
              && ReadsAs(buffer.strings, buffer.generation, r.value, inputs + [InputOf(plan.ValueOf(chunk, e, row))])
  {
    ghost var before := buffer.strings;
    var evaluated := Evaluate(plan, chunk, e, row, buffer);
    if evaluated.Failure? {
      return Failure(evaluated.error);
    }
    assert buffer.strings == before + buffer.strings[|before|..];
    ReadsAsPush(before, buffer.strings[|before|..], buffer.generation, values, inputs, evaluated.value,
                InputOf(plan.ValueOf(chunk, e, row)));
    r := Success(values + [evaluated.value]);
  }

  lemma InputsPush(plan: UpdatePlan, chunk: DataChunk, inputs: seq<InputValue<string>>, e: nat, row: nat)
    requires plan.Valid(chunk) && e < |plan.expressions| && row < chunk.size
    ensures inputs + Map(InputOf, plan.Values(chunk).Row(e + 1, row))
            == inputs + Map(InputOf, plan.Values(chunk).Row(e, row)) + [InputOf(plan.ValueOf(chunk, e, row))]
  {
    var cells := plan.Values(chunk);
    MapPush(InputOf, cells.Row(e, row), cells.GetValue(e, row));
    Assoc(inputs, Map(InputOf, cells.Row(e, row)), [InputOf(cells.GetValue(e, row))]);
  }

  // The values of one row of an update.
  method FlattenUpdate(plan: UpdatePlan, chunk: DataChunk, row: nat, buffer: StringVector,
                       values: seq<InputValue<View>>, ghost inputs: seq<InputValue<string>>)
      returns (r: Result<seq<InputValue<View>>, Error>)
    requires plan.Valid(chunk) && row < chunk.size
    requires buffer.Valid() && |buffer.strings| + |plan.expressions| <= buffer.capacity
    requires ReadsAs(buffer.strings, buffer.generation, values, inputs)
    modifies buffer
    ensures buffer.Valid() && buffer.generation == old(buffer.generation) && buffer.capacity == old(buffer.capacity)
    ensures |buffer.strings| <= old(|buffer.strings|) + |plan.expressions|
    ensures if plan.Unsupported() then r == Failure(UnsupportedExpression)
            else
              && r.Success?
              && ReadsAs(buffer.strings, buffer.generation, r.value,
                         inputs + Map(InputOf, plan.Values(chunk).Row(|plan.expressions|, row)))
  {
    var all := values;
    ghost var done := inputs;
    for e := 0 to |plan.expressions|
      invariant buffer.Valid() && buffer.generation == old(buffer.generation) && buffer.capacity == old(buffer.capacity)
      invariant |buffer.strings| <= old(|buffer.strings|) + e
      invariant done == inputs + Map(InputOf, plan.Values(chunk).Row(e, row))
      invariant ReadsAs(buffer.strings, buffer.generation, all, done)
      invariant plan.SupportedUpTo(e)
    {
      var pushed := PushCell(plan, chunk, e, row, buffer, all, done);
      if pushed.Failure? {
        return Failure(pushed.error);
      }
      InputsPush(plan, chunk, inputs, e, row);
      all := pushed.value;
      done := done + [InputOf(plan.ValueOf(chunk, e, row))];
    }
    r := Success(all);
  }

  // The texts of a row-id column, borrowed from a vector of their own.
  function RowIdTexts(printer: Printer, chunk: DataChunk, column: nat, rows: nat): (r: seq<string>)
    requires chunk.Valid() && column < |chunk.columns| && rows <= chunk.size
    ensures |r| == rows
  {
    if rows == 0 then []
    else RowIdTexts(printer, chunk, column, rows - 1) + [ToText(printer, chunk.GetValue(column, rows - 1))]
  }

  method BorrowRowIds(printer: Printer, chunk: DataChunk, column: nat) returns (ids: seq<string>)
    requires chunk.Valid() && column < |chunk.columns|
    ensures ids == RowIdTexts(printer, chunk, column, chunk.size)
  {
    var texts := new StringVector();
    texts.Reserve(chunk.size);
    var views: seq<View> := [];
    for row := 0 to chunk.size
      invariant fresh(texts) && texts.Valid() && texts.capacity >= chunk.size && |texts.strings| == row == |views|
      invariant forall i :: 0 <= i < row ==> texts.Points(views[i], RowIdTexts(printer, chunk, column, row)[i])
    {
      var v := texts.Push(ToText(printer, chunk.GetValue(column, row)));
      views := views + [v];
    }
    ids := ReadStrings(texts, views, RowIdTexts(printer, chunk, column, chunk.size));
  }

  // RustBridgeClient::UpdateRows, up to the call.
  method FlattenUpdates(plan: UpdatePlan, chunk: DataChunk)
      returns (r: Result<seq<InputValue<string>>, Error>)
    requires plan.Valid(chunk)
    ensures if chunk.size > 0 && plan.Unsupported() then r == Failure(UnsupportedExpression)
            else r == Success(PlanValues(plan, chunk))
  {
    ghost var cells, width := plan.Values(chunk), |plan.expressions|;
    var buffer := new StringVector();
    CellsProduct(chunk.size, width);
    buffer.Reserve(chunk.size * |plan.expressions|);
    var values: seq<InputValue<View>> := [];
    for row := 0 to chunk.size
      invariant fresh(buffer) && buffer.Valid() && buffer.capacity >= Cells(chunk.size, width)
      invariant |buffer.strings| <= Cells(row, width)
      invariant ReadsAs(buffer.strings, buffer.generation, values, RowMajor(cells, width, row))
      invariant row > 0 ==> !plan.Unsupported()
    {
      RowFits(row, chunk.size, width);
      var next := FlattenUpdate(plan, chunk, row, buffer, values, RowMajor(cells, width, row));
      if next.Failure? {
        return Failure(next.error);
      }
      values := next.value;
    }
    var inputs := ReadInputs(buffer, values, RowMajor(cells, width, chunk.size));
    r := Success(inputs);
  }

  // The requests of an update, one a row.
  function ChunkUpdate(printer: Printer, plan: UpdatePlan, chunk: DataChunk, row: nat): Request
    requires plan.Valid(chunk) && row < chunk.size
  {
    UpdateRow(plan.table.id, ToText(printer, chunk.GetValue(|chunk.columns| - 1, row)),
              UpdateJson(ChunkAssignments(plan.Targets(|plan.expressions|), plan.Values(chunk), row)))
  }

  function ChunkUpdates(printer: Printer, plan: UpdatePlan, chunk: DataChunk, rows: nat): (r: seq<Request>)
    requires plan.Valid(chunk) && rows <= chunk.size
    ensures |r| == rows
  {
    if rows == 0 then [] else ChunkUpdates(printer, plan, chunk, rows - 1) + [ChunkUpdate(printer, plan, chunk, rows - 1)]
  }

  // Request i names row i and decodes to that row's values in the editable columns of the
  // SET clause.
  lemma {:induction false} ChunkUpdateAt(printer: Printer, plan: UpdatePlan, chunk: DataChunk, rows: nat, i: nat)
    requires plan.Valid(chunk) && i < rows <= chunk.size
    ensures var request := ChunkUpdates(printer, plan, chunk, rows)[i];
            && request == ChunkUpdate(printer, plan, chunk, i)
            && DecodeUpdate(request.payload)
               == Some(ChunkAssignments(plan.Targets(|plan.expressions|), plan.Values(chunk), i))
  {
    if i < rows - 1 {
      ChunkUpdateAt(printer, plan, chunk, rows - 1, i);
    } else {
      UpdateRoundTrip(ChunkAssignments(plan.Targets(|plan.expressions|), plan.Values(chunk), i));
    }
  }

  lemma {:induction false} RowIdTextAt(printer: Printer, chunk: DataChunk, column: nat, rows: nat, i: nat)
    requires chunk.Valid() && column < |chunk.columns| && i < rows <= chunk.size
    ensures RowIdTexts(printer, chunk, column, rows)[i] == ToText(printer, chunk.GetValue(column, i))
  {
    if i < rows - 1 {
      RowIdTextAt(printer, chunk, column, rows - 1, i);
    }
  }

  function PlanColumns(plan: UpdatePlan): (r: seq<WriteColumn>)
    requires |plan.expressions| <= |plan.columns|
    ensures |r| == |plan.expressions|
  {
    Map(WriteColumnOf, plan.Targets(|plan.expressions|))
  }

  function PlanValues(plan: UpdatePlan, chunk: DataChunk): seq<InputValue<string>>
    requires plan.Valid(chunk)
  {
    RowMajor(plan.Values(chunk), |plan.expressions|, chunk.size)
  }

  lemma UpdateOfChunk(printer: Printer, plan: UpdatePlan, chunk: DataChunk, rowIds: seq<string>, row: nat)
    requires plan.Valid(chunk) && row < chunk.size
    requires rowIds == RowIdTexts(printer, chunk, |chunk.columns| - 1, chunk.size)
    ensures var columns, values := PlanColumns(plan), PlanValues(plan, chunk);
            && Cells(row + 1, |columns|) <= |values|
            && UpdateRow(plan.table.id, rowIds[row], UpdateJson(Assignments(columns, RowValues(values, |columns|, row))))
               == ChunkUpdate(printer, plan, chunk, row)
  {
    RowOfChunk(plan.Targets(|plan.expressions|), plan.Values(chunk), row);
    RowIdTextAt(printer, chunk, |chunk.columns| - 1, chunk.size, row);
  }

  lemma {:induction false} UpdatesOfChunk(printer: Printer, plan: UpdatePlan, chunk: DataChunk, rowIds: seq<string>, rows: nat)
    requires plan.Valid(chunk) && rows <= chunk.size
    requires rowIds == RowIdTexts(printer, chunk, |chunk.columns| - 1, chunk.size)
    ensures var columns, values := PlanColumns(plan), PlanValues(plan, chunk);
            && Cells(rows, |columns|) <= |values|
            && UpdateRequests(plan.table.id, rowIds, columns, values, rows) == ChunkUpdates(printer, plan, chunk, rows)
  {
    if rows > 0 {
      UpdatesOfChunk(printer, plan, chunk, rowIds, rows - 1);
      UpdateOfChunk(printer, plan, chunk, rowIds, rows - 1);
    }
  }

  lemma PlanValuesFit(plan: UpdatePlan, chunk: DataChunk)
    requires plan.Valid(chunk)
    ensures |PlanValues(plan, chunk)| == Cells(chunk.size, |PlanColumns(plan)|)
  {
    RowMajorLength(plan.Values(chunk), |plan.expressions|, chunk.size);
  }

  // RustBridgeClient::UpdateRows
  method ClientUpdateRows(remote: Remote, plan: UpdatePlan, chunk: DataChunk, printer: Printer)
      returns (r: Result<nat, Error>, ghost sent: seq<Request>)
    requires plan.Valid(chunk)
    modifies remote
    ensures remote.log == old(remote.log) + sent
    ensures if chunk.size > 0 && plan.Impossible() then r.Failure? && sent == []
            else
              && Sending(sent, r.Success?)
                 == Sends(remote.service, old(remote.log), ChunkUpdates(printer, plan, chunk, chunk.size))
              && r == if r.Success? then Success(chunk.size) else Failure(Transport)
  {
    sent := [];
    var columns := TargetColumns(plan);
    var rowIds := BorrowRowIds(printer, chunk, |chunk.columns| - 1);
    var values := FlattenUpdates(plan, chunk);
    if values.Failure? {
      r := Failure(values.error);
      return;
    }
    PlanValuesFit(plan, chunk);
    UpdatesOfChunk(printer, plan, chunk, rowIds, chunk.size);
    r, sent := SendUpdateRows(remote, plan.table.id, rowIds, columns, values.value, plan.table.capabilities);
  }

  function ChunkDelete(printer: Printer, table: CatalogTableInfo, chunk: DataChunk, rowIdIndex: nat): Request
    requires chunk.Valid() && rowIdIndex < |chunk.columns|
  {
    DeleteRows(table.id, DeleteBody(RowIdTexts(printer, chunk, rowIdIndex, chunk.size)))
  }

  // RustBridgeClient::DeleteRows
  method ClientDeleteRows(remote: Remote, table: CatalogTableInfo, chunk: DataChunk, rowIdIndex: nat, printer: Printer)
      returns (r: Result<nat, Error>, ghost sent: seq<Request>)
    requires chunk.Valid() && rowIdIndex < |chunk.columns|
    modifies remote
    ensures remote.log == old(remote.log) + sent
    ensures if chunk.size == 0 then r == Success(0) && sent == []
            else
              && Sending(sent, r.Success?)
                 == Sends(remote.service, old(remote.log), [ChunkDelete(printer, table, chunk, rowIdIndex)])
              && r == if r.Success? then Success(chunk.size) else Failure(Transport)
  {
    var rowIds := BorrowRowIds(printer, chunk, rowIdIndex);
    r, sent := SendDeleteRows(remote, table.id, rowIds);
  }
}
