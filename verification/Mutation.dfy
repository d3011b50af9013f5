// The Rust side of writes: request bodies, and the requests that carry them.
module Mutation {
  import opened CodaJson
  import opened CodaService
  import opened Sequences
  import opened Wrappers

  // RustExtInputValue; S is how its string is held.
  datatype InputValue<S> = InputValue(valueType: nat, boolValue: bool, intValue: int, uintValue: nat,
                                      doubleValue: real, stringValue: S)

  // RustExtWriteColumn
  datatype WriteColumn = WriteColumn(id: string, capabilities: Caps)

  function InputValueJson(value: InputValue<string>): Json {
    match value.valueType
    case 0 => JNull
    case 1 => JBool(value.boolValue)
    case 2 => JInt(value.intValue)
    case 3 => JInt(value.uintValue)
    case 4 => JReal(value.doubleValue)
    case 5 => JString(value.stringValue)
    case _ => JNull
  }

  // ------------------------------------------------------- cells and their decoding

  // A column and the value written to it.
  datatype Assignment = Assignment(column: string, value: Json)

  // The assignments of a row: its editable columns, in order.
  function Assignments(columns: seq<WriteColumn>, values: seq<InputValue<string>>): seq<Assignment>
    requires |columns| <= |values|
  {
    if columns == [] then []
    else
      var n := |columns| - 1;
      var front := Assignments(columns[..n], values);
      if Has(columns[n].capabilities, COLUMN_EDITABLE) then front + [Assignment(columns[n].id, InputValueJson(values[n]))]
      else front
  }

  lemma AssignmentsNext(columns: seq<WriteColumn>, values: seq<InputValue<string>>, i: nat)
    requires i < |columns| <= |values|
    ensures Assignments(columns[..i + 1], values)
            == if Has(columns[i].capabilities, COLUMN_EDITABLE)
               then Assignments(columns[..i], values) + [Assignment(columns[i].id, InputValueJson(values[i]))]
               else Assignments(columns[..i], values)
  {
    assert columns[..i + 1][..i] == columns[..i];
  }

  // The positions of the editable columns.
  function EditablePositions(columns: seq<WriteColumn>): (r: seq<nat>)
    ensures |r| <= |columns|
  {
    if columns == [] then []
    else
      var n := |columns| - 1;
      var front := EditablePositions(columns[..n]);
      if Has(columns[n].capabilities, COLUMN_EDITABLE) then front + [n] else front
  }

  // They are in ascending order ...
  lemma {:induction false} PositionsAscend(columns: seq<WriteColumn>, j: nat, k: nat)
    requires j < k < |EditablePositions(columns)|
    ensures EditablePositions(columns)[j] < EditablePositions(columns)[k] < |columns|
  {
    var front := columns[..|columns| - 1];
    if k < |EditablePositions(front)| {
      PositionsAscend(front, j, k);
    } else {
      PositionEditable(front, j);
    }
  }

  // ... every one is that of an editable column ...
  lemma {:induction false} PositionEditable(columns: seq<WriteColumn>, k: nat)
    requires k < |EditablePositions(columns)|
    ensures var c := EditablePositions(columns)[k];
            c < |columns| && Has(columns[c].capabilities, COLUMN_EDITABLE)
  {
    var front := columns[..|columns| - 1];
    if k < |EditablePositions(front)| {
      PositionEditable(front, k);
    }
  }

  // ... and no editable column is left out.
  lemma {:induction false} PositionsComplete(columns: seq<WriteColumn>, c: nat)
    requires c < |columns| && Has(columns[c].capabilities, COLUMN_EDITABLE)
    ensures c in EditablePositions(columns)
  {
    if c < |columns| - 1 {
      PositionsComplete(columns[..|columns| - 1], c);
    }
  }

  lemma {:induction false} OneAssignmentEach(columns: seq<WriteColumn>, values: seq<InputValue<string>>)
    requires |columns| <= |values|
    ensures |Assignments(columns, values)| == |EditablePositions(columns)|
  {
    if columns != [] {
      OneAssignmentEach(columns[..|columns| - 1], values);
    }
  }

  // The k-th assignment is that of the k-th editable column, with that column's own value;
  // no other column is assigned to.
  lemma {:induction false} AssignmentsAreEditable(columns: seq<WriteColumn>, values: seq<InputValue<string>>, k: nat)
    requires |columns| <= |values|
    ensures var positions, cells := EditablePositions(columns), Assignments(columns, values);
            && |cells| == |positions|
            && (k < |cells| ==>
                  && positions[k] < |columns|
                  && Has(columns[positions[k]].capabilities, COLUMN_EDITABLE)
                  && cells[k] == Assignment(columns[positions[k]].id, InputValueJson(values[positions[k]])))
  {
    OneAssignmentEach(columns, values);
    if k < |Assignments(columns, values)| {
      var n := |columns| - 1;
      OneAssignmentEach(columns[..n], values);
      PositionEditable(columns, k);
      if k < |EditablePositions(columns[..n])| {
        PositionEditable(columns[..n], k);
        AssignmentsAreEditable(columns[..n], values, k);
      }
    }
  }

  // Reading a cell, a row and a whole body back.
  function DecodeCell(cell: Json): Option<Assignment> {
    if cell.JObject? && |cell.members| == 2 && cell.members[0].0 == "column" && cell.members[1].0 == "value"
       && cell.members[0].1.JString?
    then Some(Assignment(cell.members[0].1.s, cell.members[1].1))
    else None
  }

  // The value of an object's one member.
  function Only(body: Json, name: string): Option<Json> {
    if body.JObject? && |body.members| == 1 && body.members[0].0 == name then Some(body.members[0].1) else None
  }

  function DecodeAll<T>(decode: Json -> Option<T>, items: seq<Json>): Option<seq<T>> {
    if items == [] then Some([])
    else
      var n := |items| - 1;
      match (DecodeAll(decode, items[..n]), decode(items[n]))
      case (Some(front), Some(last)) => Some(front + [last])
      case _ => None
  }

  function DecodeCells(row: Json): Option<seq<Assignment>> {
    match Only(row, "cells")
    case Some(JArray(cells)) => DecodeAll(DecodeCell, cells)
    case _ => None
  }

  function DecodeInsert(body: Json): Option<seq<seq<Assignment>>> {
    match Only(body, "rows")
    case Some(JArray(rows)) => DecodeAll(DecodeCells, rows)
    case _ => None
  }

  function DecodeUpdate(body: Json): Option<seq<Assignment>> {
    match Only(body, "row")
    case Some(row) => DecodeCells(row)
    case None => None
  }

  function DecodeString(item: Json): Option<string> {
    if item.JString? then Some(item.s) else None
  }

  function DecodeDelete(body: Json): Option<seq<string>> {
    match Only(body, "rowIds")
    case Some(JArray(ids)) => DecodeAll(DecodeString, ids)
    case _ => None
  }

  lemma DecodePush<T>(decode: Json -> Option<T>, items: seq<Json>, item: Json)
    ensures DecodeAll(decode, items + [item])
            == match (DecodeAll(decode, items), decode(item))
               case (Some(front), Some(last)) => Some(front + [last])
               case _ => None
  {
    assert (items + [item])[..|items|] == items;
  }

  // ------------------------------------------------------- bodies as functions

  function CellJson(a: Assignment): Json {
    JObject([("column", JString(a.column)), ("value", a.value)])
  }

  function RowJson(row: seq<Assignment>): Json {
    JObject([("cells", JArray(Map(CellJson, row)))])
  }

  function InsertJson(rows: seq<seq<Assignment>>): Json {
    JObject([("rows", JArray(Map(RowJson, rows)))])
  }

  function UpdateJson(row: seq<Assignment>): Json {
    JObject([("row", RowJson(row))])
  }

  lemma CellRoundTrip(a: Assignment)
    ensures DecodeCell(CellJson(a)) == Some(a)
  {
  }

  lemma {:induction false} DecodeMap<T>(write: T -> Json, read: Json -> Option<T>, items: seq<T>)
    requires forall x :: x in items ==> read(write(x)) == Some(x)
    ensures DecodeAll(read, Map(write, items)) == Some(items)
  {
    if items != [] {
      var n := |items| - 1;
      assert items[n] in items && items == items[..n] + [items[n]];
      DecodeMap(write, read, items[..n]);
      DecodePush(read, Map(write, items[..n]), write(items[n]));
    }
  }

  // Every body decodes to what it was built from.
  lemma RowRoundTrip(row: seq<Assignment>)
    ensures DecodeCells(RowJson(row)) == Some(row)
  {
    forall a | a in row ensures DecodeCell(CellJson(a)) == Some(a) {
      CellRoundTrip(a);
    }
    DecodeMap(CellJson, DecodeCell, row);
  }

  lemma RowsRoundTrip(rows: seq<seq<Assignment>>)
    ensures DecodeAll(DecodeCells, Map(RowJson, rows)) == Some(rows)
  {
    forall row | row in rows ensures DecodeCells(RowJson(row)) == Some(row) {
      RowRoundTrip(row);
    }
    DecodeMap(RowJson, DecodeCells, rows);
  }

  lemma InsertRoundTrip(rows: seq<seq<Assignment>>)
    ensures DecodeInsert(InsertJson(rows)) == Some(rows)
  {
    RowsRoundTrip(rows);
  }

  lemma UpdateRoundTrip(row: seq<Assignment>)
    ensures DecodeUpdate(UpdateJson(row)) == Some(row)
  {
    RowRoundTrip(row);
  }

  // write_cells
  method WriteCells(columns: seq<WriteColumn>, values: seq<InputValue<string>>) returns (row: Json)
    requires |columns| <= |values|
    ensures row == RowJson(Assignments(columns, values))
    ensures DecodeCells(row) == Some(Assignments(columns, values))
  {
    var cells: seq<Json> := [];
    for i := 0 to |columns|
      invariant cells == Map(CellJson, Assignments(columns[..i], values))
    {
      AssignmentsNext(columns, values, i);
      if !Has(columns[i].capabilities, COLUMN_EDITABLE) {
        continue;
      }
      var cell := JObject([("column", JString(columns[i].id)), ("value", InputValueJson(values[i]))]);
      MapPush(CellJson, Assignments(columns[..i], values), Assignment(columns[i].id, InputValueJson(values[i])));
      cells := cells + [cell];
    }
    assert columns[..|columns|] == columns;
    RowRoundTrip(Assignments(columns, values));
    row := JObject([("cells", JArray(cells))]);
  }

  // ------------------------------------------------------- bodies

  // How many values `rows` rows have.
  function Cells(rows: nat, width: nat): nat {
    if rows == 0 then 0 else Cells(rows - 1, width) + width
  }

  lemma {:induction false} CellsProduct(rows: nat, width: nat)
    ensures Cells(rows, width) == rows * width
  {
    if rows > 0 {
      CellsProduct(rows - 1, width);
      assert rows * width == (rows - 1) * width + width;
    }
  }

  lemma {:induction false} RowFits(r: nat, rows: nat, width: nat)
    requires r < rows
    ensures Cells(r + 1, width) <= Cells(rows, width)
  {
    if r + 1 < rows {
      RowFits(r, rows - 1, width);
    }
  }

  // Row r of row-major values.
  function RowValues<S>(values: seq<InputValue<S>>, width: nat, r: nat): (row: seq<InputValue<S>>)
    requires Cells(r + 1, width) <= |values|
    ensures |row| == width
  {
    values[Cells(r, width)..Cells(r, width) + width]
  }

  // All rows of an insert.
  function RowAssignments(columns: seq<WriteColumn>, values: seq<InputValue<string>>, rows: nat, width: nat)
    : (r: seq<seq<Assignment>>)
    requires |columns| <= width && Cells(rows, width) <= |values|
    ensures |r| == rows
  {
    if rows == 0 then []
    else RowAssignments(columns, values, rows - 1, width) + [Assignments(columns, RowValues(values, width, rows - 1))]
  }

  // insert_body
  method InsertBody(columns: seq<WriteColumn>, values: seq<InputValue<string>>, rowCount: nat, valueColumnCount: nat,
                    tableCapabilities: Caps)
      returns (r: Result<Json, Error>)
    ensures !Has(tableCapabilities, TABLE_INSERT) ==> r == Failure(UnsupportedOperation)
    ensures Has(tableCapabilities, TABLE_INSERT) ==>
              if valueColumnCount < |columns| || |values| < Cells(rowCount, valueColumnCount) then r == Failure(InvalidShape)
              else
                var rows := RowAssignments(columns, values, rowCount, valueColumnCount);
                r == Success(InsertJson(rows)) && DecodeInsert(r.value) == Some(rows)
  {
    if !Has(tableCapabilities, TABLE_INSERT) {
      return Failure(UnsupportedOperation);
    }
    CellsProduct(rowCount, valueColumnCount);
    if valueColumnCount < |columns| || |values| < rowCount * valueColumnCount {
      return Failure(InvalidShape);
    }
    var rows: seq<Json> := [];
    for rowIndex := 0 to rowCount
      invariant Cells(rowIndex, valueColumnCount) <= |values|
      invariant rows == Map(RowJson, RowAssignments(columns, values, rowIndex, valueColumnCount))
    {
      RowFits(rowIndex, rowCount, valueColumnCount);
      var row := WriteCells(columns, RowValues(values, valueColumnCount, rowIndex));
      MapPush(RowJson, RowAssignments(columns, values, rowIndex, valueColumnCount),
              Assignments(columns, RowValues(values, valueColumnCount, rowIndex)));
      rows := rows + [row];
    }
    InsertRoundTrip(RowAssignments(columns, values, rowCount, valueColumnCount));
    r := Success(JObject([("rows", JArray(rows))]));
  }

  // update_body
  method UpdateBody(columns: seq<WriteColumn>, values: seq<InputValue<string>>, tableCapabilities: Caps)
      returns (r: Result<Json, Error>)
    ensures !Has(tableCapabilities, TABLE_UPDATE) ==> r == Failure(UnsupportedOperation)
    ensures Has(tableCapabilities, TABLE_UPDATE) ==>
              if |columns| != |values| then r == Failure(InvalidShape)
              else r == Success(UpdateJson(Assignments(columns, values)))
                   && DecodeUpdate(r.value) == Some(Assignments(columns, values))
  {
    if !Has(tableCapabilities, TABLE_UPDATE) {
      return Failure(UnsupportedOperation);
    }
    if |columns| != |values| {
      return Failure(InvalidShape);
    }
    var row := WriteCells(columns, values);
    r := Success(JObject([("row", row)]));
  }

  function StringJson(s: string): Json {
    JString(s)
  }

  // delete_body
  function DeleteBody(rowIds: seq<string>): Json {
    JObject([("rowIds", JArray(Map(StringJson, rowIds)))])
  }

  lemma DeleteRoundTrip(rowIds: seq<string>)
    ensures DecodeDelete(DeleteBody(rowIds)) == Some(rowIds)
  {
    DecodeMap(StringJson, DecodeString, rowIds);
  }

  // ------------------------------------------------------- sending

  // How many requests are accepted before one is refused, when they are sent in order.
  function Accepted(service: Service, log: seq<Request>, requests: seq<Request>): (k: nat)
    ensures k <= |requests|
  {
    if requests == [] then 0
    else
      var n := |requests| - 1;
      var k := Accepted(service, log, requests[..n]);
      if k == n && service.accepts(log + requests) then n + 1 else k
  }

  lemma {:induction false} AcceptedStops(service: Service, log: seq<Request>, requests: seq<Request>, n: nat)
    requires n <= |requests| && Accepted(service, log, requests[..n]) < n
    ensures Accepted(service, log, requests) == Accepted(service, log, requests[..n])
  {
    if n == |requests| {
      assert requests[..n] == requests;
    } else {
      var front := requests[..|requests| - 1];
      assert front[..n] == requests[..n];
      AcceptedStops(service, log, front, n);
    }
  }

  // Exactly the first k are accepted, and the next one, if there is one, is refused.
  lemma {:induction false} AcceptedExactly(service: Service, log: seq<Request>, requests: seq<Request>, i: nat)
    requires i < |requests|
    ensures var k := Accepted(service, log, requests);
            && (i < k ==> service.accepts(log + requests[..i + 1]))
            && (i == k ==> !service.accepts(log + requests[..i + 1]))
  {
    var n := |requests| - 1;
    if i < n {
      assert requests[..n][..i + 1] == requests[..i + 1];
      AcceptedExactly(service, log, requests[..n], i);
    } else {
      assert requests[..n + 1] == requests;
    }
  }

  // What is sent of a list of requests, up to the first that is refused; ok if none is.
  datatype Sending = Sending(sent: seq<Request>, ok: bool)

  function Sends(service: Service, log: seq<Request>, requests: seq<Request>): Sending {
    var k := Accepted(service, log, requests);
    Sending(if k < |requests| then requests[..k + 1] else requests, k == |requests|)
  }

  lemma SendsOne(service: Service, log: seq<Request>, request: Request)
    ensures Sends(service, log, [request]) == Sending([request], service.accepts(log + [request]))
  {
    assert [request][..0] == [];
  }

  // insert_rows: one request for all rows, and none at all when the body cannot be built.
  method SendInsertRows(remote: Remote, tableId: string, columns: seq<WriteColumn>, values: seq<InputValue<string>>,
                        rowCount: nat, valueColumnCount: nat, tableCapabilities: Caps)
      returns (r: Result<nat, Error>, ghost sent: seq<Request>)
    modifies remote
    ensures remote.log == old(remote.log) + sent
    ensures if !Has(tableCapabilities, TABLE_INSERT) then r == Failure(UnsupportedOperation) && sent == []
            else if valueColumnCount < |columns| || |values| < Cells(rowCount, valueColumnCount)
            then r == Failure(InvalidShape) && sent == []
            else
              var rows := RowAssignments(columns, values, rowCount, valueColumnCount);
              && Sending(sent, r.Success?) == Sends(remote.service, old(remote.log), [UpsertRows(tableId, InsertJson(rows))])
              && r == if r.Success? then Success(rowCount) else Failure(Transport)
  {
    var body := InsertBody(columns, values, rowCount, valueColumnCount, tableCapabilities);
    if body.Failure? {
      return Failure(body.error), [];
    }
    var request := UpsertRows(tableId, body.value);
    SendsOne(remote.service, remote.log, request);
    var accepted := remote.SendWrite(request);
    return if accepted then Success(rowCount) else Failure(Transport), [request];
  }

  // The requests of an update: one a row, in order, with the values of that row.
  function UpdateRequests(tableId: string, rowIds: seq<string>, columns: seq<WriteColumn>,
                          values: seq<InputValue<string>>, n: nat): (r: seq<Request>)
    requires n <= |rowIds| && Cells(n, |columns|) <= |values|
    ensures |r| == n
  {
    if n == 0 then []
    else
      UpdateRequests(tableId, rowIds, columns, values, n - 1)
      + [UpdateRow(tableId, rowIds[n - 1], UpdateJson(Assignments(columns, RowValues(values, |columns|, n - 1))))]
  }

  lemma {:induction false} UpdateRequestsFirst(tableId: string, rowIds: seq<string>, columns: seq<WriteColumn>,
                                               values: seq<InputValue<string>>, n: nat, m: nat)
    requires n <= m <= |rowIds| && Cells(m, |columns|) <= |values|
    ensures Cells(n, |columns|) <= |values|
    ensures UpdateRequests(tableId, rowIds, columns, values, m)[..n] == UpdateRequests(tableId, rowIds, columns, values, n)
  {
    if n < m {
      UpdateRequestsFirst(tableId, rowIds, columns, values, n, m - 1);
    }
  }

  lemma UpdateRequestAt(tableId: string, rowIds: seq<string>, columns: seq<WriteColumn>,
                        values: seq<InputValue<string>>, i: nat)
    requires i < |rowIds| && Cells(|rowIds|, |columns|) <= |values|
    ensures Cells(i + 1, |columns|) <= |values|
    ensures var all := UpdateRequests(tableId, rowIds, columns, values, |rowIds|);
            all[..i + 1] == all[..i] + [UpdateRow(tableId, rowIds[i],
                                                  UpdateJson(Assignments(columns, RowValues(values, |columns|, i))))]
  {
    UpdateRequestsFirst(tableId, rowIds, columns, values, i + 1, |rowIds|);
    UpdateRequestsFirst(tableId, rowIds, columns, values, i, i + 1);
    UpdateRequestsFirst(tableId, rowIds, columns, values, i, |rowIds|);
  }

  lemma SendsUpToRefusal(service: Service, log: seq<Request>, requests: seq<Request>, n: nat)
    requires n < |requests| && Accepted(service, log, requests[..n]) == n
    ensures service.accepts(log + requests[..n + 1]) ==> Accepted(service, log, requests[..n + 1]) == n + 1
    ensures !service.accepts(log + requests[..n + 1]) ==> Sends(service, log, requests) == Sending(requests[..n + 1], false)
  {
    assert requests[..n + 1][..n] == requests[..n];
    if !service.accepts(log + requests[..n + 1]) {
      AcceptedStops(service, log, requests, n + 1);
    }
  }

  // update_rows: up to the first request that is not accepted.
  method SendUpdateRows(remote: Remote, tableId: string, rowIds: seq<string>, columns: seq<WriteColumn>,
                        values: seq<InputValue<string>>, tableCapabilities: Caps)
      returns (r: Result<nat, Error>, ghost sent: seq<Request>)
    modifies remote
    ensures remote.log == old(remote.log) + sent
    ensures if (columns == [] && rowIds != []) || |values| != Cells(|rowIds|, |columns|)
            then r == Failure(InvalidShape) && sent == []
            else if rowIds != [] && !Has(tableCapabilities, TABLE_UPDATE)
            then r == Failure(UnsupportedOperation) && sent == []
            else
              && Sending(sent, r.Success?)
                 == Sends(remote.service, old(remote.log), UpdateRequests(tableId, rowIds, columns, values, |rowIds|))
              && r == if r.Success? then Success(|rowIds|) else Failure(Transport)
  {
    sent := [];
    if columns == [] && rowIds != [] {
      r := Failure(InvalidShape);
      return;
    }
    CellsProduct(|rowIds|, |columns|);
    if |values| != |rowIds| * |columns| {
      r := Failure(InvalidShape);
      return;
    }
    ghost var all := UpdateRequests(tableId, rowIds, columns, values, |rowIds|);
    for rowIndex := 0 to |rowIds|
      invariant remote.log == old(remote.log) + sent
      invariant sent == all[..rowIndex] && Accepted(remote.service, old(remote.log), sent) == rowIndex
      invariant rowIndex > 0 ==> Has(tableCapabilities, TABLE_UPDATE)
    {
      UpdateRequestAt(tableId, rowIds, columns, values, rowIndex);
      var row := RowValues(values, |columns|, rowIndex);
      var body := UpdateBody(columns, row, tableCapabilities);
      if body.Failure? {
        r := Failure(body.error);
        return;
      }
      var request := UpdateRow(tableId, rowIds[rowIndex], body.value);
      SendsUpToRefusal(remote.service, old(remote.log), all, rowIndex);
      Assoc(old(remote.log), sent, [request]);
      var accepted := remote.SendWrite(request);
      sent := sent + [request];
      if !accepted {
        r := Failure(Transport);
        return;
      }
    }
    assert all[..|rowIds|] == all;
    r := Success(|rowIds|);
  }

  // delete_rows: one request for all rows, and none for no rows.
  method SendDeleteRows(remote: Remote, tableId: string, rowIds: seq<string>)
      returns (r: Result<nat, Error>, ghost sent: seq<Request>)
    modifies remote
    ensures remote.log == old(remote.log) + sent
    ensures if rowIds == [] then r == Success(0) && sent == []
            else
              && Sending(sent, r.Success?) == Sends(remote.service, old(remote.log), [DeleteRows(tableId, DeleteBody(rowIds))])
              && r == if r.Success? then Success(|rowIds|) else Failure(Transport)
  {
    if rowIds == [] {
      return Success(0), [];
    }
    var request := Request.DeleteRows(tableId, DeleteBody(rowIds));
    SendsOne(remote.service, remote.log, request);
    var accepted := remote.SendWrite(request);
    return if accepted then Success(|rowIds|) else Failure(Transport), [request];
  }
}
