// The sinks of INSERT, UPDATE and DELETE, and statements: one sink call for each chunk.
module Dml {
  import opened BridgeWrite
  import opened CatalogClient
  import opened CodaJson
  import opened CodaService
  import opened Mutation
  import opened Sequences
  import opened Transactions
  import opened Wrappers

  // ------------------------------------------------------- what a write asks for

  // A write statement as planned.
  datatype Write =
    | InsertInto(into: CatalogTableInfo)
    | UpdateSet(plan: UpdatePlan)
    | DeleteFrom(from: CatalogTableInfo, rowIdIndex: nat)
  {
    function Table(): CatalogTableInfo {
      match this
      case InsertInto(table) => table
      case UpdateSet(plan) => plan.table
      case DeleteFrom(table, _) => table
    }

    function Needed(): Caps {
      match this
      case InsertInto(_) => TABLE_INSERT
      case UpdateSet(_) => TABLE_UPDATE
      case DeleteFrom(_, _) => TABLE_DELETE
    }

    // The planner gives every target an expression, and every chunk the columns it needs.
    predicate Planned() {
      UpdateSet? ==> |plan.expressions| <= |plan.columns|
    }

    ghost predicate Fits(chunk: DataChunk)
      ensures Fits(chunk) ==> Planned()
    {
      match this
      case InsertInto(table) => chunk.Valid() && |table.columns| <= |chunk.columns|
      case UpdateSet(plan) => plan.Valid(chunk)
      case DeleteFrom(_, rowIdIndex) => chunk.Valid() && rowIdIndex < |chunk.columns|
    }

    // Nothing forbids it: neither the mode, nor the table, nor the SET clause.
    predicate Permitted(context: Context)
      requires Planned()
    {
      && !Rejected(context) && Has(Table().capabilities, Needed())
      && (UpdateSet? ==> !plan.Impossible())
    }

    // The requests for a chunk, if all are accepted.
    function Requests(printer: Printer, chunk: DataChunk): (r: seq<Request>)
      requires Fits(chunk)
      ensures chunk.size > 0 ==> r != []
    {
      match this
      case InsertInto(table) => [ChunkInsert(table, chunk)]
      case UpdateSet(plan) => ChunkUpdates(printer, plan, chunk, chunk.size)
      case DeleteFrom(table, rowIdIndex) => [ChunkDelete(printer, table, chunk, rowIdIndex)]
    }
  }

  // What statements run against.
  datatype World = World(service: Service, printer: Printer)

  // What the sink of a chunk sends, and whether it completes.
  function SinkEffect(world: World, context: Context, write: Write, chunk: DataChunk, log: seq<Request>): Sending
    requires write.Fits(chunk)
  {
    if chunk.size == 0 then Sending([], true)
    else if !write.Permitted(context) then Sending([], false)
    else Sends(world.service, log, write.Requests(world.printer, chunk))
  }

  // ------------------------------------------------------- the sinks

  // RustBridgeDMLGlobalState
  class SinkState {
    var affectedCount: nat
    // The sizes of the chunks whose sink has completed.
    ghost var completed: seq<nat>

    ghost predicate Valid()
      reads this
    {
      affectedCount == Total(completed)
    }

    constructor ()
      ensures Valid() && affectedCount == 0 && completed == []
    {
      affectedCount, completed := 0, [];
    }

    method AddAffected(count: nat)
      requires Valid()
      modifies this
      ensures Valid() && completed == old(completed) + [count] && affectedCount == old(affectedCount) + count
    {
      affectedCount := affectedCount + count;
      completed := completed + [count];
      assert completed[..|completed| - 1] == old(completed);
    }
  }

  function Total(counts: seq<nat>): nat {
    if counts == [] then 0 else Total(counts[..|counts| - 1]) + counts[|counts| - 1]
  }

  // Only a sink that completes marks its transaction and counts its rows. One that throws
  // may have sent requests all the same.
  ghost predicate SinkOutcome(ok: bool, rows: nat, before: bool, after: bool, countBefore: nat, countAfter: nat) {
    && after == (before || (ok && rows > 0))
    && countAfter == countBefore + if ok then rows else 0
  }

  method InsertSink(remote: Remote, state: SinkState, transaction: Transaction, context: Context,
                    table: CatalogTableInfo, chunk: DataChunk, ghost printer: Printer)
      returns (r: Result<(), Error>, ghost sent: seq<Request>)
    requires state.Valid() && InsertInto(table).Fits(chunk)
    modifies remote, state, transaction
    ensures remote.log == old(remote.log) + sent
    ensures Sending(sent, r.Success?)
            == SinkEffect(World(remote.service, printer), context, InsertInto(table), chunk, old(remote.log))
    ensures SinkOutcome(r.Success?, chunk.size, old(transaction.hasWrites), transaction.hasWrites,
                        old(state.affectedCount), state.affectedCount)
    ensures state.Valid()
  {
    sent := [];
    if chunk.size == 0 {
      r := Success(());
      return;
    }
    if Rejected(context) {
      r := Failure(ExplicitTransaction);
      return;
    }
    if !Has(table.capabilities, TABLE_INSERT) {
      r := Failure(UnsupportedOperation);
      return;
    }
    var count;
    count, sent := ClientInsertRows(remote, table, chunk);
    if count.Failure? {
      r := Failure(count.error);
      return;
    }
    transaction.MarkWrite();
    state.AddAffected(count.value);
    r := Success(());
  }

  method UpdateSink(remote: Remote, state: SinkState, transaction: Transaction, context: Context,
                    plan: UpdatePlan, chunk: DataChunk, printer: Printer)
      returns (r: Result<(), Error>, ghost sent: seq<Request>)
    requires state.Valid() && UpdateSet(plan).Fits(chunk)
    modifies remote, state, transaction
    ensures remote.log == old(remote.log) + sent
    ensures Sending(sent, r.Success?)
            == SinkEffect(World(remote.service, printer), context, UpdateSet(plan), chunk, old(remote.log))
    ensures SinkOutcome(r.Success?, chunk.size, old(transaction.hasWrites), transaction.hasWrites,
                        old(state.affectedCount), state.affectedCount)
    ensures state.Valid()
  {
    sent := [];
    if chunk.size == 0 {
      r := Success(());
      return;
    }
    if Rejected(context) {
      r := Failure(ExplicitTransaction);
      return;
    }
    if !Has(plan.table.capabilities, TABLE_UPDATE) {
      r := Failure(UnsupportedOperation);
      return;
    }
    var count;
    count, sent := ClientUpdateRows(remote, plan, chunk, printer);
    if count.Failure? {
      r := Failure(count.error);
      return;
    }
    transaction.MarkWrite();
    state.AddAffected(count.value);
    r := Success(());
  }

  method DeleteSink(remote: Remote, state: SinkState, transaction: Transaction, context: Context,
                    table: CatalogTableInfo, chunk: DataChunk, rowIdIndex: nat, printer: Printer)
      returns (r: Result<(), Error>, ghost sent: seq<Request>)
    requires state.Valid() && DeleteFrom(table, rowIdIndex).Fits(chunk)
    modifies remote, state, transaction
    ensures remote.log == old(remote.log) + sent
    ensures Sending(sent, r.Success?)
            == SinkEffect(World(remote.service, printer), context, DeleteFrom(table, rowIdIndex), chunk, old(remote.log))
    ensures SinkOutcome(r.Success?, chunk.size, old(transaction.hasWrites), transaction.hasWrites,
                        old(state.affectedCount), state.affectedCount)
    ensures state.Valid()
  {
    sent := [];
    if chunk.size == 0 {
      r := Success(());
      return;
    }
    if Rejected(context) {
      r := Failure(ExplicitTransaction);
      return;
    }
    if !Has(table.capabilities, TABLE_DELETE) {
      r := Failure(UnsupportedOperation);
      return;
    }
    var count;
    count, sent := ClientDeleteRows(remote, table, chunk, rowIdIndex, printer);
    if count.Failure? {
      r := Failure(count.error);
      return;
    }
    transaction.MarkWrite();
    state.AddAffected(count.value);
    r := Success(());
  }

  method Sink(remote: Remote, state: SinkState, transaction: Transaction, context: Context, write: Write,
              chunk: DataChunk, printer: Printer)
      returns (r: Result<(), Error>, ghost sent: seq<Request>)
    requires state.Valid() && write.Fits(chunk)
    modifies remote, state, transaction
    ensures remote.log == old(remote.log) + sent
    ensures Sending(sent, r.Success?)
            == SinkEffect(World(remote.service, printer), context, write, chunk, old(remote.log))
    ensures SinkOutcome(r.Success?, chunk.size, old(transaction.hasWrites), transaction.hasWrites,
                        old(state.affectedCount), state.affectedCount)
    ensures state.Valid()
  {
    match write {
      case InsertInto(table) =>
        r, sent := InsertSink(remote, state, transaction, context, table, chunk, printer);
      case UpdateSet(plan) =>
        r, sent := UpdateSink(remote, state, transaction, context, plan, chunk, printer);
      case DeleteFrom(table, rowIdIndex) =>
        r, sent := DeleteSink(remote, state, transaction, context, table, chunk, rowIdIndex, printer);
    }
  }

  // ------------------------------------------------------- statements

  ghost predicate AllFit(write: Write, chunks: seq<DataChunk>) {
    forall i :: 0 <= i < |chunks| ==> write.Fits(chunks[i])
  }

  function Rows(chunks: seq<DataChunk>, n: nat): nat
    requires n <= |chunks|
  {
    if n == 0 then 0 else Rows(chunks, n - 1) + chunks[n - 1].size
  }

  // What a statement sends, and how many of its sinks complete: it ends with the first that throws.
  datatype Effect = Effect(sent: seq<Request>, done: nat)

  function StatementEffect(world: World, context: Context, write: Write, chunks: seq<DataChunk>, n: nat,
                           log: seq<Request>): (r: Effect)
    requires AllFit(write, chunks) && n <= |chunks|
    ensures r.done <= n
  {
    if n == 0 then Effect([], 0)
    else
      var before := StatementEffect(world, context, write, chunks, n - 1, log);
      if before.done < n - 1 then before
      else
        var sink := SinkEffect(world, context, write, chunks[n - 1], log + before.sent);
        Effect(before.sent + sink.sent, if sink.ok then n else n - 1)
  }

  lemma StatementNext(world: World, context: Context, write: Write, chunks: seq<DataChunk>, n: nat, log: seq<Request>)
    requires AllFit(write, chunks) && n < |chunks| && StatementEffect(world, context, write, chunks, n, log).done == n
    ensures var before := StatementEffect(world, context, write, chunks, n, log);
            var sink := SinkEffect(world, context, write, chunks[n], log + before.sent);
            StatementEffect(world, context, write, chunks, n + 1, log)
            == Effect(before.sent + sink.sent, if sink.ok then n + 1 else n)
  {
  }

  lemma {:induction false} StatementStops(world: World, context: Context, write: Write, chunks: seq<DataChunk>,
                                          n: nat, m: nat, log: seq<Request>)
    requires AllFit(write, chunks) && n <= m <= |chunks|
    requires StatementEffect(world, context, write, chunks, n, log).done < n
    ensures StatementEffect(world, context, write, chunks, m, log) == StatementEffect(world, context, write, chunks, n, log)
  {
    if n < m {
      StatementStops(world, context, write, chunks, n, m - 1, log);
    }
  }

  // The sinks of a statement share one state, and mark one transaction.
  method RunStatement(remote: Remote, transaction: Transaction, context: Context, write: Write,
                      chunks: seq<DataChunk>, printer: Printer)
      returns (affected: nat, done: nat, ghost sent: seq<Request>)
    requires AllFit(write, chunks)
    modifies remote, transaction
    ensures remote.log == old(remote.log) + sent
    ensures Effect(sent, done)
            == StatementEffect(World(remote.service, printer), context, write, chunks, |chunks|, old(remote.log))
    ensures done <= |chunks| && affected == Rows(chunks, done)
    ensures transaction.hasWrites == (old(transaction.hasWrites) || Rows(chunks, done) > 0)
  {
    var state := new SinkState();
    sent, done := [], 0;
    ghost var world := World(remote.service, printer);
    while done < |chunks|
      invariant fresh(state) && state.Valid() && done <= |chunks|
      invariant remote.log == old(remote.log) + sent
      invariant Effect(sent, done) == StatementEffect(world, context, write, chunks, done, old(remote.log))
      invariant state.affectedCount == Rows(chunks, done)
      invariant transaction.hasWrites == (old(transaction.hasWrites) || Rows(chunks, done) > 0)
    {
      StatementNext(world, context, write, chunks, done, old(remote.log));
      var r;
      ghost var more;
      r, more := Sink(remote, state, transaction, context, write, chunks[done], printer);
      Assoc(old(remote.log), sent, more);
      sent := sent + more;
      if r.Failure? {
        StatementStops(world, context, write, chunks, done + 1, |chunks|, old(remote.log));
        return state.affectedCount, done, sent;
      }
      done := done + 1;
    }
    affected := state.affectedCount;
  }
}
