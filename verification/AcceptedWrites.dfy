// "Coda cannot roll a write back, so a rollback after one throws": when that is true of a run.
module AcceptedWrites {
  import opened BridgeWrite
  import opened CatalogClient
  import opened CodaJson
  import opened CodaService
  import opened Dml
  import opened DmlRuns
  import opened DuckValues
  import opened Mutation
  import opened Transactions

  // The service accepted one of these requests.
  ghost predicate SomeAccepted(service: Service, log: seq<Request>, sent: seq<Request>) {
    exists i: nat :: i < |sent| && AcceptedAt(service, log, sent, i)
  }

  ghost predicate AcceptedAt(service: Service, log: seq<Request>, sent: seq<Request>, i: nat)
    requires i < |sent|
  {
    service.accepts(log + sent[..i + 1])
  }

  lemma {:induction false} SomeAcceptedTogether(service: Service, log: seq<Request>, a: seq<Request>, b: seq<Request>)
    ensures SomeAccepted(service, log, a + b) <==> SomeAccepted(service, log, a) || SomeAccepted(service, log + a, b)
  {
    forall i: nat | i < |a| ensures AcceptedAt(service, log, a + b, i) == AcceptedAt(service, log, a, i) {
      assert (a + b)[..i + 1] == a[..i + 1];
    }
    forall i: nat | i < |b| ensures AcceptedAt(service, log, a + b, |a| + i) == AcceptedAt(service, log + a, b, i) {
      assert log + (a + b)[..|a| + i + 1] == log + a + b[..i + 1];
    }
    if i: nat :| i < |a + b| && AcceptedAt(service, log, a + b, i) {
      if i >= |a| {
        assert AcceptedAt(service, log + a, b, i - |a|);
      }
    }
  }

  lemma {:induction false} SendsAccepted(service: Service, log: seq<Request>, requests: seq<Request>)
    ensures SomeAccepted(service, log, Sends(service, log, requests).sent) <==> Accepted(service, log, requests) > 0
  {
    var sent := Sends(service, log, requests).sent;
    if requests != [] {
      AcceptedExactly(service, log, requests, 0);
      assert AcceptedAt(service, log, sent, 0) == service.accepts(log + requests[..1]) by {
        assert sent[..1] == requests[..1];
      }
    }
    forall i: nat | i < |sent| && Accepted(service, log, requests) == 0 ensures !AcceptedAt(service, log, sent, i) {
      assert sent[..1] == requests[..1];
    }
  }

  // ------------------------------------------------------- one statement

  // The sink of chunk k had a request accepted.
  ghost predicate AcceptsOf(world: World, context: Context, write: Write, chunks: seq<DataChunk>, k: nat, log: seq<Request>)
    requires AllFit(write, chunks) && k < |chunks|
  {
    && chunks[k].size > 0 && write.Permitted(context)
    && Accepted(world.service, log + StatementEffect(world, context, write, chunks, k, log).sent,
                write.Requests(world.printer, chunks[k])) > 0
  }

  // It throws after some request of the throwing sink was accepted. (An insert or a delete has
  // one request a chunk, so only an update can do that.)
  ghost predicate HalfRefused(world: World, context: Context, write: Write, chunks: seq<DataChunk>, log: seq<Request>)
    requires AllFit(write, chunks)
  {
    var done := StatementEffect(world, context, write, chunks, |chunks|, log).done;
    done < |chunks| && AcceptsOf(world, context, write, chunks, done, log)
  }

  lemma {:induction false} SinkAccepted(world: World, context: Context, write: Write, chunk: DataChunk, log: seq<Request>)
    requires write.Fits(chunk)
    ensures var effect := SinkEffect(world, context, write, chunk, log);
            && (SomeAccepted(world.service, log, effect.sent)
                <==> chunk.size > 0 && write.Permitted(context)
                     && Accepted(world.service, log, write.Requests(world.printer, chunk)) > 0)
            && (effect.ok && chunk.size > 0 ==> SomeAccepted(world.service, log, effect.sent))
  {
    if chunk.size > 0 && write.Permitted(context) {
      SendsAccepted(world.service, log, write.Requests(world.printer, chunk));
    }
  }

  lemma {:induction false} StatementAccepted(world: World, context: Context, write: Write, chunks: seq<DataChunk>, n: nat,
                                             log: seq<Request>)
    requires AllFit(write, chunks) && n <= |chunks|
    ensures var effect := StatementEffect(world, context, write, chunks, n, log);
            SomeAccepted(world.service, log, effect.sent)
            <==> Rows(chunks, effect.done) > 0
                 || (effect.done < n && AcceptsOf(world, context, write, chunks, effect.done, log))
  {
    if n > 0 {
      var before := StatementEffect(world, context, write, chunks, n - 1, log);
      StatementAccepted(world, context, write, chunks, n - 1, log);
      if before.done == n - 1 {
        var sink := SinkEffect(world, context, write, chunks[n - 1], log + before.sent);
        SinkAccepted(world, context, write, chunks[n - 1], log + before.sent);
        SomeAcceptedTogether(world.service, log, before.sent, sink.sent);
      }
    }
  }

  // The sink after those that complete is the one that throws.
  lemma {:induction false} NextSinkThrows(world: World, context: Context, write: Write, chunks: seq<DataChunk>, n: nat,
                                          log: seq<Request>)
    requires AllFit(write, chunks) && n <= |chunks|
    ensures var done := StatementEffect(world, context, write, chunks, n, log).done;
            done < n ==>
              !SinkEffect(world, context, write, chunks[done],
                          log + StatementEffect(world, context, write, chunks, done, log).sent).ok
  {
    if n > 0 {
      NextSinkThrows(world, context, write, chunks, n - 1, log);
    }
  }

  lemma OnlyUpdatesHalfRefused(world: World, context: Context, write: Write, chunks: seq<DataChunk>, log: seq<Request>)
    requires AllFit(write, chunks) && HalfRefused(world, context, write, chunks, log)
    ensures write.UpdateSet?
  {
    NextSinkThrows(world, context, write, chunks, |chunks|, log);
  }

  // ------------------------------------------------------- runs

  // Step k is a statement under tx, and one of its requests was accepted.
  ghost predicate AcceptedStep(world: World, ops: seq<Op>, k: nat, tx: nat)
    requires AllValid(ops) && k < |ops|
  {
    && ops[k].Execute? && ops[k].tx == tx
    && SomeAccepted(world.service, LogOf(RunOf(world, ops[..k])), RunOf(world, ops)[k].sent)
  }

  ghost predicate AcceptedUnder(world: World, ops: seq<Op>, tx: nat)
    requires AllValid(ops)
  {
    exists k: nat :: k < |ops| && AcceptedStep(world, ops, k, tx)
  }

  ghost predicate HalfRefusedStep(world: World, ops: seq<Op>, k: nat, tx: nat)
    requires AllValid(ops) && k < |ops|
  {
    var before := RunOf(world, ops[..k]);
    && ops[k].Execute? && ops[k].tx == tx && IsOpen(before, tx)
    && HalfRefused(world, ops[k].context, ops[k].write, ops[k].chunks, LogOf(before))
  }

  ghost predicate HalfRefusedUnder(world: World, ops: seq<Op>, tx: nat)
    requires AllValid(ops)
  {
    exists k: nat :: k < |ops| && HalfRefusedStep(world, ops, k, tx)
  }

  lemma {:induction false} NothingBeforeBegin(world: World, ops: seq<Op>, tx: nat)
    requires AllValid(ops) && tx >= Begun(RunOf(world, ops))
    ensures !HasWritten(RunOf(world, ops), tx)
  {
    if ops != [] {
      var before, op := RunOf(world, ops[..|ops| - 1]), ops[|ops| - 1];
      StepEffect(before, Next(world, before, op), tx);
      NothingBeforeBegin(world, ops[..|ops| - 1], tx);
      OpenHasBegun(before, tx);
    }
  }

  lemma {:induction false} StepAccepted(world: World, history: seq<Step>, op: Op, tx: nat)
    requires op.Valid()
    ensures var step := Next(world, history, op);
            op.Execute? && op.tx == tx && SomeAccepted(world.service, LogOf(history), step.sent)
            <==> || step.Wrote(tx)
                 || (op.Execute? && op.tx == tx && IsOpen(history, tx)
                     && HalfRefused(world, op.context, op.write, op.chunks, LogOf(history)))
  {
    if op.Execute? {
      StatementAccepted(world, op.context, op.write, op.chunks, |op.chunks|, LogOf(history));
    }
  }

  lemma {:induction false} AcceptedUnderPush(world: World, ops: seq<Op>, tx: nat)
    requires AllValid(ops) && ops != []
    ensures AcceptedUnder(world, ops, tx)
            <==> AcceptedUnder(world, ops[..|ops| - 1], tx) || AcceptedStep(world, ops, |ops| - 1, tx)
  {
    var front := ops[..|ops| - 1];
    if k: nat :| k < |ops| && AcceptedStep(world, ops, k, tx) {
      if k < |front| {
        SameStep(world, ops, k, tx);
        assert AcceptedStep(world, front, k, tx);
      }
    }
    if k: nat :| k < |front| && AcceptedStep(world, front, k, tx) {
      SameStep(world, ops, k, tx);
      assert AcceptedStep(world, ops, k, tx);
    }
  }

  lemma {:induction false} HalfRefusedPush(world: World, ops: seq<Op>, tx: nat)
    requires AllValid(ops) && ops != []
    ensures HalfRefusedUnder(world, ops, tx)
            <==> HalfRefusedUnder(world, ops[..|ops| - 1], tx) || HalfRefusedStep(world, ops, |ops| - 1, tx)
  {
    var front := ops[..|ops| - 1];
    if k: nat :| k < |ops| && HalfRefusedStep(world, ops, k, tx) {
      if k < |front| {
        SameStep(world, ops, k, tx);
        assert HalfRefusedStep(world, front, k, tx);
      }
    }
    if k: nat :| k < |front| && HalfRefusedStep(world, front, k, tx) {
      SameStep(world, ops, k, tx);
      assert HalfRefusedStep(world, ops, k, tx);
    }
  }

  lemma {:induction false} SameStep(world: World, ops: seq<Op>, k: nat, tx: nat)
    requires AllValid(ops) && k < |ops| - 1
    ensures AcceptedStep(world, ops, k, tx) == AcceptedStep(world, ops[..|ops| - 1], k, tx)
    ensures HalfRefusedStep(world, ops, k, tx) == HalfRefusedStep(world, ops[..|ops| - 1], k, tx)
  {
    assert ops[..|ops| - 1][..k] == ops[..k];
  }

  // In every run, some write was accepted under a transaction if and only if a sink with rows
  // has completed under it, or a statement under it was refused halfway.
  lemma {:induction false} AcceptedUnderIff(world: World, ops: seq<Op>, tx: nat)
    requires AllValid(ops)
    ensures AcceptedUnder(world, ops, tx) <==> HasWritten(RunOf(world, ops), tx) || HalfRefusedUnder(world, ops, tx)
  {
    if ops != [] {
      var n := |ops| - 1;
      var before := RunOf(world, ops[..n]);
      AcceptedUnderIff(world, ops[..n], tx);
      AcceptedUnderPush(world, ops, tx);
      HalfRefusedPush(world, ops, tx);
      StepAccepted(world, before, ops[n], tx);
      StepEffect(before, Next(world, before, ops[n]), tx);
      if tx == Begun(before) {
        NothingBeforeBegin(world, ops[..n], tx);
      }
    }
  }

  // A rollback over accepted writes succeeds, silently, if and only if no sink with rows has
  // completed under the transaction and some update under it was refused halfway.
  lemma {:induction false} SilentRollbackIff(world: World, ops: seq<Op>, tx: nat)
    requires AllValid(ops) && IsOpen(RunOf(world, ops), tx)
    ensures Next(world, RunOf(world, ops), Rollback(tx)).outcome == Ended && AcceptedUnder(world, ops, tx)
            <==> !HasWritten(RunOf(world, ops), tx) && HalfRefusedUnder(world, ops, tx)
  {
    AcceptedUnderIff(world, ops, tx);
  }

  // ------------------------------------------------------- a transaction with one update

  // Alone in its transaction, a write of one chunk is the only one that can be refused halfway;
  // then no sink has completed.
  lemma {:induction false} OneWriteHalfRefused(world: World, context: Context, write: Write, chunk: DataChunk)
    requires write.Fits(chunk) && context.autoCommit
    ensures AllValid(OneWrite(context, write, chunk)) && AllFit(write, [chunk])
    ensures var ops := OneWrite(context, write, chunk);
            && (HalfRefusedUnder(world, ops, 0) <==> HalfRefused(world, context, write, [chunk], []))
            && (HalfRefusedUnder(world, ops, 0) ==> !HasWritten(RunOf(world, ops), 0))
  {
    var ops := OneWrite(context, write, chunk);
    OneWriteSteps(world, context, write, chunk);
    OneChunk(world, context, write, chunk);
    assert HalfRefusedStep(world, ops, 1, 0) == HalfRefused(world, context, write, [chunk], []);
    assert forall k: nat :: k < |ops| && HalfRefusedStep(world, ops, k, 0) ==> k == 1;
  }

  lemma {:induction false} OneUpdateHalfRefused(world: World, context: Context, plan: UpdatePlan, chunk: DataChunk)
    requires plan.Valid(chunk) && AllFit(UpdateSet(plan), [chunk])
    ensures var requests := ChunkUpdates(world.printer, plan, chunk, chunk.size);
            HalfRefused(world, context, UpdateSet(plan), [chunk], [])
            <==> UpdateSet(plan).Permitted(context) && 0 < Accepted(world.service, [], requests) < |requests|
  {
    var write := UpdateSet(plan);
    OneChunk(world, context, write, chunk);
    var none: seq<Request> := [];
    assert none + StatementEffect(world, context, write, [chunk], 0, none).sent == none;
    assert HalfRefused(world, context, write, [chunk], [])
      <==> !SinkEffect(world, context, write, chunk, []).ok && AcceptsOf(world, context, write, [chunk], 0, []);
  }

  // Alone in its transaction, an update of one chunk leaves accepted writes that a rollback
  // passes over exactly when the service accepts some of its requests and then refuses one.
  lemma {:induction false} UpdateThenRollback(world: World, context: Context, plan: UpdatePlan, chunk: DataChunk)
    requires plan.Valid(chunk) && context.autoCommit
    ensures AllValid(OneWrite(context, UpdateSet(plan), chunk))
    ensures var ops := OneWrite(context, UpdateSet(plan), chunk);
            var requests := ChunkUpdates(world.printer, plan, chunk, chunk.size);
            Next(world, RunOf(world, ops), Rollback(0)).outcome == Ended && AcceptedUnder(world, ops, 0)
            <==> UpdateSet(plan).Permitted(context) && 0 < Accepted(world.service, [], requests) < |requests|
  {
    OneWriteSteps(world, context, UpdateSet(plan), chunk);
    OneWriteHalfRefused(world, context, UpdateSet(plan), chunk);
    OneUpdateHalfRefused(world, context, plan, chunk);
    SilentRollbackIff(world, OneWrite(context, UpdateSet(plan), chunk), 0);
  }

  const WITNESS_TABLE: CatalogTableInfo :=
    CatalogTableInfo("t", "T", TABLE_UPDATE, [ColumnInfo("c", "C", "text", COLUMN_EDITABLE, 0)])

  const WITNESS_PLAN: UpdatePlan := UpdatePlan(WITNESS_TABLE, [0], [BoundRef(0)])

  const TWO_ROWS: DataChunk :=
    DataChunk(2, [[VarcharValue("x"), VarcharValue("y")], [VarcharValue("r1"), VarcharValue("r2")]])

  // Such a run: two rows, and a service that refuses its second request.
  lemma {:induction false} RefusedHalfway(world: World)
    requires forall log :: world.service.accepts(log) <==> |log| <= 1
    ensures WITNESS_PLAN.Valid(TWO_ROWS) && AllValid(OneWrite(Context(true, ""), UpdateSet(WITNESS_PLAN), TWO_ROWS))
    ensures var ops := OneWrite(Context(true, ""), UpdateSet(WITNESS_PLAN), TWO_ROWS);
            Next(world, RunOf(world, ops), Rollback(0)).outcome == Ended && AcceptedUnder(world, ops, 0)
  {
    UpdateThenRollback(world, Context(true, ""), WITNESS_PLAN, TWO_ROWS);
    WitnessPermitted();
    FirstOfTwo(world.service, ChunkUpdates(world.printer, WITNESS_PLAN, TWO_ROWS, 2));
  }

  lemma {:induction false} FirstOfTwo(service: Service, requests: seq<Request>)
    requires |requests| == 2 && forall log :: service.accepts(log) <==> |log| <= 1
    ensures Accepted(service, [], requests) == 1
  {
    AcceptedExactly(service, [], requests, 0);
    AcceptedExactly(service, [], requests, 1);
  }

  lemma {:induction false} WitnessPermitted()
    ensures UpdateSet(WITNESS_PLAN).Permitted(Context(true, ""))
  {
    assert Has(TABLE_UPDATE, TABLE_UPDATE);
    assert !Rejected(Context(true, ""));
  }
}
