// Whole runs: any sequence of transactions and write statements against the service.
module DmlRuns {
  import opened BridgeWrite
  import opened CodaService
  import opened Dml
  import opened Transactions
  import opened Wrappers

  // What happens at the extension, transactions being numbered in the order they start.
  datatype Op =
    | Begin(context: Context)
    | Execute(tx: nat, context: Context, write: Write, chunks: seq<DataChunk>)
    | Commit(tx: nat)
    | Rollback(tx: nat)
  {
    ghost predicate Valid() {
      Execute? ==> AllFit(write, chunks)
    }

    predicate Ends(which: nat) {
      (Commit? || Rollback?) && tx == which
    }
  }

  // Skipped: the transaction is not open, so the operation cannot occur. Completed carries
  // the count that the statement reports.
  datatype Outcome = Skipped | Began | Completed(rows: nat) | Ended | Threw

  // What came of an operation: the requests it sent, and how many of its sinks completed.
  datatype Step = Step(op: Op, outcome: Outcome, sent: seq<Request>, done: nat) {
    // Some sink with rows completed in it.
    predicate Wrote(tx: nat) {
      op.Execute? && op.tx == tx && done <= |op.chunks| && Rows(op.chunks, done) > 0
    }
  }

  // ------------------------------------------------------- the history alone

  function Begun(history: seq<Step>): nat {
    if history == [] then 0
    else Begun(history[..|history| - 1]) + if history[|history| - 1].outcome.Began? then 1 else 0
  }

  // Started, and neither committed nor rolled back since.
  predicate IsOpen(history: seq<Step>, tx: nat) {
    if history == [] then false
    else
      var front, last := history[..|history| - 1], history[|history| - 1];
      if last.outcome.Began? && Begun(front) == tx then true
      else if last.op.Ends(tx) && !last.outcome.Skipped? then false
      else IsOpen(front, tx)
  }

  // Some sink with rows has completed under it.
  predicate HasWritten(history: seq<Step>, tx: nat) {
    if history == [] then false
    else
      var front, last := history[..|history| - 1], history[|history| - 1];
      if last.outcome.Began? && Begun(front) == tx then false
      else last.Wrote(tx) || HasWritten(front, tx)
  }

  // Everything that was sent.
  function LogOf(history: seq<Step>): seq<Request> {
    if history == [] then [] else LogOf(history[..|history| - 1]) + history[|history| - 1].sent
  }

  // ------------------------------------------------------- runs

  // What comes of an operation, given what went before it.
  function Next(world: World, history: seq<Step>, op: Op): Step
    requires op.Valid()
  {
    match op
    case Begin(context) => Step(op, if context.autoCommit then Began else Threw, [], 0)
    case Commit(tx) => Step(op, if IsOpen(history, tx) then Ended else Skipped, [], 0)
    case Rollback(tx) =>
      Step(op, if !IsOpen(history, tx) then Skipped else if HasWritten(history, tx) then Threw else Ended, [], 0)
    case Execute(tx, context, write, chunks) =>
      if !IsOpen(history, tx) then Step(op, Skipped, [], 0)
      else
        var effect := StatementEffect(world, context, write, chunks, |chunks|, LogOf(history));
        Step(op, if effect.done == |chunks| then Completed(Rows(chunks, |chunks|)) else Threw, effect.sent, effect.done)
  }

  ghost predicate AllValid(ops: seq<Op>) {
    forall k :: 0 <= k < |ops| ==> ops[k].Valid()
  }

  function RunOf(world: World, ops: seq<Op>): (r: seq<Step>)
    requires AllValid(ops)
    ensures |r| == |ops|
  {
    if ops == [] then []
    else
      var before := RunOf(world, ops[..|ops| - 1]);
      before + [Next(world, before, ops[|ops| - 1])]
  }

  // A run is made step by step.
  lemma {:induction false} RunAt(world: World, ops: seq<Op>, k: nat)
    requires AllValid(ops) && k < |ops|
    ensures RunOf(world, ops)[..k] == RunOf(world, ops[..k])
    ensures RunOf(world, ops)[k] == Next(world, RunOf(world, ops[..k]), ops[k])
  {
    var n := |ops| - 1;
    if k < n {
      RunAt(world, ops[..n], k);
      assert ops[..n][..k] == ops[..k];
    }
  }

  lemma HistoryPush(history: seq<Step>, step: Step)
    ensures (history + [step])[..|history|] == history
  {
  }

  lemma {:induction false} OpenHasBegun(history: seq<Step>, tx: nat)
    ensures IsOpen(history, tx) ==> tx < Begun(history)
  {
    if history != [] {
      OpenHasBegun(history[..|history| - 1], tx);
    }
  }

  // One more step, transaction by transaction.
  lemma StepEffect(history: seq<Step>, step: Step, tx: nat)
    ensures var next := history + [step];
            && Begun(next) == Begun(history) + (if step.outcome.Began? then 1 else 0)
            && (step.outcome.Began? && tx == Begun(history) ==> IsOpen(next, tx) && !HasWritten(next, tx))
            && (!(step.outcome.Began? && tx == Begun(history)) ==>
                  && IsOpen(next, tx) == (IsOpen(history, tx) && !(step.op.Ends(tx) && !step.outcome.Skipped?))
                  && HasWritten(next, tx) == (HasWritten(history, tx) || step.Wrote(tx)))
  {
    HistoryPush(history, step);
  }

  lemma LogPush(history: seq<Step>, step: Step)
    ensures LogOf(history + [step]) == if step.sent == [] then LogOf(history) else LogOf(history) + step.sent
  {
    HistoryPush(history, step);
  }

  // A transaction with one write of one chunk.
  function OneWrite(context: Context, write: Write, chunk: DataChunk): seq<Op> {
    [Begin(context), Execute(0, context, write, [chunk])]
  }

  lemma OneWriteSteps(world: World, context: Context, write: Write, chunk: DataChunk)
    requires write.Fits(chunk) && context.autoCommit
    ensures AllValid(OneWrite(context, write, chunk))
    ensures var ops := OneWrite(context, write, chunk);
            var begun := [Step(Begin(context), Began, [], 0)];
            && RunOf(world, ops[..1]) == begun && LogOf(begun) == [] && IsOpen(begun, 0)
            && RunOf(world, ops) == begun + [Next(world, begun, ops[1])]
            && IsOpen(RunOf(world, ops), 0)
            && HasWritten(RunOf(world, ops), 0) == Next(world, begun, ops[1]).Wrote(0)
  {
    var ops := OneWrite(context, write, chunk);
    var begun := [Step(Begin(context), Began, [], 0)];
    assert AllFit(write, [chunk]);
    assert ops[..1] == [ops[0]] && ops[..1][..0] == [];
    assert RunOf(world, []) == [];
    assert [] + begun == begun && begun[..0] == [];
    StepEffect(begun, Next(world, begun, ops[1]), 0);
  }

  lemma OneChunk(world: World, context: Context, write: Write, chunk: DataChunk)
    requires write.Fits(chunk)
    ensures AllFit(write, [chunk])
    ensures StatementEffect(world, context, write, [chunk], 1, [])
            == var sink := SinkEffect(world, context, write, chunk, []);
               Effect(sink.sent, if sink.ok then 1 else 0)
    ensures Rows([chunk], 1) == chunk.size && Rows([chunk], 0) == 0
  {
    StatementNext(world, context, write, [chunk], 0, []);
    var sent: seq<Request> := [];
    assert sent + sent == sent && sent + SinkEffect(world, context, write, chunk, []).sent
                                  == SinkEffect(world, context, write, chunk, []).sent;
  }

  // ------------------------------------------------------- the run itself

  // `open` are exactly the open transactions, and one of them is marked exactly when a write
  // has completed under it. (Folded, as Wrappers.LookInside says.)
  ghost predicate Tracks(history: seq<Step>, txs: seq<Transaction>, open: set<Transaction>, marks: seq<bool>) {
    && |txs| == |marks| == Begun(history)
    && forall look {:trigger LookInside(look)} :: LookInside(look) ==>
         && (forall i, j :: 0 <= i < j < |txs| ==> txs[i] != txs[j])
         && (forall t :: t in open ==> t in txs)
         && (forall i: nat :: i < |txs| ==> (txs[i] in open) == IsOpen(history, i))
         && (forall i: nat :: i < |txs| && IsOpen(history, i) ==> marks[i] == HasWritten(history, i))
  }

  lemma TracksAt(history: seq<Step>, txs: seq<Transaction>, open: set<Transaction>, marks: seq<bool>, tx: nat)
    requires Tracks(history, txs, open, marks)
    ensures IsOpen(history, tx) <==> tx < |txs| && txs[tx] in open
    ensures IsOpen(history, tx) ==> marks[tx] == HasWritten(history, tx)
    ensures tx < |txs| ==> forall i :: 0 <= i < |txs| && i != tx ==> txs[i] != txs[tx]
  {
    OpenHasBegun(history, tx);
    assert LookInside(0);
  }

  lemma TracksBegin(history: seq<Step>, txs: seq<Transaction>, open: set<Transaction>, marks: seq<bool>, step: Step,
                    t: Transaction)
    requires Tracks(history, txs, open, marks) && t !in txs && step.op.Begin? && step.outcome.Began?
    ensures Tracks(history + [step], txs + [t], open + {t}, marks + [false])
  {
    assert LookInside(0);
    forall tx: nat {
      StepEffect(history, step, tx);
    }
    OpenHasBegun(history, |txs|);
  }

  // Steps that begin no transaction, write none and end at most one.
  lemma TracksEnd(history: seq<Step>, txs: seq<Transaction>, open: set<Transaction>, marks: seq<bool>, step: Step)
    requires Tracks(history, txs, open, marks) && !step.op.Execute? && !step.outcome.Began?
    ensures Tracks(history + [step], txs,
                   if (step.op.Commit? || step.op.Rollback?) && step.op.tx < |txs| && !step.outcome.Skipped?
                   then open - {txs[step.op.tx]} else open, marks)
  {
    assert LookInside(0);
    forall tx: nat {
      StepEffect(history, step, tx);
    }
  }

  lemma TracksWrite(history: seq<Step>, txs: seq<Transaction>, open: set<Transaction>, marks: seq<bool>, step: Step)
    requires Tracks(history, txs, open, marks) && step.op.Execute? && !step.outcome.Began?
    ensures Tracks(history + [step], txs, open,
                   if step.op.tx < |txs| && step.Wrote(step.op.tx) then marks[step.op.tx := true] else marks)
  {
    assert LookInside(0);
    forall tx: nat {
      StepEffect(history, step, tx);
    }
  }

  class Session {
    const remote: Remote
    const manager: TransactionManager
    const printer: Printer
    var txs: seq<Transaction>
    ghost var marks: seq<bool>
    ghost var history: seq<Step>

    ghost predicate Marked()
      reads this, set t | t in txs
    {
      |marks| == |txs| && forall i :: 0 <= i < |txs| ==> txs[i].hasWrites == marks[i]
    }

    ghost predicate Valid()
      reads this, remote, manager, set t | t in txs
    {
      Marked() && Tracks(history, txs, manager.transactions, marks) && remote.log == LogOf(history)
    }

    ghost function Expected(op: Op): Step
      requires op.Valid()
      reads this
    {
      Next(World(remote.service, printer), history, op)
    }

    constructor (service: Service, printer: Printer)
      ensures Valid() && fresh(remote) && fresh(manager) && txs == [] && history == []
      ensures remote.service == service && this.printer == printer
    {
      remote := new Remote(service);
      manager := new TransactionManager();
      this.printer := printer;
      txs, marks, history := [], [], [];
    }

    // A transaction that the manager has just started, with the step that started it.
    method Adopt(transaction: Transaction, step: Step, ghost open: set<Transaction>)
      requires Marked() && Tracks(history, txs, open, marks) && remote.log == LogOf(history)
      requires transaction !in txs && !transaction.hasWrites && manager.transactions == open + {transaction}
      requires step.op.Begin? && step.outcome.Began? && step.sent == []
      modifies this
      ensures Valid() && txs == old(txs) + [transaction] && history == old(history) + [step]
    {
      LogPush(history, step);
      TracksBegin(history, txs, open, marks, step, transaction);
      history := history + [step];
      txs, marks := txs + [transaction], marks + [false];
    }

    method DoBegin(context: Context) returns (step: Step)
      requires Valid()
      modifies this, manager
      ensures Valid() && step == old(Expected(Begin(context))) && history == old(history) + [step]
      ensures old(txs) <= txs && |txs| <= old(|txs|) + 1 && (|txs| > old(|txs|) ==> fresh(txs[old(|txs|)]))
    {
      ghost var open := manager.transactions;
      var started := manager.StartTransaction(context);
      step := Step(Begin(context), if started.Success? then Began else Threw, [], 0);
      if started.Failure? {
        LogPush(history, step);
        TracksEnd(history, txs, open, marks, step);
        history := history + [step];
      } else {
        Adopt(started.value, step, open);
      }
    }

    method DoEnd(op: Op) returns (step: Step)
      requires Valid() && (op.Commit? || op.Rollback?)
      modifies this, manager
      ensures Valid() && step == old(Expected(op)) && history == old(history) + [step] && txs == old(txs)
    {
      TracksAt(history, txs, manager.transactions, marks, op.tx);
      var outcome := Ended;
      if op.tx >= |txs| || txs[op.tx] !in manager.transactions {
        outcome := Skipped;
      } else if op.Commit? {
        manager.CommitTransaction(txs[op.tx]);
      } else {
        var rolledBack := manager.RollbackTransaction(txs[op.tx]);
        outcome := if rolledBack.Success? then Ended else Threw;
      }
      step := Step(op, outcome, [], 0);
      LogPush(history, step);
      TracksEnd(history, txs, old(manager.transactions), marks, step);
      history := history + [step];
    }

    method DoExecute(op: Op) returns (step: Step)
      requires Valid() && op.Valid() && op.Execute?
      modifies this, remote, txs
      ensures Valid() && step == old(Expected(op)) && history == old(history) + [step] && txs == old(txs)
    {
      TracksAt(history, txs, manager.transactions, marks, op.tx);
      var before := |remote.log|;
      step := Step(op, Skipped, [], 0);
      if op.tx < |txs| && txs[op.tx] in manager.transactions {
        var affected, done;
        ghost var sent;
        affected, done, sent := RunStatement(remote, txs[op.tx], op.context, op.write, op.chunks, printer);
        assert remote.log[before..] == sent;
        step := Step(op, if done == |op.chunks| then Completed(affected) else Threw, remote.log[before..], done);
      }
      LogPush(history, step);
      TracksWrite(history, txs, manager.transactions, marks, step);
      if op.tx < |txs| && step.Wrote(op.tx) {
        marks := marks[op.tx := true];
      }
      history := history + [step];
    }

    method Do(op: Op) returns (step: Step)
      requires Valid() && op.Valid()
      modifies this, manager, remote, txs
      ensures Valid() && step == old(Expected(op)) && history == old(history) + [step]
      ensures old(txs) <= txs && |txs| <= old(|txs|) + 1 && (|txs| > old(|txs|) ==> fresh(txs[old(|txs|)]))
    {
      match op {
        case Begin(context) => step := DoBegin(context);
        case Execute(_, _, _, _) => step := DoExecute(op);
        case _ => step := DoEnd(op);
      }
    }

    // Which transactions the manager still holds.
    method OpenTransactions() returns (open: seq<bool>)
      requires Valid()
      ensures |open| == Begun(history) && forall tx: nat :: tx < |open| ==> open[tx] == IsOpen(history, tx)
    {
      open := [];
      for tx := 0 to |txs|
        invariant |open| == tx && forall i: nat :: i < tx ==> open[i] == IsOpen(history, i)
      {
        TracksAt(history, txs, manager.transactions, marks, tx);
        open := open + [txs[tx] in manager.transactions];
      }
    }
  }

  // Every run, of any operations against any service: each step is what the history before it
  // says, and nothing is sent but by the steps.
  method RunAll(service: Service, printer: Printer, ops: seq<Op>)
      returns (history: seq<Step>, log: seq<Request>, open: seq<bool>)
    requires AllValid(ops)
    ensures history == RunOf(World(service, printer), ops) && log == LogOf(history)
    ensures |open| == Begun(history) && forall tx: nat :: tx < |open| ==> open[tx] == IsOpen(history, tx)
  {
    var session := new Session(service, printer);
    history := [];
    for k := 0 to |ops|
      invariant fresh(session) && fresh(session.remote) && fresh(session.manager)
      invariant session.remote.service == service && session.printer == printer
      invariant forall i :: 0 <= i < |session.txs| ==> fresh(session.txs[i])
      invariant session.Valid() && session.history == history == RunOf(World(service, printer), ops[..k])
    {
      var step := session.Do(ops[k]);
      assert ops[..k + 1][..k] == ops[..k];
      history := history + [step];
    }
    assert ops[..|ops|] == ops;
    log := session.remote.log;
    open := session.OpenTransactions();
  }
}
