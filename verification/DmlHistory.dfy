// What the history of a run says of a transaction, step by step.
module DmlHistory {
  import opened Dml
  import opened DmlRuns

  // Transaction tx starts at step b, and step e ends it.
  predicate StartsAt(history: seq<Step>, b: nat, tx: nat) {
    b < |history| && history[b].outcome.Began? && Begun(history[..b]) == tx
  }

  predicate EndsAt(history: seq<Step>, e: nat, tx: nat) {
    e < |history| && (history[e].op == Commit(tx) || history[e].op == Rollback(tx)) && !history[e].outcome.Skipped?
  }

  // The transactions are numbered in the order in which they start.
  lemma {:induction false} BegunIff(history: seq<Step>, tx: nat)
    ensures tx < Begun(history) <==> exists b: nat :: StartsAt(history, b, tx)
  {
    if history != [] {
      var n := |history| - 1;
      BegunIff(history[..n], tx);
      forall b: nat | b < n ensures StartsAt(history, b, tx) <==> StartsAt(history[..n], b, tx) {
        assert history[..n][..b] == history[..b];
      }
      if b: nat :| StartsAt(history[..n], b, tx) {
        assert StartsAt(history, b, tx);
      }
      assert StartsAt(history, n, tx) <==> history[n].outcome.Began? && Begun(history[..n]) == tx;
    }
  }

  // It is open exactly when it has started and no later step has ended it.
  ghost predicate OpenSince(history: seq<Step>, b: nat, tx: nat) {
    StartsAt(history, b, tx) && forall e: nat :: e > b ==> !EndsAt(history, e, tx)
  }

  lemma {:induction false} OpenIff(history: seq<Step>, tx: nat)
    ensures IsOpen(history, tx) <==> exists b: nat :: OpenSince(history, b, tx)
  {
    if history != [] {
      var n := |history| - 1;
      var front := history[..n];
      OpenIff(front, tx);
      forall b: nat | b < n ensures OpenSince(history, b, tx) <==> OpenSince(front, b, tx) && !EndsAt(history, n, tx) {
        assert front[..b] == history[..b];
        assert forall e: nat :: e < n ==> (EndsAt(front, e, tx) <==> EndsAt(history, e, tx));
      }
      assert OpenSince(history, n, tx) <==> StartsAt(history, n, tx);
      if b: nat :| OpenSince(front, b, tx) {
        assert OpenSince(history, b, tx) <==> !EndsAt(history, n, tx);
      }
      if b: nat :| OpenSince(history, b, tx) {
        assert b <= n;
      }
    }
  }

  // Something was written under it exactly when a step since it started has completed a sink with
  // rows.
  ghost predicate WrittenAt(history: seq<Step>, w: nat, tx: nat) {
    w < |history| && history[w].Wrote(tx) && forall b: nat :: b >= w ==> !StartsAt(history, b, tx)
  }

  lemma {:induction false} WrittenIff(history: seq<Step>, tx: nat)
    ensures HasWritten(history, tx) <==> exists w: nat :: WrittenAt(history, w, tx)
  {
    if history != [] {
      var n := |history| - 1;
      var front := history[..n];
      WrittenIff(front, tx);
      forall w: nat | w < n
        ensures WrittenAt(history, w, tx) <==> WrittenAt(front, w, tx) && !StartsAt(history, n, tx)
      {
        forall b: nat | b < n ensures StartsAt(history, b, tx) <==> StartsAt(front, b, tx) {
          assert front[..b] == history[..b];
        }
      }
      assert WrittenAt(history, n, tx) <==> history[n].Wrote(tx) && !StartsAt(history, n, tx);
      if w: nat :| WrittenAt(front, w, tx) {
        assert WrittenAt(history, w, tx) <==> !StartsAt(history, n, tx);
      }
      if w: nat :| WrittenAt(history, w, tx) {
        assert w <= n;
      }
    }
  }
  ghost predicate Open(history: seq<Step>, tx: nat) {
    exists b: nat :: OpenSince(history, b, tx)
  }

  ghost predicate Written(history: seq<Step>, tx: nat) {
    exists w: nat :: WrittenAt(history, w, tx)
  }

  // What comes of each operation of a run: only an open transaction can be ended or written under, a
  // rollback throws exactly when something was written, and a statement that completes reports the
  // rows of all of its chunks.
  lemma {:induction false} OutcomeIff(world: World, ops: seq<Op>, k: nat)
    requires AllValid(ops) && k < |ops|
    ensures var step, before := RunOf(world, ops)[k], RunOf(world, ops[..k]);
            && (!ops[k].Execute? ==> step.sent == [])
            && match ops[k]
               case Begin(context) => step.outcome == if context.autoCommit then Began else Threw
               case Commit(tx) => step.outcome == if Open(before, tx) then Ended else Skipped
               case Rollback(tx) =>
                 step.outcome == if !Open(before, tx) then Skipped else if Written(before, tx) then Threw else Ended
               case Execute(tx, _, _, chunks) =>
                 if !Open(before, tx) then step.outcome == Skipped && step.sent == []
                 else step.outcome == if step.done == |chunks| then Completed(Rows(chunks, |chunks|)) else Threw
  {
    RunAt(world, ops, k);
    if !ops[k].Begin? {
      OpenIff(RunOf(world, ops[..k]), ops[k].tx);
      WrittenIff(RunOf(world, ops[..k]), ops[k].tx);
    }
  }
}
