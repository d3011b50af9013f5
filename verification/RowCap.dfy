// The rows that a scan hands out when it stops fetching after `cap` rows (0: never).
module RowCap {
  import opened Sequences

  function Less(cap: nat, rows: nat): nat {
    if cap <= rows then 0 else cap - rows
  }

  // Whole batches are handed out until cap rows are reached.
  function Emitted<T>(batches: seq<seq<T>>, cap: nat): seq<T> {
    if batches == [] then []
    else if 0 < cap <= |batches[0]| then batches[0]
    else batches[0] + Emitted(batches[1..], Less(cap, |batches[0]|))
  }

  // How many batches that takes.
  function Fetched<T>(batches: seq<seq<T>>, cap: nat): (n: nat)
    ensures n <= |batches|
  {
    if batches == [] then 0
    else if 0 < cap <= |batches[0]| then 1
    else 1 + Fetched(batches[1..], Less(cap, |batches[0]|))
  }

  lemma {:induction false} NoCap<T>(batches: seq<seq<T>>)
    ensures Emitted(batches, 0) == Flatten(batches)
    ensures Fetched(batches, 0) == |batches|
  {
    if batches != [] {
      NoCap(batches[1..]);
    }
  }

  // What is handed out ends with a batch: it falls short of the cap only when there are
  // no more rows, and without the last batch fetched it would fall short.
  lemma {:induction false} CapCutsAtBatch<T>(batches: seq<seq<T>>, cap: nat)
    requires cap > 0
    ensures var n := Fetched(batches, cap);
            && Emitted(batches, cap) == Flatten(batches[..n])
            && (|Emitted(batches, cap)| < cap ==> n == |batches|)
            && (n > 0 ==> |Flatten(batches[..n - 1])| < cap)
  {
    if batches != [] {
      var rows, rest := batches[0], batches[1..];
      var n := Fetched(batches, cap);
      assert batches[..n][1..] == rest[..n - 1];
      assert Flatten(batches[..n]) == rows + Flatten(rest[..n - 1]);
      if cap > |rows| {
        CapCutsAtBatch(rest, cap - |rows|);
        if n > 1 {
          assert batches[..n - 1][1..] == rest[..n - 2];
          assert Flatten(batches[..n - 1]) == rows + Flatten(rest[..n - 2]);
        }
      } else {
        assert rest[..0] == [];
      }
    }
  }

  lemma {:induction false} MoreBatchesMoreRows<T>(batches: seq<seq<T>>, j: nat, k: nat)
    requires j <= k <= |batches|
    ensures Flatten(batches[..j]) <= Flatten(batches[..k])
  {
    assert batches[..k] == batches[..j] + batches[j..k];
    FlattenConcat(batches[..j], batches[j..k]);
  }

  // With batches of at most `page` rows, what is handed out is a prefix of all rows that
  // overshoots the cap by less than one batch.
  lemma CapBounds<T>(batches: seq<seq<T>>, cap: nat, page: nat)
    requires cap > 0 && page > 0
    requires forall i :: 0 <= i < |batches| ==> |batches[i]| <= page
    ensures Emitted(batches, cap) <= Flatten(batches)
    ensures |Emitted(batches, cap)| >= if cap <= |Flatten(batches)| then cap else |Flatten(batches)|
    ensures |Emitted(batches, cap)| <= cap + page - 1
  {
    CapCutsAtBatch(batches, cap);
    var n := Fetched(batches, cap);
    assert batches[..|batches|] == batches;
    MoreBatchesMoreRows(batches, n, |batches|);
    if n > 0 {
      assert batches[..n] == batches[..n - 1] + [batches[n - 1]];
      FlattenPush(batches[..n - 1], batches[n - 1]);
    }
  }

  // "No more than cap rows" holds exactly when there are no more rows than that, or some
  // batch ends where the cap is reached.
  lemma CapIsExactIff<T>(batches: seq<seq<T>>, cap: nat)
    requires cap > 0
    ensures |Emitted(batches, cap)| <= cap
            <==> || |Flatten(batches)| <= cap
                 || exists k :: 0 <= k <= |batches| && |Flatten(batches[..k])| == cap
  {
    CapCutsAtBatch(batches, cap);
    var n := Fetched(batches, cap);
    assert batches[..|batches|] == batches;
    MoreBatchesMoreRows(batches, n, |batches|);
    if k :| 0 <= k <= |batches| && |Flatten(batches[..k])| == cap {
      if k < n {
        MoreBatchesMoreRows(batches, k, n - 1);
      } else {
        MoreBatchesMoreRows(batches, n, k);
      }
    }
  }

  // Empty batches change nothing: a scan may skip them.
  lemma {:induction false} SkipEmpty<T>(batches: seq<seq<T>>, used: nat, cap: nat)
    requires 0 < used <= |batches| && Flatten(batches[..used - 1]) == []
    ensures var rows := batches[used - 1];
            && Emitted(batches, cap) == (if 0 < cap <= |rows| then rows else rows + Emitted(batches[used..], Less(cap, |rows|)))
            && Fetched(batches, cap) == used + if 0 < cap <= |rows| then 0 else Fetched(batches[used..], Less(cap, |rows|))
  {
    if used > 1 {
      var rest := batches[1..];
      assert batches[..used - 1][1..] == rest[..used - 2];
      assert batches[0] == [] && Flatten(rest[..used - 2]) == [];
      SkipEmpty(rest, used - 1, cap);
      assert rest[used - 1..] == batches[used..];
    }
  }

  lemma {:induction false} EmittedNothing<T>(batches: seq<seq<T>>, cap: nat)
    requires Flatten(batches) == []
    ensures Emitted(batches, cap) == []
  {
    if batches != [] {
      assert batches[0] == [] && Flatten(batches[1..]) == [];
      EmittedNothing(batches[1..], cap);
    }
  }

  // A scan that holds `left` rows of its current batch and may fetch further batches
  // until `remaining` rows are out (0: without end).
  datatype Feed<T> = Feed(left: seq<T>, finished: bool, remaining: nat, batches: seq<seq<T>>) {
    predicate Closed() {
      finished || 0 < remaining <= |left|
    }

    // The rows still to be handed out ...
    function Upcoming(): seq<T> {
      left + if Closed() then [] else Emitted(batches, Less(remaining, |left|))
    }

    // ... and the batches still to be fetched.
    function ToFetch(): (n: nat)
      ensures n <= |batches|
    {
      if Closed() then 0 else Fetched(batches, Less(remaining, |left|))
    }

    function AfterRow(): Feed<T>
      requires left != []
    {
      Feed(left[1..], finished || remaining == 1, Less(remaining, 1), batches)
    }

    lemma TakeRow()
      requires left != []
      ensures Upcoming() == [left[0]] + AfterRow().Upcoming()
      ensures ToFetch() == AfterRow().ToFetch()
    {
      var more := if Closed() then [] else Emitted(batches, Less(remaining, |left|));
      assert left + more == [left[0]] + (left[1..] + more);
    }

    function AfterBatch(rows: seq<T>, last: bool, used: nat): Feed<T>
      requires used <= |batches|
    {
      Feed(rows, last, remaining, batches[used..])
    }

    lemma TakeBatch(used: nat, last: bool)
      requires left == [] && !finished
      requires 0 < used <= |batches| && Flatten(batches[..used - 1]) == []
      requires last ==> used == |batches|
      ensures var next := AfterBatch(batches[used - 1], last, used);
              next.Upcoming() == Upcoming() && ToFetch() == used + next.ToFetch()
    {
      SkipEmpty(batches, used, remaining);
    }
  }
}
