// The C++ side of a scan: batches of any size are cut into output chunks of a fixed size.
module BridgeScan {
  import opened CodaJson
  import opened CodaService
  import opened DuckValues
  import opened Ffi
  import opened Owners
  import opened RowCap
  import opened ScanClient
  import opened ScanProtocol
  import opened ScanValues
  import opened Sequences
  import opened Wrappers

  const VECTOR_SIZE: nat := 2048

  // The rows of a chunk: as many as fit, but the chunk in which the cap is reached ends there.
  function ChunkSize(upcoming: nat, remaining: nat): nat {
    var full := if upcoming < VECTOR_SIZE then upcoming else VECTOR_SIZE;
    if 0 < remaining < full then remaining else full
  }

  lemma NextBatches(pending: seq<Reply>, rest: seq<Reply>, rows: seq<RowInfo>)
    requires Next(pending, rest, rows)
    ensures var used := |pending| - |rest|;
            && Flatten(Batches(pending)[..used - 1]) == []
            && Batches(pending)[used - 1] == rows
            && Batches(pending)[used..] == Batches(rest)
  {
    var used := |pending| - |rest|;
    BatchesSplit(pending, used - 1);
    BatchesSplit(pending, used);
    MapAt(ShownRows, pending, used - 1);
  }

  // The columns that the projection asks for: those of its ids, or all when it has none.
  function Resolved(columnIndexes: seq<ColumnIndex>, projectionIds: seq<nat>): seq<ColumnIndex>
    requires forall i :: 0 <= i < |projectionIds| ==> projectionIds[i] < |columnIndexes|
  {
    if projectionIds == [] then columnIndexes
    else seq(|projectionIds|, i requires 0 <= i < |projectionIds| => columnIndexes[projectionIds[i]])
  }

  method ResolveColumns(columnIndexes: seq<ColumnIndex>, projectionIds: seq<nat>) returns (indexes: seq<ColumnIndex>)
    requires forall i :: 0 <= i < |projectionIds| ==> projectionIds[i] < |columnIndexes|
    ensures indexes == Resolved(columnIndexes, projectionIds)
    ensures if projectionIds == [] then indexes == columnIndexes
            else |indexes| == |projectionIds|
                 && forall i :: 0 <= i < |indexes| ==> indexes[i] == columnIndexes[projectionIds[i]]
  {
    if projectionIds == [] {
      return columnIndexes;
    }
    indexes := [];
    for i := 0 to |projectionIds|
      invariant indexes == Resolved(columnIndexes, projectionIds)[..i]
    {
      indexes := indexes + [columnIndexes[projectionIds[i]]];
    }
  }

  // What a scan state goes through: the rows it holds and the replies still to come.
  datatype Progress = Progress(left: seq<RowInfo>, finished: bool, remaining: nat, pending: seq<Reply>) {
    function Feed(): Feed<RowInfo> {
      RowCap.Feed(left, finished, remaining, Batches(pending))
    }

    // The rows that the calls to come will hand out.
    function Upcoming(): seq<RowInfo> {
      Feed().Upcoming()
    }

    // The replies that will never be fetched.
    function Unfetched(): int {
      |pending| - Feed().ToFetch()
    }

    // The replies that will not have been fetched when the first row is there.
    function Unread(): int {
      |pending| - if left == [] then Fetched(Batches(pending), 1) else 0
    }

    function AfterRow(): Progress
      requires left != []
    {
      Progress(left[1..], finished || remaining == 1, Less(remaining, 1), pending)
    }

    lemma TakeRow()
      requires left != []
      ensures Upcoming() != [] && left[0] == Upcoming()[0]
      ensures AfterRow().Upcoming() == Upcoming()[1..] && AfterRow().Unfetched() == Unfetched()
    {
      Feed().TakeRow();
    }

    // Taking over a batch changes neither what is to come nor how far it is fetched.
    lemma TakeBatch(next: Progress)
      requires left == [] && !finished
      requires Next(pending, next.pending, next.left) && (next.finished ==> next.pending == [])
      requires next.remaining == remaining
      ensures next.Upcoming() == Upcoming() && next.Unfetched() == Unfetched()
      ensures FailureOf(next.pending) == FailureOf(pending)
    {
      NextBatches(pending, next.pending, next.left);
      Feed().TakeBatch(|pending| - |next.pending|, next.finished);
    }

    lemma ReadBatch(next: Progress)
      requires left == [] && Next(pending, next.pending, next.left)
      ensures next.Unread() == Unread()
    {
      NextBatches(pending, next.pending, next.left);
      SkipEmpty(Batches(pending), |pending| - |next.pending|, 1);
    }

    lemma MoreVisible()
      requires left == [] && !finished && Upcoming() != []
      ensures VisibleRows(pending) != []
    {
      if VisibleRows(pending) == [] {
        EmittedNothing(Batches(pending), remaining);
      }
    }

    // To see that no row is to come, all replies have to be fetched.
    lemma NothingLeft()
      requires left == [] && !finished && VisibleRows(pending) == []
      ensures Upcoming() == [] && Unfetched() == 0
    {
      EmittedNothing(Batches(pending), remaining);
      if remaining == 0 {
        NoCap(Batches(pending));
      } else {
        CapCutsAtBatch(Batches(pending), remaining);
      }
    }
  }

  // A scan at its start: its requests, what is live elsewhere, its rows and its cap, the
  // replies it will leave unfetched at its end and at its first row, how its last request will
  // fail, and whether the replies are those of its whole run. If not, there are enough for the cap.
  datatype Start = Start(log: seq<Request>, balance: int, rows: seq<RowInfo>, cap: nat, unfetched: int, unread: int,
                         failure: Option<Error>, whole: bool) {
    predicate Enough() {
      whole || 0 < cap <= |rows|
    }

    // A chunk of rows n to m has not met the cap, or ends just there ...
    predicate Within(n: nat, m: nat) {
      n <= m <= |rows| && m - n <= VECTOR_SIZE && (cap <= n || m <= cap)
    }

    // ... and may not take another row.
    predicate Full(n: nat, m: nat) {
      m == n + VECTOR_SIZE || m == |rows| || n < m == cap
    }

    // How long a chunk becomes that begins at row n.
    function ChunkAt(n: nat): nat
      requires n <= |rows|
    {
      ChunkSize(|rows| - n, Less(cap, n))
    }

    lemma FullChunk(n: nat, m: nat)
      requires Within(n, m) && Full(n, m)
      ensures m == n + ChunkAt(n)
    {
    }
  }

  function StartOf(log: seq<Request>, balance: int, progress: Progress, whole: bool): Start {
    Start(log, balance, progress.Upcoming(), progress.remaining, progress.Unfetched(), progress.Unread(),
          FailureOf(progress.pending), whole)
  }

  // n of the rows were handed out.
  ghost predicate Advanced(start: Start, now: Progress, n: nat) {
    && n <= |start.rows| && now.Upcoming() == start.rows[n..]
    && now.Unfetched() == start.unfetched && (n == 0 ==> now.Unread() == start.unread)
    && now.remaining == Less(start.cap, n)
    && FailureOf(now.pending) == start.failure
    && (0 < start.cap <= n ==> now.finished)
  }

  lemma AdvanceRow(start: Start, now: Progress, n: nat)
    requires Advanced(start, now, n) && now.left != []
    ensures n < |start.rows| && now.left[0] == start.rows[n]
    ensures Advanced(start, now.AfterRow(), n + 1)
  {
    now.TakeRow();
  }

  lemma AdvanceBatch(start: Start, now: Progress, n: nat, next: Progress)
    requires Advanced(start, now, n) && now.left == [] && !now.finished
    requires Next(now.pending, next.pending, next.left) && (next.finished ==> next.pending == [])
    requires next.remaining == now.remaining
    ensures Advanced(start, next, n)
  {
    now.TakeBatch(next);
    now.ReadBatch(next);
  }

  // Rows n to m of a scan, as they are put out. (Folded up, like the run of a handle.)
  ghost predicate Shows(projection: Projection, output: seq<seq<Value>>, rows: seq<RowInfo>, n: nat, m: nat) {
    forall look {:trigger LookAt(look, m)} :: LookAt(look, m) ==>
      n <= m <= |rows| && output == projection.RenderAll(rows[n..m])
  }

  lemma ShowsAppend(projection: Projection, a: seq<seq<Value>>, b: seq<seq<Value>>, rows: seq<RowInfo>,
                    n: nat, k: nat, m: nat)
    requires Shows(projection, a, rows, n, k) && Shows(projection, b, rows, k, m)
    ensures Shows(projection, a + b, rows, n, m)
  {
    assert LookAt(0, k) && LookAt(0, m);
    assert rows[n..m] == rows[n..k] + rows[k..m];
    projection.RenderConcat(rows[n..k], rows[k..m]);
  }

  lemma ShowsNothing(projection: Projection, rows: seq<RowInfo>, n: nat)
    requires n <= |rows|
    ensures Shows(projection, [], rows, n, n)
  {
  }

  lemma ShowsRow(projection: Projection, rows: seq<RowInfo>, n: nat)
    requires n < |rows|
    ensures Shows(projection, [projection.Render(rows[n])], rows, n, n + 1)
  {
    projection.RenderPush(rows, n, n);
  }

  // What was put out so far is the beginning of the whole output.
  lemma ShowsPrefix(projection: Projection, output: seq<seq<Value>>, rows: seq<RowInfo>, n: nat)
    requires Shows(projection, output, rows, 0, n)
    ensures n <= |rows| && |output| == n && output <= projection.RenderAll(rows)
    ensures n == |rows| ==> output == projection.RenderAll(rows)
  {
    assert LookAt(0, n);
    projection.RenderAppend(rows, n, |rows|);
    assert rows[0..n] == rows[..n] && rows[..|rows|] == rows;
  }

  // The rows n to m are in a chunk. (Folded as well.)
  ghost predicate Collected(start: Start, projection: Projection, chunk: seq<seq<Value>>, n: nat, m: nat) {
    forall look {:trigger LookAt(look, m)} :: LookAt(look, m) ==>
      && start.Within(n, m) && m == n + |chunk| && Shows(projection, chunk, start.rows, n, m)
  }

  lemma CollectedNothing(start: Start, projection: Projection, n: nat)
    requires start.Within(n, n)
    ensures Collected(start, projection, [], n, n)
  {
    ShowsNothing(projection, start.rows, n);
  }

  lemma CollectedNext(start: Start, projection: Projection, chunk: seq<seq<Value>>, row: seq<Value>, n: nat, m: nat)
    requires Collected(start, projection, chunk, n, m) && |chunk| < VECTOR_SIZE && (n < m ==> m != start.cap)
    requires m < |start.rows| && Shows(projection, [row], start.rows, m, m + 1)
    ensures Collected(start, projection, chunk + [row], n, m + 1)
  {
    assert LookAt(0, m);
    ShowsAppend(projection, chunk, [row], start.rows, n, m, m + 1);
  }

  lemma CollectedChunk(start: Start, projection: Projection, chunk: seq<seq<Value>>, n: nat, m: nat)
    requires Collected(start, projection, chunk, n, m) && start.Full(n, m)
    ensures n <= |start.rows| && m == n + start.ChunkAt(n) <= |start.rows| && |chunk| == m - n
    ensures m == n ==> n == |start.rows|
    ensures Shows(projection, chunk, start.rows, n, m)
  {
    assert LookAt(0, m);
    start.FullChunk(n, m);
  }

  lemma MemberOwned(p: Ptr, batch: ScanBatch, i: nat)
    requires i < |batch.rows.items|
    ensures RowOwns(p, batch.rows.items[i]) <= BatchOwns(p, batch)
  {
    AllOwnUpdate(RowOwns, p, batch.rows.items, i, batch.rows.items[i]);
  }

  lemma {:induction false} OneRequestPerReply(s: Service, q: Query, c: Cursor, log: seq<Request>, replies: seq<Reply>)
    requires IsStretch(s, q, c, log, replies)
    ensures |RequestsOf(q, c, replies)| == |replies|
    decreases |replies|
  {
    if replies != [] && replies[0].Success? {
      OneRequestPerReply(s, q, AfterPage(c, replies[0].value), log + [RequestFor(q, c)], replies[1..]);
    }
  }

  // RustBridgeScanGlobalState
  class ScanState {
    const remote: Remote
    const heap: Heap
    const projection: Projection
    const handle: ScanHandle
    const handlePtr: Ptr
    var rows: ScanBatch
    var rowOffset: nat
    var remainingRows: nat
    var finished: bool

    ghost predicate Valid()
      reads this, handle, heap, remote
    {
      && handle.remote == remote && handle.heap == heap
      && heap.Valid() && handle.Valid()
      && rowOffset <= |rows.rows.items|
      && (!finished ==> !handle.finished)
      && Owned() <= heap.live
    }

    // Blocks held by this state: the current batch and the boxed handle.
    ghost function Owned(): nat
      reads this
    {
      BatchOwns(heap.watched, rows) + Owns(heap.watched, handlePtr)
    }

    ghost function State(): Progress
      requires rowOffset <= |rows.rows.items|
      reads this, handle
    {
      Progress(Map(RowText, rows.rows.items)[rowOffset..], finished, remainingRows, handle.pending)
    }

    constructor (remote: Remote, heap: Heap, tableId: string, filter: string, order: string, pushedLimit: nat,
                 columnIndexes: seq<ColumnIndex>, projectionIds: seq<nat>, columns: seq<ColumnInfo>, casts: Casts,
                 ghost whole: bool, ghost replies: seq<Reply>)
      requires heap.Valid() && forall i :: 0 <= i < |projectionIds| ==> projectionIds[i] < |columnIndexes|
      requires IsStretch(remote.service, Query(tableId, filter, order, PageSize(pushedLimit)), START, remote.log, replies)
      requires whole ==> IsRun(remote.service, Query(tableId, filter, order, PageSize(pushedLimit)), START, remote.log, replies)
      requires whole || 0 < pushedLimit <= |Emitted(Batches(replies), pushedLimit)|
      modifies heap
      ensures this.remote == remote && this.heap == heap && fresh(handle)
      ensures projection == Projection(Resolved(columnIndexes, projectionIds), columns, casts)
      ensures Valid() && heap.live == old(heap.live) + Owned()
      ensures handle.query == Query(tableId, filter, order, PageSize(pushedLimit))
      ensures handle.WholeLog() == remote.log + RequestsOf(handle.query, START, replies)
      ensures State() == Progress([], false, pushedLimit, replies) && handle.whole == whole
    {
      this.remote, this.heap := remote, heap;
      var indexes := ResolveColumns(columnIndexes, projectionIds);
      projection := Projection(indexes, columns, casts);
      remainingRows := pushedLimit;
      handle := new ScanHandle(remote, heap, tableId, filter, order, PageSize(pushedLimit), whole, replies);
      rows, rowOffset, finished := NO_BATCH, 0, false;
      var owner := OpenScan(heap);
      handlePtr := owner.handle;
    }

    lemma Opened()
      requires Valid() && State().left == [] && !finished
      requires handle.whole || 0 < State().remaining <= |State().Upcoming()|
      ensures Running(StartOf(handle.WholeLog(), Balance(), State(), handle.whole), 0)
    {
    }

    // rows = std::move(response): the old batch is freed, the new one taken over, and the
    // response left empty; its destructor then frees nothing.
    method TakeOver(response: BatchOwner)
      requires heap.Valid() && Owned() + response.Owned(heap.watched) <= heap.live
      modifies this, heap, response
      ensures heap.Valid() && rows == old(response.batch) && rowOffset == 0 && finished == rows.finished
      ensures remainingRows == old(remainingRows)
      ensures heap.live == old(heap.live) - old(BatchOwns(heap.watched, rows))
    {
      FreeRows(rows.rows, heap);
      rows := response.batch;
      response.batch := NO_BATCH;
      finished, rowOffset := rows.finished, 0;
      response.Reset(heap);
    }

    // What is live beyond the blocks of this state.
    ghost function Balance(): int
      reads this, heap
    {
      heap.live - Owned()
    }

    ghost predicate Drained()
      reads this
    {
      finished && rowOffset == |rows.rows.items|
    }

    // n rows of the scan are out, and the rest of it is as it was at the start.
    // (The guard keeps this folded up until a proof looks into it.)
    ghost predicate Running(start: Start, n: nat)
      reads this, handle, heap, remote
    {
      forall look {:trigger LookAt(look, n)} :: LookAt(look, n) ==>
        && Valid() && Balance() == start.balance && handle.WholeLog() == start.log
        && handle.whole == start.whole && start.Enough()
        && Advanced(start, State(), n) && (n > 0 ==> projection.Valid())
    }

    // An exception was thrown: some request failed, or, when there is a row to show, the
    // projection is at fault.
    ghost predicate Stopped(start: Start, e: Error)
      reads this, handle, heap, remote
    {
      forall look {:trigger LookInside(look)} :: LookInside(look) ==>
        && handle.remote == remote
        && heap.Valid() && Balance() >= 0 && (e != MissingRowId ==> Balance() == start.balance)
        && handle.WholeLog() == start.log
        && (if projection.Valid() || start.rows == []
            then start.failure == Some(e) && start.unfetched == 0 && handle.toCome == []
            else e == ColumnOutOfRange && |handle.toCome| == start.unread)
    }

    // Fetches a batch; false when the scan is over.
    method Refill() returns (r: Result<bool, Error>)
      requires Valid() && rowOffset == |rows.rows.items| && !finished
      requires handle.whole || VisibleRows(handle.pending) != []
      modifies this, handle, heap, remote
      ensures handle.remote == remote && heap.Valid() && Balance() >= 0 && handle.WholeLog() == old(handle.WholeLog())
      ensures r.Success? || r.error != MissingRowId ==> Balance() == old(Balance())
      ensures r.Failure? ==>
                && handle.toCome == [] && FailureOf(old(State()).pending) == Some(r.error)
                && old(State()).Upcoming() == [] && old(State()).Unfetched() == 0
      ensures r.Success? ==>
                && Valid() && (r.value <==> State().left != []) && (!r.value ==> finished)
                && Next(old(State()).pending, State().pending, State().left)
                && (State().finished ==> State().pending == [])
                && remainingRows == old(remainingRows)
    {
      ghost var before := State();
      var response := handle.NextBatch();
      if response.Failure? {
        before.NothingLeft();
        return Failure(response.error);
      }
      var owner := new BatchOwner(response.value);
      TakeOver(owner);
      assert State() == Progress(Map(RowText, response.value.rows.items), finished, remainingRows, handle.pending);
      r := Success(rows.rows.items != []);
    }

    // The values of one output row, read from a batch that is still live.
    method RenderRow(row: Row) returns (r: Result<seq<Value>, Error>)
      requires RowOwns(heap.watched, row) <= heap.live
      ensures r.Success? ==> r.value == projection.Render(RowText(row))
      ensures if projection.Valid() then r.Success? else r == Failure(ColumnOutOfRange)
    {
      var values: seq<Value> := [];
      for i := 0 to |projection.indexes|
        invariant values == projection.RenderFirst(i, RowText(row))
        invariant forall j :: 0 <= j < i ==> projection.InRange(j)
      {
        if projection.indexes[i].Physical? && projection.indexes[i].index >= |projection.columns| {
          assert LookInside(0) && !projection.InRange(i);
          return Failure(ColumnOutOfRange);
        }
        values := values + [projection.RenderColumn(projection.indexes[i], RowText(row))];
      }
      r := Success(values);
    }

    // The next row of the batch; `capped` when it is the last one before the cap.
    method EmitRow() returns (r: Result<seq<Value>, Error>, capped: bool)
      requires Valid() && rowOffset < |rows.rows.items|
      modifies this
      ensures Valid() && Owned() == old(Owned())
      ensures capped == (r.Success? && old(remainingRows) == 1)
      ensures if projection.Valid() then r.Success? else r == Failure(ColumnOutOfRange)
      ensures r.Failure? ==> finished == old(finished)
      ensures capped ==> finished
      ensures old(State()).left != []
      ensures r.Success? ==>
                r.value == projection.Render(old(State()).left[0]) && State() == old(State()).AfterRow()
    {
      var row := rows.rows.items[rowOffset];
      MemberOwned(heap.watched, rows, rowOffset);
      MapAt(RowText, rows.rows.items, rowOffset);
      rowOffset := rowOffset + 1;
      capped := false;
      r := RenderRow(row);
      if r.Failure? {
        return;
      }
      capped := CountRow();
    }

    // Counts a row towards the cap.
    method CountRow() returns (capped: bool)
      modifies `remainingRows, `finished
      ensures remainingRows == Less(old(remainingRows), 1) && capped == (old(remainingRows) == 1)
      ensures finished == (old(finished) || capped)
    {
      capped := false;
      if remainingRows > 0 {
        remainingRows := remainingRows - 1;
        if remainingRows == 0 {
          finished, capped := true, true;
        }
      }
    }

    // The first half of a turn: a batch that has a row, unless the scan is over.
    method EnsureRow(ghost start: Start, ghost n: nat) returns (r: Result<bool, Error>)
      requires Running(start, n)
      modifies this, handle, heap, remote
      ensures old(finished) ==> finished
      ensures r.Failure? ==> Stopped(start, r.error) && |start.rows| == n && !old(finished)
      ensures r.Success? ==> Running(start, n)
      ensures r.Success? && r.value ==> rowOffset < |rows.rows.items|
      ensures r.Success? && !r.value ==> Drained() && |start.rows| == n
    {
      assert LookAt(0, n);
      if rowOffset < |rows.rows.items| {
        return Success(true);
      }
      if finished {
        return Success(false);
      }
      ghost var before := State();
      if !handle.whole {
        before.MoreVisible();
      }
      r := Refill();
      if r.Success? {
        AdvanceBatch(start, before, n, State());
        // The source goes on after an empty batch that is not the last one; there is none.
        assert r.value || finished;
      }
    }

    // The second half: the next row of the scan is the next row of the batch.
    method HandOut(ghost start: Start, ghost n: nat) returns (r: Result<seq<Value>, Error>, capped: bool)
      requires Running(start, n) && rowOffset < |rows.rows.items|
      modifies this
      ensures r.Failure? ==> Stopped(start, r.error) && !projection.Valid() && finished == old(finished)
      ensures r.Success? ==>
                && Running(start, n + 1) && n < |start.rows| && projection.Valid()
                && Shows(projection, [r.value], start.rows, n, n + 1)
                && capped == (start.cap == n + 1) && (capped || old(finished) ==> finished)
    {
      assert LookAt(0, n);
      AdvanceRow(start, State(), n);
      ShowsRow(projection, start.rows, n);
      RequestsToCome();
      r, capped := EmitRow();
    }

    lemma RequestsToCome()
      requires Valid()
      ensures |handle.toCome| == |handle.pending|
    {
      assert LookInside(0);
      OneRequestPerReply(remote.service, handle.query, handle.State(), remote.log, handle.pending);
    }

    // One turn of the loop: the next row, or none when nothing is left. `capped` when it is
    // the last one before the cap.
    method NextRow(ghost start: Start, ghost n: nat) returns (r: Result<Option<seq<Value>>, Error>, capped: bool)
      requires Running(start, n)
      modifies this, handle, heap, remote
      ensures old(finished) ==> finished
      ensures r.Failure? ==> Stopped(start, r.error) && (projection.Valid() ==> |start.rows| == n && !old(finished))
      ensures r.Success? && r.value.None? ==> Running(start, n) && Drained() && |start.rows| == n && !capped
      ensures r.Success? && r.value.Some? ==>
                && Running(start, n + 1) && n < |start.rows|
                && Shows(projection, [r.value.value], start.rows, n, n + 1)
                && capped == (start.cap == n + 1) && (capped ==> finished) && projection.Valid()
    {
      var more := EnsureRow(start, n);
      if more.Failure? {
        return Failure(more.error), false;
      }
      if !more.value {
        return Success(None), false;
      }
      var row;
      row, capped := HandOut(start, n);
      r := if row.Failure? then Failure(row.error) else Success(Some(row.value));
    }

    // The loop of a call: turn after turn until the chunk is full.
    method FillChunk(ghost start: Start, ghost n: nat) returns (r: Result<seq<seq<Value>>, Error>, ghost m: nat)
      requires Running(start, n) && start.Within(n, n)
      modifies this, handle, heap, remote
      ensures old(finished) ==> finished
      ensures r.Failure? ==>
                Stopped(start, r.error) && (projection.Valid() ==> |start.rows| < n + VECTOR_SIZE && !old(finished))
      ensures r.Success? ==> Running(start, m) && Collected(start, projection, r.value, n, m)
      ensures r.Success? ==> start.Full(n, m) && (m == n + VECTOR_SIZE || finished) && (m == n ==> Drained())
    {
      m := n;
      var chunk: seq<seq<Value>> := [];
      CollectedNothing(start, projection, n);
      while |chunk| < VECTOR_SIZE
        invariant Running(start, m) && Collected(start, projection, chunk, n, m)
        invariant m == n + |chunk| <= n + VECTOR_SIZE && (n < m ==> m != start.cap)
        invariant old(finished) ==> finished
      {
        var row, capped := NextRow(start, m);
        if row.Failure? {
          return Failure(row.error), m;
        }
        if row.value.None? {
          return Success(chunk), m;
        }
        CollectedNext(start, projection, chunk, row.value.value, n, m);
        chunk, m := chunk + [row.value.value], m + 1;
        if capped {
          return Success(chunk), m;
        }
      }
      r := Success(chunk);
    }

    // RustBridgeScan: the next chunk, as long as it can be. It is empty only at the end.
    method Scan(ghost start: Start, ghost n: nat) returns (r: Result<seq<seq<Value>>, Error>, ghost m: nat)
      requires Running(start, n) && n <= |start.rows|
      modifies this, handle, heap, remote
      ensures old(finished) ==> finished
      ensures r.Failure? ==>
                Stopped(start, r.error) && (projection.Valid() ==> |start.rows| < n + VECTOR_SIZE && !old(finished))
      ensures r.Success? ==> (m == n + VECTOR_SIZE || finished) && (m > n ==> projection.Valid())
      ensures r.Success? ==>
                && Running(start, m) && m == n + start.ChunkAt(n) <= |start.rows|
                && |r.value| == m - n && Shows(projection, r.value, start.rows, n, m)
                && (r.value == [] ==> Drained() && n == |start.rows|)
      ensures r.Success? ==> |r.value| <= 2048 && (|r.value| == 2048 || m == |start.rows| || m == start.cap)
    {
      if finished && rowOffset >= |rows.rows.items| {
        DrainedRows(start, n);
        ShowsNothing(projection, start.rows, n);
        return Success([]), n;
      }
      r, m := FillChunk(start, n);
      if r.Success? {
        CollectedChunk(start, projection, r.value, n, m);
        RunningIsValid(start, m);
      }
    }

    lemma RunningIsValid(start: Start, n: nat)
      requires Running(start, n)
      ensures n > 0 ==> projection.Valid()
    {
      assert LookAt(0, n);
    }

    lemma DrainedRows(start: Start, n: nat)
      requires Running(start, n) && finished && rowOffset >= |rows.rows.items|
      ensures n == |start.rows| && Drained()
    {
      assert LookAt(0, n);
    }

    // When nothing is left, exactly the replies that the rows take were fetched, and all that is
    // held is accounted for.
    lemma FetchedAtEnd(start: Start, n: nat, replies: seq<Reply>)
      requires Running(start, n) && Drained()
      requires start.unfetched == Progress([], false, start.cap, replies).Unfetched()
      requires |start.log| == |replies|
      ensures |remote.log| == Fetched(Batches(replies), start.cap) && remote.log <= start.log
      ensures |remote.log| == |replies| ==> start.failure.None?
      ensures heap.Valid() && Balance() >= 0 && Balance() == start.balance && (projection.Valid() || n == 0)
    {
      assert LookInside(0) && LookAt(0, n);
      OneRequestPerReply(remote.service, handle.query, handle.State(), remote.log, handle.pending);
    }

    // The same after an exception.
    lemma FetchedAtError(start: Start, e: Error, replies: seq<Reply>)
      requires Stopped(start, e)
      requires start.unfetched == Progress([], false, start.cap, replies).Unfetched()
      requires start.unread == |replies| - Fetched(Batches(replies), 1) && |start.log| == |replies|
      ensures remote.log <= start.log
      ensures if projection.Valid() || start.rows == []
              then start.failure == Some(e) && |remote.log| == |replies| == Fetched(Batches(replies), start.cap)
              else e == ColumnOutOfRange && |remote.log| == Fetched(Batches(replies), 1)
      ensures heap.Valid() && Balance() >= 0 && (e != MissingRowId ==> Balance() == start.balance)
    {
      assert LookInside(0);
    }

    // The members' destructors.
    method Destroy()
      requires heap.Valid() && Balance() >= 0
      modifies this, heap
      ensures heap.Valid() && heap.live == old(Balance())
    {
      FreeRows(rows.rows, heap);
      heap.Release(handlePtr);
    }
  }

  // A number of full chunks.
  ghost predicate Aligned(n: nat) {
    n == 0 || (n >= VECTOR_SIZE && Aligned(n - VECTOR_SIZE))
  }

  lemma {:induction false} AlignedBelow(n: nat, rows: nat)
    requires Aligned(n) && n <= rows < n + VECTOR_SIZE
    ensures n == rows - rows % VECTOR_SIZE
  {
    if n > 0 {
      AlignedBelow(n - VECTOR_SIZE, rows - VECTOR_SIZE);
    }
  }

  // The rows put out when a request fails: all full chunks. A projection outside the table
  // fails with the first row.
  ghost function FullChunks(projection: Projection, rows: nat): nat {
    if projection.Valid() then rows - rows % VECTOR_SIZE else 0
  }

  // After n rows: no chunk but the last one was short, and a row came out of a valid projection.
  // (Folded as well.)
  ghost predicate InStep(projection: Projection, finished: bool, n: nat) {
    forall look {:trigger LookAt(look, n)} :: LookAt(look, n) ==>
      (Aligned(n) || finished) && (n > 0 ==> projection.Valid())
  }

  lemma NextInStep(projection: Projection, before: bool, n: nat, after: bool, m: nat)
    requires InStep(projection, before, n) && (before ==> after) && n <= m
    requires (m == n + VECTOR_SIZE || after) && (m > n ==> projection.Valid())
    ensures InStep(projection, after, m)
  {
    assert LookAt(0, n);
  }

  lemma StoppedAt(projection: Projection, finished: bool, n: nat, rows: nat)
    requires InStep(projection, finished, n) && n <= rows
    requires projection.Valid() ==> rows < n + VECTOR_SIZE && !finished
    ensures n == FullChunks(projection, rows)
  {
    assert LookAt(0, n);
    if projection.Valid() {
      AlignedBelow(n, rows);
    }
  }

  // DuckDB calls a scan until it gives an empty chunk or throws.
  method Drive(scan: ScanState, ghost start: Start)
      returns (rows: seq<seq<Value>>, error: Option<Error>, ghost n: nat)
    requires scan.Running(start, 0)
    modifies scan, scan.handle, scan.heap, scan.remote
    ensures Shows(scan.projection, rows, start.rows, 0, n)
    ensures error.None? ==> scan.Running(start, n) && scan.Drained() && n == |start.rows|
    ensures error.Some? ==> scan.Stopped(start, error.value) && n == FullChunks(scan.projection, |start.rows|)
  {
    rows, error, n := [], None, 0;
    ShowsNothing(scan.projection, start.rows, 0);
    while true
      invariant scan.Running(start, n) && n <= |start.rows|
      invariant Shows(scan.projection, rows, start.rows, 0, n)
      invariant InStep(scan.projection, scan.finished, n)
      decreases |start.rows| - n
    {
      var chunk;
      ghost var m, before := 0, scan.finished;
      chunk, m := scan.Scan(start, n);
      if chunk.Failure? {
        StoppedAt(scan.projection, before, n, |start.rows|);
        error := Some(chunk.error);
        return;
      }
      if chunk.value == [] {
        return;
      }
      NextInStep(scan.projection, before, n, scan.finished, m);
      ShowsAppend(scan.projection, rows, chunk.value, start.rows, 0, n, m);
      rows := rows + chunk.value;
      n := m;
    }
  }

  // The same, with what was sent and what is still held.
  method DriveToEnd(scan: ScanState, ghost start: Start, ghost replies: seq<Reply>)
      returns (rows: seq<seq<Value>>, error: Option<Error>)
    requires scan.Running(start, 0) && |start.log| == |replies|
    requires start.unfetched == Progress([], false, start.cap, replies).Unfetched()
    requires start.unread == |replies| - Fetched(Batches(replies), 1)
    modifies scan, scan.handle, scan.heap, scan.remote
    ensures if scan.projection.Valid() || start.rows == []
            then
              && |scan.remote.log| == Fetched(Batches(replies), start.cap)
              && error == if |scan.remote.log| == |replies| then start.failure else None
            else error == Some(ColumnOutOfRange) && |scan.remote.log| == Fetched(Batches(replies), 1)
    ensures error.None? ==> rows == scan.projection.RenderAll(start.rows)
    ensures error.Some? ==>
              rows == scan.projection.RenderAll(start.rows)[..FullChunks(scan.projection, |start.rows|)]
    ensures scan.remote.log <= start.log
    ensures scan.heap.Valid() && scan.Balance() >= 0 && (error != Some(MissingRowId) ==> scan.Balance() == start.balance)
  {
    ghost var n;
    rows, error, n := Drive(scan, start);
    ShowsPrefix(scan.projection, rows, start.rows, n);
    if error.None? {
      scan.FetchedAtEnd(start, n, replies);
    } else {
      scan.FetchedAtError(start, error.value, replies);
    }
  }

  // RustBridgeScanInitGlobal: a new scan, and what is to come of it.
  method InitGlobal(remote: Remote, heap: Heap, tableId: string, filter: string, order: string, pushedLimit: nat,
                    columnIndexes: seq<ColumnIndex>, projectionIds: seq<nat>, columns: seq<ColumnInfo>, casts: Casts,
                    ghost whole: bool, ghost replies: seq<Reply>)
      returns (scan: ScanState, ghost start: Start)
    requires heap.Valid() && forall i :: 0 <= i < |projectionIds| ==> projectionIds[i] < |columnIndexes|
    requires IsStretch(remote.service, Query(tableId, filter, order, PageSize(pushedLimit)), START, remote.log, replies)
    requires whole ==> IsRun(remote.service, Query(tableId, filter, order, PageSize(pushedLimit)), START, remote.log, replies)
    requires whole || 0 < pushedLimit <= |Emitted(Batches(replies), pushedLimit)|
    modifies heap
    ensures scan.remote == remote && scan.heap == heap && fresh(scan) && fresh(scan.handle)
    ensures scan.projection == Projection(Resolved(columnIndexes, projectionIds), columns, casts)
    ensures scan.Running(start, 0)
    ensures start.log == remote.log + RequestsOf(Query(tableId, filter, order, PageSize(pushedLimit)), START, replies)
    ensures start == StartOf(start.log, old(heap.live), Progress([], false, pushedLimit, replies), whole)
  {
    scan := new ScanState(remote, heap, tableId, filter, order, pushedLimit, columnIndexes, projectionIds, columns,
                          casts, whole, replies);
    assert scan.Balance() == old(heap.live) && scan.State() == Progress([], false, pushedLimit, replies);
    start := StartOf(scan.handle.WholeLog(), scan.Balance(), scan.State(), whole);
    scan.Opened();
  }

  // The index that the i-th output column is asked for.
  function AskedFor(columnIndexes: seq<ColumnIndex>, projectionIds: seq<nat>, i: nat): ColumnIndex
    requires forall i :: 0 <= i < |projectionIds| ==> projectionIds[i] < |columnIndexes|
    requires i < if projectionIds == [] then |columnIndexes| else |projectionIds|
  {
    if projectionIds == [] then columnIndexes[i] else columnIndexes[projectionIds[i]]
  }

  // Column i of row r of the output is what the index it is asked for shows of row r.
  ghost predicate ShowsColumns(columnIndexes: seq<ColumnIndex>, projectionIds: seq<nat>, columns: seq<ColumnInfo>,
                               casts: Casts, shown: seq<RowInfo>, rows: seq<seq<Value>>)
    requires forall i :: 0 <= i < |projectionIds| ==> projectionIds[i] < |columnIndexes|
  {
    |rows| <= |shown| && forall r :: 0 <= r < |rows| ==>
      && |rows[r]| == (if projectionIds == [] then |columnIndexes| else |projectionIds|)
      && forall i :: 0 <= i < |rows[r]| ==> ShowsCell(AskedFor(columnIndexes, projectionIds, i), columns, casts, shown[r], rows[r][i])
  }

  // The row id is the row's own; a column is shown as its type and the row's cell have it.
  ghost predicate ShowsCell(index: ColumnIndex, columns: seq<ColumnInfo>, casts: Casts, row: RowInfo, v: Value) {
    match index
    case RowId => v == VarcharValue(row.id)
    case OtherVirtual => v == Null
    case Physical(c) =>
      c < |columns| ==> v == ToDuckValue(casts, ScanValueOf(casts, columns[c], row), DuckType(columns[c].logicalType))
  }

  lemma PrefixShowsColumns(columnIndexes: seq<ColumnIndex>, projectionIds: seq<nat>, columns: seq<ColumnInfo>,
                           casts: Casts, shown: seq<RowInfo>, rows: seq<seq<Value>>)
    requires forall i :: 0 <= i < |projectionIds| ==> projectionIds[i] < |columnIndexes|
    requires rows <= Projection(Resolved(columnIndexes, projectionIds), columns, casts).RenderAll(shown)
    ensures ShowsColumns(columnIndexes, projectionIds, columns, casts, shown, rows)
  {
    var projection := Projection(Resolved(columnIndexes, projectionIds), columns, casts);
    forall r | 0 <= r < |rows|
      ensures |rows[r]| == |projection.indexes|
      ensures forall i :: 0 <= i < |rows[r]| ==>
                ShowsCell(AskedFor(columnIndexes, projectionIds, i), columns, casts, shown[r], rows[r][i])
    {
      projection.RenderAllAt(shown, r);
      forall i | 0 <= i < |rows[r]|
        ensures ShowsCell(AskedFor(columnIndexes, projectionIds, i), columns, casts, shown[r], rows[r][i])
      {
        projection.RenderAt(shown[r], i);
      }
    }
  }

  // A scan is opened, driven to its end and destroyed.
  method OpenAndDrive(service: Service, watched: Ptr, tableId: string, filter: string, order: string,
                      pushedLimit: nat, columnIndexes: seq<ColumnIndex>, projectionIds: seq<nat>,
                      columns: seq<ColumnInfo>, casts: Casts, ghost replies: seq<Reply>)
      returns (rows: seq<seq<Value>>, error: Option<Error>, sent: seq<Request>, live: nat)
    requires forall i :: 0 <= i < |projectionIds| ==> projectionIds[i] < |columnIndexes|
    requires || IsRun(service, Query(tableId, filter, order, PageSize(pushedLimit)), START, [], replies)
             || (IsStretch(service, Query(tableId, filter, order, PageSize(pushedLimit)), START, [], replies)
                 && 0 < pushedLimit <= |Emitted(Batches(replies), pushedLimit)|)
    ensures var projection := Projection(Resolved(columnIndexes, projectionIds), columns, casts);
            var shown := projection.RenderAll(Emitted(Batches(replies), pushedLimit));
            && (if projection.Valid() || shown == []
                then
                  && |sent| == Fetched(Batches(replies), pushedLimit)
                  && error == if |sent| == |replies| then FailureOf(replies) else None
                else error == Some(ColumnOutOfRange) && |sent| == Fetched(Batches(replies), 1))
            && (error.None? ==> rows == shown)
            && (error.None? && pushedLimit == 0 ==> rows == projection.RenderAll(VisibleRows(replies)))
            && (error.Some? ==> rows == shown[..FullChunks(projection, |shown|)])
    ensures sent <= RequestsOf(Query(tableId, filter, order, PageSize(pushedLimit)), START, replies)
    ensures error != Some(MissingRowId) ==> live == 0
  {
    var remote := new Remote(service);
    var heap := new Heap(watched);
    ghost var query := Query(tableId, filter, order, PageSize(pushedLimit));
    ghost var whole := IsRun(service, query, START, [], replies);
    if whole {
      RunIsStretch(service, query, START, [], replies);
    }
    OneRequestPerReply(service, query, START, [], replies);
    NoCap(Batches(replies));
    var scan;
    ghost var start;
    scan, start := InitGlobal(remote, heap, tableId, filter, order, pushedLimit, columnIndexes, projectionIds, columns,
                              casts, whole, replies);
    assert start.log == RequestsOf(query, START, replies) && start.rows == Emitted(Batches(replies), pushedLimit);
    rows, error := DriveToEnd(scan, start, replies);
    sent := remote.log;
    scan.Destroy();
    live := heap.live;
  }

  // A whole scan: opened, driven to its end and destroyed. `replies` are the answers that the
  // service has for it - all of them, or, with a limit, at least enough to reach it: then the
  // chain of tokens need not end.
  method RunScan(service: Service, watched: Ptr, tableId: string, filter: string, order: string, pushedLimit: nat,
                 columnIndexes: seq<ColumnIndex>, projectionIds: seq<nat>, columns: seq<ColumnInfo>, casts: Casts,
                 ghost replies: seq<Reply>)
      returns (rows: seq<seq<Value>>, error: Option<Error>, sent: seq<Request>, live: nat)
    requires forall i :: 0 <= i < |projectionIds| ==> projectionIds[i] < |columnIndexes|
    requires || IsRun(service, Query(tableId, filter, order, PageSize(pushedLimit)), START, [], replies)
             || (IsStretch(service, Query(tableId, filter, order, PageSize(pushedLimit)), START, [], replies)
                 && 0 < pushedLimit <= |Emitted(Batches(replies), pushedLimit)|)
    ensures var projection := Projection(Resolved(columnIndexes, projectionIds), columns, casts);
            var shown := projection.RenderAll(Emitted(Batches(replies), pushedLimit));
            && (if projection.Valid() || shown == []
                then
                  && |sent| == Fetched(Batches(replies), pushedLimit)
                  && error == if |sent| == |replies| then FailureOf(replies) else None
                else error == Some(ColumnOutOfRange) && |sent| == Fetched(Batches(replies), 1))
            && (error.None? ==> rows == shown)
            && (error.None? && pushedLimit == 0 ==> rows == projection.RenderAll(VisibleRows(replies)))
            && (error.Some? ==> rows == shown[..FullChunks(projection, |shown|)])
    ensures ShowsColumns(columnIndexes, projectionIds, columns, casts, Emitted(Batches(replies), pushedLimit), rows)
    ensures sent <= RequestsOf(Query(tableId, filter, order, PageSize(pushedLimit)), START, replies)
    ensures error != Some(MissingRowId) ==> live == 0
  {
    rows, error, sent, live := OpenAndDrive(service, watched, tableId, filter, order, pushedLimit, columnIndexes,
                                            projectionIds, columns, casts, replies);
    PrefixShowsColumns(columnIndexes, projectionIds, columns, casts, Emitted(Batches(replies), pushedLimit), rows);
  }

  // With a pushed limit and a service that keeps to the page size it is asked for, a scan
  // hands out a prefix of all rows: at least the limit if there are so many, and less than
  // a page more.
  lemma CappedScan(replies: seq<Reply>, limit: nat)
    requires limit > 0
    requires forall i :: 0 <= i < |replies| && replies[i].Success? ==> |replies[i].value.rows| <= PageSize(limit)
    ensures var rows, all := Emitted(Batches(replies), limit), VisibleRows(replies);
            && rows <= all
            && (if limit <= |all| then limit else |all|) <= |rows| <= limit + PageSize(limit) - 1
            && |rows| <= limit + 499
  {
    forall i | 0 <= i < |replies| ensures |Batches(replies)[i]| <= PageSize(limit) {
      MapAt(ShownRows, replies, i);
    }
    CapBounds(Batches(replies), limit, PageSize(limit));
  }
}
