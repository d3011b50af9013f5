// The Rust side of a scan: a handle that fetches page after page and drops deleted rows.
module ScanClient {
  import opened CodaJson
  import opened CodaService
  import opened Ffi
  import opened ScanProtocol
  import opened Sequences
  import opened Wrappers

  const PAGE_LIMIT: nat := 500

  datatype ScanBatch = ScanBatch(rows: Raw<Row>, finished: bool)

  function BatchOwns(p: Ptr, b: ScanBatch): nat {
    RowsOwn(p, b.rows)
  }

  function PageSize(limit: nat): nat {
    if limit == 0 || limit > PAGE_LIMIT then PAGE_LIMIT else limit
  }

  lemma ShownPush(items: seq<Row>, i: nat, kept: seq<Row>)
    requires i < |items|
    requires Map(RowText, kept) == Filter(Shown, Map(RowText, items[..i]))
    ensures var next := if items[i].deleted then kept else kept + [items[i]];
            Map(RowText, next) == Filter(Shown, Map(RowText, items[..i + 1]))
  {
    assert items[..i + 1] == items[..i] + [items[i]];
    MapPush(RowText, items[..i], items[i]);
    FilterPush(Shown, Map(RowText, items[..i]), RowText(items[i]));
    MapPush(RowText, kept, items[i]);
  }

  // Frees the deleted rows and keeps the others, in order.
  method DropDeleted(rows: Raw<Row>, heap: Heap) returns (visible: Raw<Row>)
    requires heap.Valid() && RowsOwn(heap.watched, rows) <= heap.live
    modifies heap
    ensures heap.Valid()
    ensures Map(RowText, visible.items) == Filter(Shown, Map(RowText, rows.items))
    ensures heap.live == old(heap.live) - RowsOwn(heap.watched, rows) + RowsOwn(heap.watched, visible)
  {
    var items := heap.FromRaw(rows);
    assert items[0..] == items;
    ghost var rest := heap.live - AllOwn(RowOwns, heap.watched, items);
    var kept: seq<Row> := [];
    for i := 0 to |items|
      invariant heap.Valid()
      invariant Map(RowText, kept) == Filter(Shown, Map(RowText, items[..i]))
      invariant heap.live == rest + AllOwn(RowOwns, heap.watched, kept) + AllOwn(RowOwns, heap.watched, items[i..])
    {
      AllOwnHead(RowOwns, heap.watched, items, i);
      ShownPush(items, i, kept);
      if items[i].deleted {
        FreeRow(items[i], heap);
      } else {
        AllOwnPush(RowOwns, heap.watched, kept, items[i]);
        kept := kept + [items[i]];
      }
    }
    assert items[..|items|] == items;
    visible := heap.IntoRaw(kept);
  }

  // list_rows: one request and its parsed reply.
  method ListRowsPage(remote: Remote, heap: Heap, request: Request) returns (r: Result<RowsResponse, Error>)
    requires heap.Valid()
    modifies remote, heap
    ensures remote.log == old(remote.log) + [request]
    ensures heap.Valid() && old(heap.live) <= heap.live
    ensures r.Failure? ==> ParseRows(remote.service.rows(remote.log)) == Failure(r.error)
    ensures r.Failure? && r.error != MissingRowId ==> heap.live == old(heap.live)
    ensures r.Success? ==> ParseRows(remote.service.rows(remote.log)) == Success(ResponseText(r.value))
    ensures r.Success? ==> heap.live == old(heap.live) + ResponseOwns(heap.watched, r.value)
  {
    var reply := remote.SendListRows(request);
    if reply.Failure? {
      return Failure(reply.error);
    }
    ghost var leaked, cells;
    r, leaked, cells := RowsFromJson(reply.value, heap);
  }

  class ScanHandle {
    const remote: Remote
    const heap: Heap
    const query: Query
    var nextPageToken: string
    var nextSyncToken: string
    var syncCheckDone: bool
    var finished: bool
    // What the service is going to answer, and the requests that will be sent for it: until the
    // end of the scan when `whole`, and otherwise for as long as the scan is used.
    ghost const whole: bool
    ghost var pending: seq<Reply>
    ghost var toCome: seq<Request>

    ghost function State(): Cursor
      reads this
    {
      Cursor(nextPageToken, nextSyncToken, syncCheckDone, finished)
    }

    // The guard keeps the run folded up until a proof looks into it.
    ghost predicate Valid()
      reads this, remote
    {
      forall look {:trigger LookInside(look)} :: LookInside(look) ==>
        && IsStretch(remote.service, query, State(), remote.log, pending)
        && (whole ==> IsRun(remote.service, query, State(), remote.log, pending))
        && toCome == RequestsOf(query, State(), pending)
    }

    // The requests already sent and those still to come.
    ghost function WholeLog(): seq<Request>
      reads this, remote
    {
      remote.log + toCome
    }

    constructor (remote: Remote, heap: Heap, tableId: string, filter: string, order: string, limit: nat,
                 ghost whole: bool, ghost replies: seq<Reply>)
      requires IsStretch(remote.service, Query(tableId, filter, order, PageSize(limit)), START, remote.log, replies)
      requires whole ==> IsRun(remote.service, Query(tableId, filter, order, PageSize(limit)), START, remote.log, replies)
      ensures this.remote == remote && this.heap == heap && this.whole == whole
      ensures query == Query(tableId, filter, order, PageSize(limit))
      ensures Valid() && State() == START && pending == replies && toCome == RequestsOf(query, START, replies)
    {
      this.remote, this.heap, this.whole := remote, heap, whole;
      query := Query(tableId, filter, order, PageSize(limit));
      nextPageToken, nextSyncToken, syncCheckDone, finished := "", "", false, false;
      pending := replies;
      toCome := RequestsOf(Query(tableId, filter, order, PageSize(limit)), START, replies);
    }

    // There are no replies to come when the scan has finished, and some until then.
    lemma PendingUntilFinished()
      requires Valid()
      ensures finished ==> pending == []
      ensures whole && pending == [] ==> finished
    {
      assert LookInside(0);
    }

    method NextRequest() returns (request: Request)
      modifies this
      ensures request == RequestFor(query, old(State()))
      ensures State() == AfterRequest(old(State())) && pending == old(pending) && toCome == old(toCome)
    {
      var syncToken := "";
      if nextPageToken == "" && nextSyncToken != "" && !syncCheckDone {
        syncCheckDone := true;
        syncToken := nextSyncToken;
      }
      request := ListRows(query.tableId, query.text, query.sortBy, query.limit, nextPageToken, syncToken);
    }

    // Takes over the tokens of a response and decides whether the scan is over.
    method TakeTokens(response: RowsResponse)
      requires heap.Valid()
      requires StrOwns(heap.watched, response.nextPageToken) + StrOwns(heap.watched, response.nextSyncToken) <= heap.live
      modifies this, heap
      ensures heap.Valid() && pending == old(pending) && toCome == old(toCome)
      ensures heap.live == old(heap.live) - StrOwns(heap.watched, response.nextPageToken)
                           - StrOwns(heap.watched, response.nextSyncToken)
      ensures nextPageToken == response.nextPageToken.text && nextSyncToken == response.nextSyncToken.text
      ensures syncCheckDone == old(syncCheckDone)
      ensures finished == (old(finished) || (nextPageToken == "" && (nextSyncToken == "" || syncCheckDone)))
    {
      nextPageToken := heap.Read(response.nextPageToken);
      nextSyncToken := heap.Read(response.nextSyncToken);
      heap.FreeString(response.nextPageToken);
      heap.FreeString(response.nextSyncToken);
      if nextPageToken == "" && (nextSyncToken == "" || syncCheckDone) {
        finished := true;
      }
    }

    // A response in full: its tokens, and its rows but for the deleted ones.
    method TakePage(response: RowsResponse, ghost before: Cursor) returns (visible: Raw<Row>)
      requires heap.Valid() && ResponseOwns(heap.watched, response) <= heap.live
      requires State() == AfterRequest(before) && !before.finished
      modifies this, heap
      ensures heap.Valid() && State() == AfterPage(before, ResponseText(response))
      ensures pending == old(pending) && toCome == old(toCome)
      ensures Map(RowText, visible.items) == Filter(Shown, ResponseText(response).rows)
      ensures heap.live == old(heap.live) - ResponseOwns(heap.watched, response) + RowsOwn(heap.watched, visible)
    {
      TakeTokens(response);
      visible := DropDeleted(response.rows, heap);
    }

    // One turn of the loop: the next page without its deleted rows.
    method FetchPage() returns (r: Result<Raw<Row>, Error>)
      requires Valid() && heap.Valid() && pending != []
      modifies this, remote, heap
      ensures heap.Valid() && WholeLog() == old(WholeLog())
      ensures pending == old(pending)[1..]
      ensures r.Failure? ==>
                && old(pending)[0] == Failure(r.error) && |old(pending)| == 1
                && State() == AfterRequest(old(State())) && toCome == []
                && old(heap.live) <= heap.live && (r.error != MissingRowId ==> heap.live == old(heap.live))
      ensures r.Success? ==>
                && Valid() && old(pending)[0].Success?
                && Map(RowText, r.value.items) == ShownRows(old(pending)[0])
                && heap.live == old(heap.live) + RowsOwn(heap.watched, r.value)
    {
      assert LookInside(0);
      ghost var before := State();
      ScanStep(remote.service, query, before, remote.log, pending, toCome);
      var request := NextRequest();
      var parsed := ListRowsPage(remote, heap, request);
      pending, toCome := pending[1..], toCome[1..];
      if parsed.Failure? {
        return Failure(parsed.error);
      }
      var visible := TakePage(parsed.value, before);
      r := Success(visible);
    }

    // The next batch: the first page that has a visible row, or the last page of all.
    method NextBatch() returns (r: Result<ScanBatch, Error>)
      requires Valid() && heap.Valid() && (finished || whole || VisibleRows(pending) != [])
      modifies this, remote, heap
      ensures heap.Valid() && WholeLog() == old(WholeLog())
      ensures r.Failure? ==>
                && !old(finished) && pending == [] && toCome == []
                && FailureOf(old(pending)) == Some(r.error) && VisibleRows(old(pending)) == []
                && old(heap.live) <= heap.live && (r.error != MissingRowId ==> heap.live == old(heap.live))
      ensures r.Success? ==>
                && Valid() && r.value.finished == finished && (finished ==> pending == [])
                && (r.value.rows.items == [] ==> finished)
                && heap.live == old(heap.live) + BatchOwns(heap.watched, r.value)
                && (old(finished) ==> pending == old(pending) && r.value == ScanBatch(Raw(0, []), true))
                && (!old(finished) ==> Next(old(pending), pending, Map(RowText, r.value.rows.items)))
    {
      PendingUntilFinished();
      while !finished
        invariant heap.Valid() && Valid() && WholeLog() == old(WholeLog())
        invariant heap.live == old(heap.live)
        invariant Skipped(old(pending), pending)
        invariant finished ==> old(finished) && pending == old(pending)
        invariant old(finished) ==> finished
        invariant finished || whole || VisibleRows(pending) != []
        decreases |pending|
      {
        PendingUntilFinished();
        ghost var before := pending;
        var page := FetchPage();
        if page.Failure? {
          LastReplyFails(old(pending), before);
          return Failure(page.error);
        }
        NextReply(old(pending), before);
        PendingUntilFinished();
        if page.value.items != [] || finished {
          return Success(ScanBatch(page.value, finished));
        }
        SkippedKeeps(old(pending), pending);
      }
      r := Success(ScanBatch(Raw(0, []), true));
    }
  }
}
