// A scan from the bodies that the service sends to the values that come out.
module ScanBodies {
  import opened AsciiText
  import opened BridgeScan
  import opened CodaJson
  import opened CodaService
  import opened DuckValues
  import opened Ffi
  import opened RowCap
  import opened ScanClient
  import opened ScanProtocol
  import opened ScanValues
  import opened Sequences
  import opened Wrappers

  // ------------------------------------------------------- requests and bodies

  predicate HasToken(token: Option<string>) {
    token.Some? && token.value != ""
  }

  function Ask(q: Query, pageToken: string, syncToken: string): Request {
    ListRows(q.tableId, q.text, q.sortBy, q.limit, pageToken, syncToken)
  }

  predicate AsksSync(request: Request) {
    request.ListRows? && request.syncToken != ""
  }

  // Every request is answered with a body. It is followed by a request for the next page, if the
  // body has a token for that; if not, by the check for changes, if the body has a token for that
  // and no such check was made; and otherwise by none.
  ghost predicate Transcript(s: Service, q: Query, log: seq<Request>, requests: seq<Request>, bodies: seq<RowsBody>,
                             checked: bool)
    decreases |requests|
  {
    && |requests| == |bodies| > 0
    && s.rows(log + [requests[0]]) == Success(bodies[0])
    && var body, checks := bodies[0], checked || AsksSync(requests[0]);
       if HasToken(body.nextPageToken) then
         && |requests| > 1 && requests[1] == Ask(q, body.nextPageToken.value, "")
         && Transcript(s, q, log + [requests[0]], requests[1..], bodies[1..], checks)
       else if HasToken(body.nextSyncToken) && !checks then
         && |requests| > 1 && requests[1] == Ask(q, "", body.nextSyncToken.value)
         && Transcript(s, q, log + [requests[0]], requests[1..], bodies[1..], checks)
       else |requests| == 1
  }

  ghost predicate WithIds(items: seq<RowItem>) {
    forall i :: 0 <= i < |items| ==> items[i].id.Some?
  }

  ghost predicate Readable(body: RowsBody) {
    body.items.Some? && WithIds(body.items.value)
  }

  ghost predicate AllReadable(bodies: seq<RowsBody>) {
    forall j :: 0 <= j < |bodies| ==> Readable(bodies[j])
  }

  function ReplyOf(body: RowsBody): Reply {
    ParseRows(Success(body))
  }

  // ------------------------------------------------------- rows and items

  // A row says what its item says.
  ghost predicate RowOf(item: RowItem, row: RowInfo) {
    && item.id == Some(row.id)
    && (row.deleted <==> item.deleted == Some(true) || item.isDeleted == Some(true))
    && ParseRow(item) == Success(row)
  }

  predicate Kept(item: RowItem) {
    item.deleted != Some(true) && item.isDeleted != Some(true)
  }

  ghost predicate RowsOf(items: seq<RowItem>, rows: seq<RowInfo>) {
    |rows| == |items| && forall i :: 0 <= i < |items| ==> RowOf(items[i], rows[i])
  }

  lemma {:induction false} ItemsParse(items: seq<RowItem>)
    ensures ParseAll(ParseRow, items).Success? <==> WithIds(items)
    ensures WithIds(items) ==> RowsOf(items, ParseAll(ParseRow, items).value)
  {
    if items != [] {
      var n := |items| - 1;
      ItemsParse(items[..n]);
      assert items == items[..n] + [items[n]];
      assert WithIds(items) <==> WithIds(items[..n]) && items[n].id.Some?;
    }
  }

  // A body is read if and only if all of its items have ids; then the page has its tokens, the
  // absent ones empty, and a row for every item.
  lemma BodyParses(body: RowsBody)
    ensures ReplyOf(body).Success? <==> Readable(body)
    ensures Readable(body) ==>
              var page := ReplyOf(body).value;
              && RowsOf(body.items.value, page.rows)
              && (HasToken(body.nextPageToken) <==> page.nextPageToken != "")
              && (HasToken(body.nextPageToken) ==> page.nextPageToken == body.nextPageToken.value)
              && (HasToken(body.nextSyncToken) <==> page.nextSyncToken != "")
              && (HasToken(body.nextSyncToken) ==> page.nextSyncToken == body.nextSyncToken.value)
  {
    if body.items.Some? {
      ItemsParse(body.items.value);
    }
  }

  // ------------------------------------------------------- runs are transcripts

  lemma {:induction false} RunHasTranscript(s: Service, q: Query, c: Cursor, log: seq<Request>, replies: seq<Reply>)
      returns (bodies: seq<RowsBody>)
    requires IsRun(s, q, c, log, replies) && !c.finished && !Fails(replies)
    ensures Transcript(s, q, log, RequestsOf(q, c, replies), bodies, c.syncDone)
    ensures AllReadable(bodies) && replies == Map(ReplyOf, bodies)
    decreases |replies|
  {
    var request := RequestFor(q, c);
    var log' := log + [request];
    assert replies[0].Success?;
    var body := s.rows(log').value;
    BodyParses(body);
    var next := AfterPage(c, replies[0].value);
    var later: seq<RowsBody> := [];
    if !next.finished {
      assert Fails(replies) <==> Fails(replies[1..]);
      later := RunHasTranscript(s, q, next, log', replies[1..]);
    }
    bodies := [body] + later;
    TranscriptStep(s, q, c, log, replies, body, later);
  }

  // One request more in front.
  lemma {:induction false} TranscriptMore(s: Service, q: Query, c: Cursor, log: seq<Request>, body: RowsBody,
                                          rest: seq<Request>, later: seq<RowsBody>)
    requires !c.finished && s.rows(log + [RequestFor(q, c)]) == Success(body) && Readable(body)
    requires ReplyOf(body).Success?
    requires var next := AfterPage(c, ReplyOf(body).value);
             if next.finished then rest == [] && later == []
             else
               && rest != [] && rest[0] == RequestFor(q, next)
               && Transcript(s, q, log + [RequestFor(q, c)], rest, later, next.syncDone)
    ensures Transcript(s, q, log, [RequestFor(q, c)] + rest, [body] + later, c.syncDone)
  {
    BodyParses(body);
    assert ([RequestFor(q, c)] + rest)[1..] == rest && ([body] + later)[1..] == later;
  }

  lemma {:induction false} TranscriptStep(s: Service, q: Query, c: Cursor, log: seq<Request>, replies: seq<Reply>,
                                          body: RowsBody, later: seq<RowsBody>)
    requires !c.finished && replies != [] && s.rows(log + [RequestFor(q, c)]) == Success(body)
    requires Readable(body) && replies[0] == ReplyOf(body) && replies[0].Success?
    requires AllReadable(later) && replies[1..] == Map(ReplyOf, later)
    requires var next := AfterPage(c, replies[0].value);
             if next.finished then later == []
             else Transcript(s, q, log + [RequestFor(q, c)], RequestsOf(q, next, replies[1..]), later, next.syncDone)
    ensures Transcript(s, q, log, RequestsOf(q, c, replies), [body] + later, c.syncDone)
    ensures AllReadable([body] + later) && replies == Map(ReplyOf, [body] + later)
  {
    var rest := RequestsOf(q, AfterPage(c, replies[0].value), replies[1..]);
    TranscriptMore(s, q, c, log, body, rest, later);
    assert ([body] + later)[1..] == later;
    MapHead(ReplyOf, [body] + later);
    assert replies == [replies[0]] + replies[1..];
  }

  // Conversely, when all bodies can be read, the transcript is a run.
  lemma {:induction false} TranscriptLess(s: Service, q: Query, c: Cursor, log: seq<Request>, requests: seq<Request>,
                                          bodies: seq<RowsBody>)
    requires Transcript(s, q, log, requests, bodies, c.syncDone) && Readable(bodies[0])
    requires !c.finished && requests[0] == RequestFor(q, c)
    ensures s.rows(log + [RequestFor(q, c)]) == Success(bodies[0]) && ReplyOf(bodies[0]).Success?
    ensures var next := AfterPage(c, ReplyOf(bodies[0]).value);
            if next.finished then requests[1..] == [] && bodies[1..] == []
            else
              && |requests| > 1 && requests[1] == RequestFor(q, next)
              && Transcript(s, q, log + [RequestFor(q, c)], requests[1..], bodies[1..], next.syncDone)
  {
    BodyParses(bodies[0]);
  }

  lemma MapHead<A, B>(f: A -> B, s: seq<A>)
    requires s != []
    ensures Map(f, s)[0] == f(s[0]) && Map(f, s)[1..] == Map(f, s[1..])
  {
    MapAt(f, s, 0);
    MapSplit(f, s, 1);
  }

  lemma {:induction false} RunMore(s: Service, q: Query, c: Cursor, log: seq<Request>, requests: seq<Request>,
                                   replies: seq<Reply>, page: RowsPage)
    requires replies != [] && requests != [] && replies[0] == Success(page)
    requires !c.finished && requests[0] == RequestFor(q, c) && Success(page) == ParseRows(s.rows(log + [requests[0]]))
    requires var next := AfterPage(c, page);
             && IsRun(s, q, next, log + [requests[0]], replies[1..]) && !Fails(replies[1..])
             && requests[1..] == RequestsOf(q, next, replies[1..])
    ensures IsRun(s, q, c, log, replies) && !Fails(replies) && requests == RequestsOf(q, c, replies)
  {
    assert requests == [requests[0]] + requests[1..];
  }

  lemma {:induction false} TranscriptIsRun(s: Service, q: Query, c: Cursor, log: seq<Request>, requests: seq<Request>,
                                           bodies: seq<RowsBody>)
    requires Transcript(s, q, log, requests, bodies, c.syncDone) && AllReadable(bodies)
    requires !c.finished && requests[0] == RequestFor(q, c)
    ensures var replies := Map(ReplyOf, bodies);
            IsRun(s, q, c, log, replies) && !Fails(replies) && requests == RequestsOf(q, c, replies)
    decreases |bodies|
  {
    TranscriptLess(s, q, c, log, requests, bodies);
    MapHead(ReplyOf, bodies);
    var page := ReplyOf(bodies[0]).value;
    var next, log' := AfterPage(c, page), log + [requests[0]];
    if !next.finished {
      TranscriptIsRun(s, q, next, log', requests[1..], bodies[1..]);
    } else {
      assert IsRun(s, q, next, log', []) && Map(ReplyOf, bodies[1..]) == [];
    }
    RunMore(s, q, c, log, requests, Map(ReplyOf, bodies), page);
  }

  // The runs of a scan that do not fail are exactly the transcripts with bodies that can be read.
  lemma {:induction false} RunIsTranscript(s: Service, q: Query, log: seq<Request>, replies: seq<Reply>)
    ensures IsRun(s, q, START, log, replies) && !Fails(replies)
            <==> exists bodies ::
                   && Transcript(s, q, log, RequestsOf(q, START, replies), bodies, false) && AllReadable(bodies)
                   && replies == Map(ReplyOf, bodies) && RequestsOf(q, START, replies)[0] == Ask(q, "", "")
  {
    if IsRun(s, q, START, log, replies) && !Fails(replies) {
      var bodies := RunHasTranscript(s, q, START, log, replies);
    }
    if bodies :| Transcript(s, q, log, RequestsOf(q, START, replies), bodies, false) && AllReadable(bodies)
                 && replies == Map(ReplyOf, bodies) && RequestsOf(q, START, replies)[0] == Ask(q, "", "") {
      TranscriptIsRun(s, q, START, log, RequestsOf(q, START, replies), bodies);
    }
  }
  // ------------------------------------------------------- items are shown

  // The items that are not deleted, body by body.
  function VisibleItems(bodies: seq<RowsBody>): seq<RowItem> {
    if bodies == [] then [] else Filter(Kept, bodies[0].items.GetOr([])) + VisibleItems(bodies[1..])
  }

  lemma {:induction false} RowsPush(items: seq<RowItem>, rows: seq<RowInfo>, item: RowItem, row: RowInfo)
    requires RowsOf(items, rows) && RowOf(item, row)
    ensures RowsOf(items + [item], rows + [row])
  {
  }

  lemma {:induction false} KeptAreShown(items: seq<RowItem>, rows: seq<RowInfo>)
    requires RowsOf(items, rows)
    ensures RowsOf(Filter(Kept, items), Filter(Shown, rows))
  {
    if items != [] {
      var n := |items| - 1;
      KeptAreShown(items[..n], rows[..n]);
      assert RowOf(items[n], rows[n]);
      RowsPush(Filter(Kept, items[..n]), Filter(Shown, rows[..n]), items[n], rows[n]);
      assert Kept(items[n]) <==> Shown(rows[n]);
    }
  }

  lemma {:induction false} VisibleRowsOf(bodies: seq<RowsBody>)
    requires AllReadable(bodies)
    ensures RowsOf(VisibleItems(bodies), VisibleRows(Map(ReplyOf, bodies)))
  {
    if bodies != [] {
      var replies := Map(ReplyOf, bodies);
      MapHead(ReplyOf, bodies);
      MapHead(ShownRows, replies);
      BodyParses(bodies[0]);
      KeptAreShown(bodies[0].items.value, replies[0].value.rows);
      VisibleRowsOf(bodies[1..]);
    }
  }

  // A text as a value of a column's type.
  ghost predicate TextShows(casts: Casts, text: string, target: LogicalType, v: Value) {
    match target
    case VARCHAR => v == VarcharValue(text)
    case DOUBLE =>
      if casts.parseDouble(text).Some? then v == DoubleValue(casts.parseDouble(text).value)
      else v == casts.cast(text, target).GetOr(Null)
    case _ => v == casts.cast(text, target).GetOr(Null)
  }

  ghost predicate JsonShows(casts: Casts, json: CellJson, target: LogicalType, v: Value) {
    match json
    case CellNull => v == Null
    case CellBool(b) => if target == BOOLEAN then v == BooleanValue(b) else TextShows(casts, if b then "true" else "false", target, v)
    case CellString(s) => TextShows(casts, s, target, v)
    case CellOther(text) => TextShows(casts, text, target, v)
  }

  // A timestamp of the row, cast to the column's type.
  ghost predicate StampShows(casts: Casts, stamp: Option<string>, target: LogicalType, v: Value) {
    if HasToken(stamp) then v == TextAs(casts, stamp.value, target) else v == Null
  }

  // What an output column shows of an item of the service.
  ghost predicate ShowsItem(index: ColumnIndex, columns: seq<ColumnInfo>, casts: Casts, item: RowItem, v: Value) {
    match index
    case RowId => Some(v) == if item.id.Some? then Some(VarcharValue(item.id.value)) else None
    case OtherVirtual => v == Null
    case Physical(c) => c < |columns| ==> ColumnShowsItem(columns[c], casts, item, v)
  }

  ghost predicate ColumnShowsItem(column: ColumnInfo, casts: Casts, item: RowItem, v: Value) {
    var target, values := DuckType(column.logicalType), item.values.GetOr([]);
    if Has(column.capabilities, COLUMN_SYSTEM) then
      && (column.id == "createdAt" ==> StampShows(casts, item.createdAt, target, v))
      && (column.id == "updatedAt" ==> StampShows(casts, item.updatedAt, target, v))
    else
      && (forall k: nat :: IsMemberOf(item, column.id, k) ==> JsonShows(casts, values[k].1, target, v))
      && ((forall k :: 0 <= k < |values| ==> !EqIgnoreCase(values[k].0, column.id)) ==> v == Null)
  }

  lemma {:induction false} ItemShown(index: ColumnIndex, columns: seq<ColumnInfo>, casts: Casts, item: RowItem, row: RowInfo, v: Value)
    requires RowOf(item, row) && ShowsCell(index, columns, casts, row, v)
    ensures ShowsItem(index, columns, casts, item, v)
  {
    if index.Physical? && index.index < |columns| {
      var column := columns[index.index];
      if Has(column.capabilities, COLUMN_SYSTEM) {
        if column.id == "createdAt" || column.id == "updatedAt" {
          MetadataRoundTrip(casts, item, column);
        }
      } else {
        CellRoundTrip(casts, item, column, 0);
        forall k: nat | IsMemberOf(item, column.id, k)
          ensures JsonShows(casts, item.values.GetOr([])[k].1, DuckType(column.logicalType), v)
        {
          CellRoundTrip(casts, item, column, k);
        }
      }
    }
  }

  // Row r of the output shows item r.
  ghost predicate ShowsItems(columnIndexes: seq<ColumnIndex>, projectionIds: seq<nat>, columns: seq<ColumnInfo>,
                             casts: Casts, items: seq<RowItem>, rows: seq<seq<Value>>)
    requires forall i :: 0 <= i < |projectionIds| ==> projectionIds[i] < |columnIndexes|
  {
    |rows| <= |items| && forall r :: 0 <= r < |rows| ==>
      && |rows[r]| == (if projectionIds == [] then |columnIndexes| else |projectionIds|)
      && forall i :: 0 <= i < |rows[r]| ==> ShowsItem(AskedFor(columnIndexes, projectionIds, i), columns, casts, items[r], rows[r][i])
  }

  lemma {:induction false} ItemsShown(columnIndexes: seq<ColumnIndex>, projectionIds: seq<nat>, columns: seq<ColumnInfo>,
                                      casts: Casts, items: seq<RowItem>, shown: seq<RowInfo>, emitted: seq<RowInfo>,
                                      rows: seq<seq<Value>>)
    requires forall i :: 0 <= i < |projectionIds| ==> projectionIds[i] < |columnIndexes|
    requires RowsOf(items, shown) && emitted <= shown
    requires ShowsColumns(columnIndexes, projectionIds, columns, casts, emitted, rows)
    ensures ShowsItems(columnIndexes, projectionIds, columns, casts, items, rows)
  {
    forall r, i | 0 <= r < |rows| && 0 <= i < |rows[r]|
      ensures ShowsItem(AskedFor(columnIndexes, projectionIds, i), columns, casts, items[r], rows[r][i])
    {
      assert RowOf(items[r], shown[r]) && emitted[r] == shown[r];
      ItemShown(AskedFor(columnIndexes, projectionIds, i), columns, casts, items[r], shown[r], rows[r][i]);
    }
  }

  lemma EmittedIsPrefix<T>(batches: seq<seq<T>>, cap: nat)
    ensures Emitted(batches, cap) <= Flatten(batches)
  {
    assert batches[..|batches|] == batches;
    if cap == 0 {
      NoCap(batches);
    } else {
      CapCutsAtBatch(batches, cap);
      MoreBatchesMoreRows(batches, Fetched(batches, cap), |batches|);
    }
  }

  // The asked columns are in the table.
  predicate InTable(columnIndexes: seq<ColumnIndex>, projectionIds: seq<nat>, columns: seq<ColumnInfo>)
    requires forall i :: 0 <= i < |projectionIds| ==> projectionIds[i] < |columnIndexes|
  {
    forall i :: 0 <= i < (if projectionIds == [] then |columnIndexes| else |projectionIds|) ==>
      var index := AskedFor(columnIndexes, projectionIds, i);
      index.Physical? ==> index.index < |columns|
  }

  lemma InTableIsValid(columnIndexes: seq<ColumnIndex>, projectionIds: seq<nat>, columns: seq<ColumnInfo>, casts: Casts)
    requires forall i :: 0 <= i < |projectionIds| ==> projectionIds[i] < |columnIndexes|
    ensures Projection(Resolved(columnIndexes, projectionIds), columns, casts).Valid()
            <==> InTable(columnIndexes, projectionIds, columns)
  {
    assert LookInside(0);
    var projection := Projection(Resolved(columnIndexes, projectionIds), columns, casts);
    forall i | 0 <= i < |projection.indexes|
      ensures projection.InRange(i)
              <==> var index := AskedFor(columnIndexes, projectionIds, i); index.Physical? ==> index.index < |columns|
    {
    }
  }

  // The query of a scan: a limit up to 500 is asked for, and otherwise pages of 500.
  function ScanQuery(tableId: string, filter: string, order: string, pushedLimit: nat): Query {
    Query(tableId, filter, order, if 0 < pushedLimit < 500 then pushedLimit else 500)
  }

  lemma AtLeastCap<T>(batches: seq<seq<T>>, cap: nat)
    ensures cap > 0 ==> |Emitted(batches, cap)| >= if cap <= |Flatten(batches)| then cap else |Flatten(batches)|
    ensures Emitted(batches, cap) == [] <==> Flatten(batches) == []
    ensures cap == 0 ==> Emitted(batches, cap) == Flatten(batches) && Fetched(batches, cap) == |batches|
  {
    assert batches[..|batches|] == batches;
    if cap == 0 {
      NoCap(batches);
    } else {
      CapCutsAtBatch(batches, cap);
      MoreBatchesMoreRows(batches, Fetched(batches, cap), |batches|);
    }
  }

  lemma {:induction false} ScanIsRun(s: Service, tableId: string, filter: string, order: string, limit: nat, requests: seq<Request>,
                                     bodies: seq<RowsBody>) returns (replies: seq<Reply>)
    requires Transcript(s, ScanQuery(tableId, filter, order, limit), [], requests, bodies, false)
    requires requests[0] == Ask(ScanQuery(tableId, filter, order, limit), "", "") && AllReadable(bodies)
    ensures var query := Query(tableId, filter, order, PageSize(limit));
            IsRun(s, query, START, [], replies) && requests == RequestsOf(query, START, replies)
    ensures FailureOf(replies) == None && |replies| == |requests|
    ensures RowsOf(VisibleItems(bodies), VisibleRows(replies))
    ensures var emitted, items := Emitted(Batches(replies), limit), VisibleItems(bodies);
            && emitted <= VisibleRows(replies) && (emitted == [] <==> items == [])
            && (limit == 0 ==> emitted == VisibleRows(replies) && Fetched(Batches(replies), limit) == |requests|)
            && (limit > 0 ==> |emitted| >= if limit <= |items| then limit else |items|)
  {
    replies := Map(ReplyOf, bodies);
    var query := ScanQuery(tableId, filter, order, limit);
    assert query == Query(tableId, filter, order, PageSize(limit));
    TranscriptIsRun(s, query, START, [], requests, bodies);
    VisibleRowsOf(bodies);
    EmittedIsPrefix(Batches(replies), limit);
    AtLeastCap(Batches(replies), limit);
  }

  // From the bodies that the service sends to the output: the rows are the items that are not
  // deleted, in the order of the bodies, each output column showing what it is asked for.
  method ScanTable(service: Service, watched: Ptr, tableId: string, filter: string, order: string, pushedLimit: nat,
                   columnIndexes: seq<ColumnIndex>, projectionIds: seq<nat>, columns: seq<ColumnInfo>, casts: Casts,
                   ghost requests: seq<Request>, ghost bodies: seq<RowsBody>)
      returns (rows: seq<seq<Value>>, error: Option<Error>, sent: seq<Request>, live: nat)
    requires forall i :: 0 <= i < |projectionIds| ==> projectionIds[i] < |columnIndexes|
    requires Transcript(service, ScanQuery(tableId, filter, order, pushedLimit), [], requests, bodies, false)
    requires requests[0] == Ask(ScanQuery(tableId, filter, order, pushedLimit), "", "") && AllReadable(bodies)
    ensures error == if InTable(columnIndexes, projectionIds, columns) || VisibleItems(bodies) == [] then None
                     else Some(ColumnOutOfRange)
    ensures ShowsItems(columnIndexes, projectionIds, columns, casts, VisibleItems(bodies), rows)
    ensures error.None? && pushedLimit == 0 ==> |rows| == |VisibleItems(bodies)| && sent == requests
    ensures error.None? && pushedLimit > 0 ==>
              |rows| >= if pushedLimit <= |VisibleItems(bodies)| then pushedLimit else |VisibleItems(bodies)|
    ensures sent <= requests && live == 0
  {
    ghost var replies := ScanIsRun(service, tableId, filter, order, pushedLimit, requests, bodies);
    rows, error, sent, live := RunScan(service, watched, tableId, filter, order, pushedLimit, columnIndexes,
                                       projectionIds, columns, casts, replies);
    InTableIsValid(columnIndexes, projectionIds, columns, casts);
    ItemsShown(columnIndexes, projectionIds, columns, casts, VisibleItems(bodies), VisibleRows(replies),
               Emitted(Batches(replies), pushedLimit), rows);
  }
}
