// The paging protocol of a row scan: which request follows which answer, and
// which rows come out of a run.
module ScanProtocol {
  import opened CodaJson
  import opened CodaService
  import opened Sequences
  import opened Wrappers

  // A reply as it is read: a page, or why there is none.
  type Reply = Result<RowsPage, Error>

  datatype Query = Query(tableId: string, text: string, sortBy: string, limit: nat)

  // The fields of a scan handle that change.
  datatype Cursor = Cursor(pageToken: string, syncToken: string, syncDone: bool, finished: bool)

  const START: Cursor := Cursor("", "", false, false)

  predicate AsksForSync(c: Cursor) {
    c.pageToken == "" && c.syncToken != "" && !c.syncDone
  }

  function RequestFor(q: Query, c: Cursor): Request {
    ListRows(q.tableId, q.text, q.sortBy, q.limit, c.pageToken, if AsksForSync(c) then c.syncToken else "")
  }

  function AfterRequest(c: Cursor): Cursor {
    c.(syncDone := c.syncDone || AsksForSync(c))
  }

  function AfterPage(c: Cursor, page: RowsPage): Cursor {
    var done := AfterRequest(c).syncDone;
    Cursor(page.nextPageToken, page.nextSyncToken, done,
           page.nextPageToken == "" && (page.nextSyncToken == "" || done))
  }

  // `replies` is all that the service answers, from this point of the log on, to a
  // scan that goes on until it has finished or a request has failed.
  ghost predicate IsRun(s: Service, q: Query, c: Cursor, log: seq<Request>, replies: seq<Reply>)
    decreases |replies|
  {
    if c.finished then replies == []
    else
      var log' := log + [RequestFor(q, c)];
      && replies != []
      && replies[0] == ParseRows(s.rows(log'))
      && match replies[0]
         case Failure(_) => |replies| == 1
         case Success(page) => IsRun(s, q, AfterPage(c, page), log', replies[1..])
  }

  // The same for a scan that may stop before: the answers to its first |replies| requests.
  ghost predicate IsStretch(s: Service, q: Query, c: Cursor, log: seq<Request>, replies: seq<Reply>)
    decreases |replies|
  {
    replies != [] ==>
      && !c.finished
      && replies[0] == ParseRows(s.rows(log + [RequestFor(q, c)]))
      && match replies[0]
         case Failure(_) => |replies| == 1
         case Success(page) => IsStretch(s, q, AfterPage(c, page), log + [RequestFor(q, c)], replies[1..])
  }

  lemma {:induction false} RunIsStretch(s: Service, q: Query, c: Cursor, log: seq<Request>, replies: seq<Reply>)
    requires IsRun(s, q, c, log, replies)
    ensures IsStretch(s, q, c, log, replies)
    decreases |replies|
  {
    if !c.finished && replies[0].Success? {
      RunIsStretch(s, q, AfterPage(c, replies[0].value), log + [RequestFor(q, c)], replies[1..]);
    }
  }

  // ------------------------------------------------------- when there is a run

  // The answers to the first n requests, or to fewer if the scan ends before.
  function FirstReplies(s: Service, q: Query, c: Cursor, log: seq<Request>, n: nat): seq<Reply>
    decreases n
  {
    if n == 0 || c.finished then []
    else
      var log' := log + [RequestFor(q, c)];
      var reply := ParseRows(s.rows(log'));
      [reply] +
      match reply
      case Failure(_) => []
      case Success(page) => FirstReplies(s, q, AfterPage(c, page), log', n - 1)
  }

  // After n requests at most the chain of tokens ends, or a request fails.
  predicate EndsWithin(s: Service, q: Query, c: Cursor, log: seq<Request>, n: nat)
    decreases n
  {
    c.finished || (n > 0 &&
      var log' := log + [RequestFor(q, c)];
      match ParseRows(s.rows(log'))
      case Failure(_) => true
      case Success(page) => EndsWithin(s, q, AfterPage(c, page), log', n - 1))
  }

  lemma {:induction false} ChainIsRun(s: Service, q: Query, c: Cursor, log: seq<Request>, n: nat)
    ensures IsStretch(s, q, c, log, FirstReplies(s, q, c, log, n))
    ensures EndsWithin(s, q, c, log, n) ==> IsRun(s, q, c, log, FirstReplies(s, q, c, log, n))
    decreases n
  {
    if n > 0 && !c.finished {
      var log' := log + [RequestFor(q, c)];
      var reply := ParseRows(s.rows(log'));
      if reply.Success? {
        var later := FirstReplies(s, q, AfterPage(c, reply.value), log', n - 1);
        ChainIsRun(s, q, AfterPage(c, reply.value), log', n - 1);
        assert ([reply] + later)[1..] == later;
      } else {
        assert [reply] + [] == [reply];
      }
    }
  }

  lemma {:induction false} RunIsChain(s: Service, q: Query, c: Cursor, log: seq<Request>, replies: seq<Reply>)
    requires IsRun(s, q, c, log, replies)
    ensures EndsWithin(s, q, c, log, |replies|) && replies == FirstReplies(s, q, c, log, |replies|)
    decreases |replies|
  {
    if !c.finished {
      if replies[0].Success? {
        RunIsChain(s, q, AfterPage(c, replies[0].value), log + [RequestFor(q, c)], replies[1..]);
        assert replies == [replies[0]] + replies[1..];
      } else {
        assert replies == [replies[0]] + [];
      }
    }
  }

  ghost predicate ChainEnds(s: Service, q: Query, c: Cursor, log: seq<Request>) {
    exists n: nat :: EndsWithin(s, q, c, log, n)
  }

  lemma RunEnds(s: Service, q: Query, c: Cursor, log: seq<Request>, replies: seq<Reply>)
    requires IsRun(s, q, c, log, replies)
    ensures ChainEnds(s, q, c, log)
  {
    RunIsChain(s, q, c, log, replies);
  }

  ghost predicate HasRun(s: Service, q: Query, c: Cursor, log: seq<Request>) {
    exists replies :: IsRun(s, q, c, log, replies)
  }

  lemma ChainHasRun(s: Service, q: Query, c: Cursor, log: seq<Request>, n: nat)
    requires EndsWithin(s, q, c, log, n)
    ensures HasRun(s, q, c, log)
  {
    ChainIsRun(s, q, c, log, n);
  }

  // A scan has a run if and only if its chain of tokens ends ...
  lemma RunExistsIff(s: Service, q: Query, c: Cursor, log: seq<Request>)
    ensures HasRun(s, q, c, log) <==> ChainEnds(s, q, c, log)
  {
    forall n: nat | EndsWithin(s, q, c, log, n) ensures HasRun(s, q, c, log) {
      ChainHasRun(s, q, c, log, n);
    }
    forall replies | IsRun(s, q, c, log, replies) ensures ChainEnds(s, q, c, log) {
      RunEnds(s, q, c, log, replies);
    }
  }

  // ... and no more than one.
  lemma {:induction false} RunIsUnique(s: Service, q: Query, c: Cursor, log: seq<Request>, a: seq<Reply>, b: seq<Reply>)
    requires IsRun(s, q, c, log, a) && IsRun(s, q, c, log, b)
    ensures a == b
    decreases |a|
  {
    if !c.finished {
      assert a[0] == b[0] && a == [a[0]] + a[1..] && b == [b[0]] + b[1..];
      if a[0].Success? {
        RunIsUnique(s, q, AfterPage(c, a[0].value), log + [RequestFor(q, c)], a[1..], b[1..]);
      } else {
        assert a[1..] == b[1..];
      }
    }
  }

  // ------------------------------------------------------- requests

  // The requests of a run, one per reply.
  function RequestsOf(q: Query, c: Cursor, replies: seq<Reply>): (requests: seq<Request>)
    ensures |requests| <= |replies|
    decreases |replies|
  {
    if replies == [] then []
    else
      [RequestFor(q, c)] +
      match replies[0]
      case Failure(_) => []
      case Success(page) => RequestsOf(q, AfterPage(c, page), replies[1..])
  }

  // One step of a scan: its request, and what is left of the replies and requests to come.
  lemma ScanStep(s: Service, q: Query, c: Cursor, log: seq<Request>, replies: seq<Reply>, toCome: seq<Request>)
    requires IsStretch(s, q, c, log, replies) && replies != [] && toCome == RequestsOf(q, c, replies)
    ensures !c.finished && replies[0] == ParseRows(s.rows(log + [RequestFor(q, c)]))
    ensures toCome != [] && log + toCome == log + [RequestFor(q, c)] + toCome[1..]
    ensures replies[0].Failure? ==> |replies| == 1 && toCome[1..] == []
    ensures replies[0].Success? ==>
              var next, log' := AfterPage(c, replies[0].value), log + [RequestFor(q, c)];
              && IsStretch(s, q, next, log', replies[1..]) && toCome[1..] == RequestsOf(q, next, replies[1..])
              && (IsRun(s, q, c, log, replies) ==> IsRun(s, q, next, log', replies[1..]))
  {
    var request := RequestFor(q, c);
    assert toCome[0] == request && toCome == [request] + toCome[1..];
    Assoc(log, [request], toCome[1..]);
  }

  predicate Shown(r: RowInfo) {
    !r.deleted
  }

  function ShownRows(reply: Reply): seq<RowInfo> {
    match reply
    case Failure(_) => []
    case Success(page) => Filter(Shown, page.rows)
  }

  // The rows that are not deleted, page by page, and over all pages in order.
  function Batches(replies: seq<Reply>): seq<seq<RowInfo>> {
    Map(ShownRows, replies)
  }

  function VisibleRows(replies: seq<Reply>): seq<RowInfo> {
    Flatten(Batches(replies))
  }

  lemma VisibleRowsPush(replies: seq<Reply>, k: nat)
    requires k < |replies|
    ensures VisibleRows(replies[..k + 1]) == VisibleRows(replies[..k]) + ShownRows(replies[k])
  {
    assert replies[..k + 1] == replies[..k] + [replies[k]];
    MapPush(ShownRows, replies[..k], replies[k]);
    FlattenPush(Batches(replies[..k]), ShownRows(replies[k]));
  }

  lemma BatchesSplit(replies: seq<Reply>, k: nat)
    requires k <= |replies|
    ensures Batches(replies)[..k] == Batches(replies[..k])
    ensures Batches(replies)[k..] == Batches(replies[k..])
  {
    MapSplit(ShownRows, replies, k);
  }

  // `rest` is what is left of `all` after replies without visible rows ...
  ghost predicate Skipped(all: seq<Reply>, rest: seq<Reply>) {
    && |rest| <= |all| && rest == all[|all| - |rest|..]
    && VisibleRows(all[..|all| - |rest|]) == []
  }

  // ... and then one page with these visible rows.
  ghost predicate Next(all: seq<Reply>, rest: seq<Reply>, rows: seq<RowInfo>) {
    && |rest| < |all| && rest == all[|all| - |rest|..]
    && VisibleRows(all[..|all| - |rest| - 1]) == []
    && all[|all| - |rest| - 1].Success? && ShownRows(all[|all| - |rest| - 1]) == rows
  }

  lemma NextReply(all: seq<Reply>, rest: seq<Reply>)
    requires Skipped(all, rest) && rest != [] && rest[0].Success?
    ensures Next(all, rest[1..], ShownRows(rest[0]))
    ensures ShownRows(rest[0]) == [] ==> Skipped(all, rest[1..])
  {
    VisibleRowsPush(all, |all| - |rest|);
  }

  lemma SkippedKeeps(all: seq<Reply>, rest: seq<Reply>)
    requires Skipped(all, rest)
    ensures VisibleRows(all) == VisibleRows(rest)
  {
    var k := |all| - |rest|;
    BatchesSplit(all, k);
    FlattenConcat(Batches(all[..k]), Batches(all[k..]));
    assert Batches(all) == Batches(all)[..k] + Batches(all)[k..];
  }

  // A run stops at its first failure, so only its last reply can be one.
  function FailureOf(replies: seq<Reply>): Option<Error> {
    if replies != [] && replies[|replies| - 1].Failure? then Some(replies[|replies| - 1].error) else None
  }

  predicate Fails(replies: seq<Reply>) {
    FailureOf(replies).Some?
  }

  lemma LastReplyFails(all: seq<Reply>, rest: seq<Reply>)
    requires Skipped(all, rest) && |rest| == 1 && rest[0].Failure?
    ensures VisibleRows(all) == [] && FailureOf(all) == Some(rest[0].error)
  {
    assert all[..|all|] == all;
    VisibleRowsPush(all, |all| - 1);
  }

  // ------------------------------------------------ main chain, then sync chain

  // The reference: a request and its follow-ups by page token alone.
  ghost predicate IsPageChain(s: Service, request: Request, log: seq<Request>, replies: seq<Reply>)
    requires request.ListRows?
    decreases |replies|
  {
    && replies != []
    && replies[0] == ParseRows(s.rows(log + [request]))
    && replies[0].Success?
    && var token := replies[0].value.nextPageToken;
       if token == "" then |replies| == 1
       else IsPageChain(s, NextPage(request, token), log + [request], replies[1..])
  }

  function NextPage(request: Request, token: string): Request
    requires request.ListRows?
  {
    request.(pageToken := token, syncToken := "")
  }

  function FirstRequest(q: Query): Request {
    ListRows(q.tableId, q.text, q.sortBy, q.limit, "", "")
  }

  function SyncRequest(q: Query, token: string): Request {
    ListRows(q.tableId, q.text, q.sortBy, q.limit, "", token)
  }

  // The log after a chain whose every reply is a page.
  function LogAfterChain(request: Request, log: seq<Request>, replies: seq<Reply>): seq<Request>
    requires request.ListRows?
    decreases |replies|
  {
    if replies == [] || replies[0].Failure? then log
    else LogAfterChain(NextPage(request, replies[0].value.nextPageToken), log + [request], replies[1..])
  }

  // The first k replies are the main chain; if its last page carries a sync token, the
  // others are the chain that starts from it.
  ghost predicate MainThenSync(s: Service, request: Request, q: Query, log: seq<Request>, replies: seq<Reply>, k: nat)
    requires request.ListRows?
  {
    && 1 <= k <= |replies|
    && IsPageChain(s, request, log, replies[..k])
    && replies[k - 1].Success?
    && var token := replies[k - 1].value.nextSyncToken;
       if token == "" then k == |replies|
       else IsPageChain(s, SyncRequest(q, token), LogAfterChain(request, log, replies[..k]), replies[k..])
  }

  // Once the sync request is sent, a run that does not fail is one page chain.
  lemma {:induction false} RunAfterSync(s: Service, q: Query, c: Cursor, log: seq<Request>, replies: seq<Reply>)
    requires !c.finished && AfterRequest(c).syncDone
    ensures IsRun(s, q, c, log, replies) && !Fails(replies) <==> IsPageChain(s, RequestFor(q, c), log, replies)
    decreases |replies|
  {
    if replies != [] && replies[0].Success? {
      var page := replies[0].value;
      var next := AfterPage(c, page);
      var request := RequestFor(q, c);
      assert Fails(replies) <==> Fails(replies[1..]);
      if page.nextPageToken != "" {
        assert RequestFor(q, next) == NextPage(request, page.nextPageToken);
        RunAfterSync(s, q, next, log + [request], replies[1..]);
      }
    }
  }

  // Before the sync request, a run that does not fail is a page chain and then, if its
  // last page asks for it, a second one.
  lemma {:induction false} RunBeforeSync(s: Service, q: Query, c: Cursor, log: seq<Request>, replies: seq<Reply>)
    requires !c.finished && !AfterRequest(c).syncDone
    ensures IsRun(s, q, c, log, replies) && !Fails(replies)
            <==> exists k: nat :: MainThenSync(s, RequestFor(q, c), q, log, replies, k)
    decreases |replies|
  {
    var request := RequestFor(q, c);
    if replies == [] || replies[0] != ParseRows(s.rows(log + [request])) || replies[0].Failure? {
      forall k: nat ensures !MainThenSync(s, request, q, log, replies, k) {
        if 1 <= k <= |replies| {
          assert replies[..k][0] == replies[0];
        }
      }
      return;
    }
    var page := replies[0].value;
    var next := AfterPage(c, page);
    var log', rest := log + [request], replies[1..];
    assert Fails(replies) <==> Fails(rest);
    if page.nextPageToken != "" {
      assert RequestFor(q, next) == NextPage(request, page.nextPageToken);
      RunBeforeSync(s, q, next, log', rest);
      forall k: nat ensures MainThenSync(s, request, q, log, replies, k + 1)
                            <==> MainThenSync(s, RequestFor(q, next), q, log', rest, k) {
        MainChainStep(s, request, q, log, replies, k);
      }
      if k: nat :| MainThenSync(s, request, q, log, replies, k) {
        assert MainThenSync(s, request, q, log, replies, (k - 1) + 1);
        assert MainThenSync(s, RequestFor(q, next), q, log', rest, k - 1);
      }
      if k: nat :| MainThenSync(s, RequestFor(q, next), q, log', rest, k) {
        assert MainThenSync(s, request, q, log, replies, k + 1);
      }
    } else {
      LastMainPage(s, q, c, log, replies);
    }
  }

  lemma MainChainStep(s: Service, request: Request, q: Query, log: seq<Request>, replies: seq<Reply>, k: nat)
    requires request.ListRows? && replies != [] && replies[0] == ParseRows(s.rows(log + [request]))
    requires replies[0].Success? && replies[0].value.nextPageToken != ""
    ensures MainThenSync(s, request, q, log, replies, k + 1)
            <==> MainThenSync(s, NextPage(request, replies[0].value.nextPageToken), q,
                              log + [request], replies[1..], k)
  {
    if k + 1 <= |replies| {
      var head := replies[..k + 1];
      assert head[0] == replies[0];
      assert head[1..] == replies[1..][..k];
      assert replies[k + 1..] == replies[1..][k..];
      if k == 0 {
        assert !IsPageChain(s, request, log, head);
      } else {
        assert replies[k] == replies[1..][k - 1];
      }
    }
  }

  // The step from the main chain to the sync chain.
  lemma LastMainPage(s: Service, q: Query, c: Cursor, log: seq<Request>, replies: seq<Reply>)
    requires !c.finished && !AfterRequest(c).syncDone && replies != []
    requires var request := RequestFor(q, c);
             replies[0] == ParseRows(s.rows(log + [request])) && replies[0].Success?
    requires replies[0].value.nextPageToken == ""
    ensures IsRun(s, q, c, log, replies) && !Fails(replies)
            <==> exists k: nat :: MainThenSync(s, RequestFor(q, c), q, log, replies, k)
  {
    var request, rest := RequestFor(q, c), replies[1..];
    var page := replies[0].value;
    var next := AfterPage(c, page);
    assert replies == [replies[0]] + rest;
    assert Fails(replies) <==> Fails(rest);
    assert replies[..1][0] == replies[0] && replies[..1][1..] == [];
    assert LogAfterChain(request, log, replies[..1]) == log + [request];
    forall k: nat | MainThenSync(s, request, q, log, replies, k) ensures k == 1 {
      assert replies[..k][0] == replies[0];
    }
    if page.nextSyncToken == "" {
      assert next.finished;
      if rest == [] {
        assert MainThenSync(s, request, q, log, replies, 1);
      }
    } else {
      RunAfterSync(s, q, next, log + [request], rest);
      assert RequestFor(q, next) == SyncRequest(q, page.nextSyncToken);
      assert MainThenSync(s, request, q, log, replies, 1) <==> IsPageChain(s, RequestFor(q, next), log + [request], rest);
    }
  }

  // A scan that does not fail reads the main page chain and then the sync chain, and
  // every such pair of chains is what some scan reads.
  lemma RunIsMainThenSync(s: Service, q: Query, log: seq<Request>, replies: seq<Reply>)
    ensures IsRun(s, q, START, log, replies) && !Fails(replies)
            <==> exists k: nat :: MainThenSync(s, FirstRequest(q), q, log, replies, k)
  {
    assert RequestFor(q, START) == FirstRequest(q);
    RunBeforeSync(s, q, START, log, replies);
  }

  // The rows of a scan without a cap: those of the main chain, then those of the sync chain.
  lemma ScanReadsMainThenSync(s: Service, q: Query, log: seq<Request>, replies: seq<Reply>)
    requires IsRun(s, q, START, log, replies) && !Fails(replies)
    ensures exists k: nat :: MainThenSync(s, FirstRequest(q), q, log, replies, k)
                             && VisibleRows(replies) == VisibleRows(replies[..k]) + VisibleRows(replies[k..])
  {
    RunIsMainThenSync(s, q, log, replies);
    var k: nat :| MainThenSync(s, FirstRequest(q), q, log, replies, k);
    BatchesSplit(replies, k);
    FlattenConcat(Batches(replies[..k]), Batches(replies[k..]));
    assert Batches(replies) == Batches(replies)[..k] + Batches(replies)[k..];
  }

  // ------------------------------------------------------------- no restart

  predicate HasOneToken(r: Request) {
    r.ListRows? && (r.pageToken == "" <==> r.syncToken != "")
  }

  predicate HasSyncToken(r: Request) {
    r.ListRows? && r.syncToken != ""
  }

  // Every request carries exactly one token, and at most one of them a sync token.
  ghost predicate OneTokenEach(rs: seq<Request>) {
    && (forall i :: 0 <= i < |rs| ==> HasOneToken(rs[i]))
    && (forall i, j :: 0 <= i < j < |rs| ==> !(HasSyncToken(rs[i]) && HasSyncToken(rs[j])))
  }

  ghost predicate NoSyncToken(rs: seq<Request>) {
    forall i :: 0 <= i < |rs| ==> !HasSyncToken(rs[i])
  }

  lemma OneTokenCons(r: Request, rs: seq<Request>)
    requires OneTokenEach(rs) && HasOneToken(r) && (HasSyncToken(r) ==> NoSyncToken(rs))
    ensures OneTokenEach([r] + rs)
    ensures NoSyncToken([r] + rs) <==> !HasSyncToken(r) && NoSyncToken(rs)
  {
    var all := [r] + rs;
    assert all[0] == r && forall i :: 0 <= i < |rs| ==> all[i + 1] == rs[i];
    forall i | 0 <= i < |all| ensures HasOneToken(all[i]) {
      if i > 0 {
        assert HasOneToken(rs[i - 1]);
      }
    }
    forall i, j | 0 <= i < j < |all| ensures !(HasSyncToken(all[i]) && HasSyncToken(all[j])) {
      assert all[j] == rs[j - 1];
    }
  }

  // At a cursor that follows a page, every further request carries one token.
  lemma {:induction false} LaterRequests(s: Service, q: Query, c: Cursor, log: seq<Request>, replies: seq<Reply>)
    requires IsStretch(s, q, c, log, replies)
    requires c.finished || c.pageToken != "" || AsksForSync(c)
    ensures OneTokenEach(RequestsOf(q, c, replies))
    ensures c.syncDone ==> NoSyncToken(RequestsOf(q, c, replies))
    decreases |replies|
  {
    if replies != [] {
      if replies[0].Success? {
        var next := AfterPage(c, replies[0].value);
        LaterRequests(s, q, next, log + [RequestFor(q, c)], replies[1..]);
        OneTokenCons(RequestFor(q, c), RequestsOf(q, next, replies[1..]));
      } else {
        OneTokenCons(RequestFor(q, c), []);
      }
    }
  }

  // However far a scan goes, only its first request carries no token, so it is never
  // started over, and the service is asked for changes at most once.
  lemma NoRestart(s: Service, q: Query, log: seq<Request>, replies: seq<Reply>)
    requires IsStretch(s, q, START, log, replies) && replies != []
    ensures var rs := RequestsOf(q, START, replies);
            rs != [] && rs[0] == FirstRequest(q) && OneTokenEach(rs[1..])
  {
    assert RequestFor(q, START) == FirstRequest(q);
    if replies[0].Success? {
      var next := AfterPage(START, replies[0].value);
      LaterRequests(s, q, next, log + [RequestFor(q, START)], replies[1..]);
      assert RequestsOf(q, START, replies)[1..] == RequestsOf(q, next, replies[1..]);
    } else {
      assert RequestsOf(q, START, replies)[1..] == [];
    }
  }

  // A handle that is used again after a failed request repeats that request, unless it
  // was the sync request: then it reads the whole table once more.
  lemma RetryRestartsIffSync(q: Query, c: Cursor)
    ensures RequestFor(q, AfterRequest(c)) == RequestFor(q, c) <==> !HasSyncToken(RequestFor(q, c))
    ensures HasSyncToken(RequestFor(q, c)) ==> RequestFor(q, AfterRequest(c)) == FirstRequest(q)
  {
  }
}
