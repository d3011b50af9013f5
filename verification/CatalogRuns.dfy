// Loading a catalog has one run at most, and one exactly when it comes to an end.
module CatalogRuns {
  import opened CatalogClient
  import opened CodaJson
  import opened CodaService
  import opened Wrappers

  // ------------------------------------------------------- no two runs

  lemma {:induction false} ColumnRunIsUnique(s: Service, tableId: string, token: string, log: seq<Request>,
                                             a: seq<ColumnsReply>, b: seq<ColumnsReply>)
    requires IsColumnRun(s, tableId, token, log, a) && IsColumnRun(s, tableId, token, log, b)
    ensures a == b
    decreases |a|
  {
    assert a == [a[0]] + a[1..] && b == [b[0]] + b[1..];
    if a[0].Success? && a[0].value.nextPageToken != "" {
      ColumnRunIsUnique(s, tableId, a[0].value.nextPageToken, log + [ListColumns(tableId, token)], a[1..], b[1..]);
    } else {
      assert a[1..] == b[1..];
    }
  }

  lemma {:induction false} TableRunsAreUnique(s: Service, tables: seq<TableInfo>, log: seq<Request>,
                                              a: seq<seq<ColumnsReply>>, b: seq<seq<ColumnsReply>>)
    requires AreTableRuns(s, tables, log, a) && AreTableRuns(s, tables, log, b)
    ensures a == b
    decreases |tables|
  {
    if tables != [] {
      ColumnRunIsUnique(s, tables[0].id, "", log, a[0], b[0]);
      assert a == [a[0]] + a[1..] && b == [b[0]] + b[1..];
      if ColumnsFail(a[0]) {
        assert a[1..] == b[1..];
      } else {
        TableRunsAreUnique(s, tables[1..], log + ColumnRequests(tables[0].id, "", a[0]), a[1..], b[1..]);
      }
    }
  }

  lemma {:induction false} CatalogRunIsUnique(s: Service, token: string, log: seq<Request>,
                                              a: seq<TablePage>, b: seq<TablePage>)
    requires IsCatalogRun(s, token, log, a) && IsCatalogRun(s, token, log, b)
    ensures a == b
    decreases |a|
  {
    if a[0].reply.Success? {
      TableRunsAreUnique(s, a[0].reply.value.tables, log + [ListTables(token)], a[0].runs, b[0].runs);
    }
    assert a[0] == b[0] && a == [a[0]] + a[1..] && b == [b[0]] + b[1..];
    if PageFails(a[0]) || a[0].reply.value.nextPageToken == "" {
      assert a[1..] == b[1..];
    } else {
      CatalogRunIsUnique(s, a[0].reply.value.nextPageToken, LogAfterPage(token, log, a[0]), a[1..], b[1..]);
    }
  }

  // ------------------------------------------------------- when there is one

  // The columns of a table: after n requests at most the chain of tokens ends, or a request fails.
  predicate ColumnsEnd(s: Service, tableId: string, token: string, log: seq<Request>, n: nat)
    decreases n
  {
    n > 0 &&
    var log' := log + [ListColumns(tableId, token)];
    match ParseColumns(s.columns(log'))
    case Failure(_) => true
    case Success(page) => page.nextPageToken == "" || ColumnsEnd(s, tableId, page.nextPageToken, log', n - 1)
  }

  // The answers to the first n requests.
  function FirstColumns(s: Service, tableId: string, token: string, log: seq<Request>, n: nat): seq<ColumnsReply>
    decreases n
  {
    if n == 0 then []
    else
      var log' := log + [ListColumns(tableId, token)];
      var reply := ParseColumns(s.columns(log'));
      [reply] +
      match reply
      case Failure(_) => []
      case Success(page) =>
        if page.nextPageToken == "" then [] else FirstColumns(s, tableId, page.nextPageToken, log', n - 1)
  }

  lemma {:induction false} ColumnsHaveRun(s: Service, tableId: string, token: string, log: seq<Request>, n: nat)
    requires ColumnsEnd(s, tableId, token, log, n)
    ensures IsColumnRun(s, tableId, token, log, FirstColumns(s, tableId, token, log, n))
    decreases n
  {
    var log' := log + [ListColumns(tableId, token)];
    var reply := ParseColumns(s.columns(log'));
    if reply.Success? && reply.value.nextPageToken != "" {
      ColumnsHaveRun(s, tableId, reply.value.nextPageToken, log', n - 1);
      var later := FirstColumns(s, tableId, reply.value.nextPageToken, log', n - 1);
      assert ([reply] + later)[1..] == later;
    } else {
      assert [reply] + [] == [reply];
    }
  }

  lemma {:induction false} ColumnRunEnds(s: Service, tableId: string, token: string, log: seq<Request>,
                                         replies: seq<ColumnsReply>, n: nat)
    requires IsColumnRun(s, tableId, token, log, replies) && n >= |replies|
    ensures ColumnsEnd(s, tableId, token, log, n)
    decreases n
  {
    if replies[0].Success? && replies[0].value.nextPageToken != "" {
      ColumnRunEnds(s, tableId, replies[0].value.nextPageToken, log + [ListColumns(tableId, token)], replies[1..], n - 1);
    }
  }

  ghost predicate HasColumnRun(s: Service, tableId: string, log: seq<Request>) {
    exists replies :: IsColumnRun(s, tableId, "", log, replies)
  }

  ghost predicate ColumnChainEnds(s: Service, tableId: string, log: seq<Request>) {
    exists n: nat :: ColumnsEnd(s, tableId, "", log, n)
  }

  lemma ColumnRunExistsIff(s: Service, tableId: string, log: seq<Request>)
    ensures HasColumnRun(s, tableId, log) <==> ColumnChainEnds(s, tableId, log)
  {
    if replies :| IsColumnRun(s, tableId, "", log, replies) {
      ColumnRunEnds(s, tableId, "", log, replies, |replies|);
    }
    if n: nat :| ColumnsEnd(s, tableId, "", log, n) {
      ColumnsHaveRun(s, tableId, "", log, n);
    }
  }

  // The tables of a page: so do all of them that are asked for.
  predicate TablesEnd(s: Service, tables: seq<TableInfo>, log: seq<Request>, n: nat)
    decreases |tables|
  {
    tables == [] ||
    (ColumnsEnd(s, tables[0].id, "", log, n) &&
     var run := FirstColumns(s, tables[0].id, "", log, n);
     ColumnsFail(run) || TablesEnd(s, tables[1..], log + ColumnRequests(tables[0].id, "", run), n))
  }

  function FirstRuns(s: Service, tables: seq<TableInfo>, log: seq<Request>, n: nat): seq<seq<ColumnsReply>>
    decreases |tables|
  {
    if tables == [] then []
    else
      var run := FirstColumns(s, tables[0].id, "", log, n);
      [run] +
      if ColumnsFail(run) then [] else FirstRuns(s, tables[1..], log + ColumnRequests(tables[0].id, "", run), n)
  }

  lemma {:induction false} TablesHaveRuns(s: Service, tables: seq<TableInfo>, log: seq<Request>, n: nat)
    requires TablesEnd(s, tables, log, n)
    ensures AreTableRuns(s, tables, log, FirstRuns(s, tables, log, n))
    decreases |tables|
  {
    if tables != [] {
      ColumnsHaveRun(s, tables[0].id, "", log, n);
      var run := FirstColumns(s, tables[0].id, "", log, n);
      if ColumnsFail(run) {
        assert [run] + [] == [run];
      } else {
        var log' := log + ColumnRequests(tables[0].id, "", run);
        TablesHaveRuns(s, tables[1..], log', n);
        assert ([run] + FirstRuns(s, tables[1..], log', n))[1..] == FirstRuns(s, tables[1..], log', n);
      }
    }
  }

  // The longest run.
  function Longest(runs: seq<seq<ColumnsReply>>): nat {
    if runs == [] then 0
    else if |runs[0]| > Longest(runs[1..]) then |runs[0]| else Longest(runs[1..])
  }

  lemma {:induction false} TableRunsEnd(s: Service, tables: seq<TableInfo>, log: seq<Request>,
                                        runs: seq<seq<ColumnsReply>>, n: nat)
    requires AreTableRuns(s, tables, log, runs) && n >= Longest(runs)
    ensures TablesEnd(s, tables, log, n) && FirstRuns(s, tables, log, n) == runs
    decreases |tables|
  {
    if tables != [] {
      ColumnRunEnds(s, tables[0].id, "", log, runs[0], n);
      ColumnsHaveRun(s, tables[0].id, "", log, n);
      ColumnRunIsUnique(s, tables[0].id, "", log, runs[0], FirstColumns(s, tables[0].id, "", log, n));
      if !ColumnsFail(runs[0]) {
        TableRunsEnd(s, tables[1..], log + ColumnRequests(tables[0].id, "", runs[0]), runs[1..], n);
      }
      TablesHaveRuns(s, tables, log, n);
      TableRunsAreUnique(s, tables, log, runs, FirstRuns(s, tables, log, n));
    }
  }

  // The first page from a token on.
  function FirstPage(s: Service, token: string, log: seq<Request>, n: nat): TablePage {
    var log' := log + [ListTables(token)];
    var reply := ParseTables(s.tables(log'));
    TablePage(reply, if reply.Failure? then [] else FirstRuns(s, reply.value.tables, log', n))
  }

  // The page comes to an end with all that is asked for its tables. (Folded, as Wrappers.LookInside
  // says.)
  ghost predicate PageEnds(s: Service, token: string, log: seq<Request>, n: nat) {
    forall look {:trigger LookInside(look)} :: LookInside(look) ==>
      var reply := FirstPage(s, token, log, n).reply;
      reply.Success? ==> TablesEnd(s, reply.value.tables, log + [ListTables(token)], n)
  }

  lemma PageHasRuns(s: Service, token: string, log: seq<Request>, n: nat)
    requires PageEnds(s, token, log, n)
    ensures var page, log' := FirstPage(s, token, log, n), log + [ListTables(token)];
            && page.reply == ParseTables(s.tables(log'))
            && if page.reply.Failure? then page.runs == [] else AreTableRuns(s, page.reply.value.tables, log', page.runs)
  {
    assert LookInside(0);
    var reply := FirstPage(s, token, log, n).reply;
    if reply.Success? {
      TablesHaveRuns(s, reply.value.tables, log + [ListTables(token)], n);
    }
  }

  lemma RunHasPage(s: Service, token: string, log: seq<Request>, pages: seq<TablePage>, n: nat)
    requires IsCatalogRun(s, token, log, pages) && n >= Longest(pages[0].runs)
    ensures PageEnds(s, token, log, n) && pages[0] == FirstPage(s, token, log, n)
  {
    if pages[0].reply.Success? {
      TableRunsEnd(s, pages[0].reply.value.tables, log + [ListTables(token)], pages[0].runs, n);
    }
  }

  // A catalog: after `pages` pages at most the chain of their tokens ends or one fails, and the columns of
  // each table take no more than n requests.
  ghost predicate CatalogEnds(s: Service, token: string, log: seq<Request>, n: nat, pages: nat)
    decreases pages
  {
    pages > 0 && PageEnds(s, token, log, n) &&
    var page := FirstPage(s, token, log, n);
    (PageFails(page) || page.reply.value.nextPageToken == "" ||
     CatalogEnds(s, page.reply.value.nextPageToken, LogAfterPage(token, log, page), n, pages - 1))
  }

  lemma {:induction false} CatalogHasRun(s: Service, token: string, log: seq<Request>, n: nat, pages: nat)
      returns (run: seq<TablePage>)
    requires CatalogEnds(s, token, log, n, pages)
    ensures IsCatalogRun(s, token, log, run)
    decreases pages
  {
    var page := FirstPage(s, token, log, n);
    PageHasRuns(s, token, log, n);
    run := [page];
    if !PageFails(page) && page.reply.value.nextPageToken != "" {
      var later := CatalogHasRun(s, page.reply.value.nextPageToken, LogAfterPage(token, log, page), n, pages - 1);
      run := [page] + later;
      assert run[1..] == later;
    }
  }

  // The longest run of all pages.
  function Widest(pages: seq<TablePage>): nat {
    if pages == [] then 0
    else if Longest(pages[0].runs) > Widest(pages[1..]) then Longest(pages[0].runs) else Widest(pages[1..])
  }

  lemma {:induction false} CatalogRunEnds(s: Service, token: string, log: seq<Request>, pages: seq<TablePage>, n: nat,
                                          count: nat)
    requires IsCatalogRun(s, token, log, pages) && n >= Widest(pages) && count == |pages|
    ensures CatalogEnds(s, token, log, n, count)
    decreases count
  {
    var page := pages[0];
    RunHasPage(s, token, log, pages, n);
    if !PageFails(page) && page.reply.value.nextPageToken != "" {
      CatalogRunEnds(s, page.reply.value.nextPageToken, LogAfterPage(token, log, page), pages[1..], n, count - 1);
    }
  }

  ghost predicate HasCatalogRun(s: Service, log: seq<Request>) {
    exists pages :: IsCatalogRun(s, "", log, pages)
  }

  ghost predicate AllChainsEnd(s: Service, log: seq<Request>) {
    exists n: nat, pages: nat :: CatalogEnds(s, "", log, n, pages)
  }

  // A catalog load has a run if and only if the chain of its pages ends, and that of the columns of
  // each table it comes to.
  lemma CatalogRunExistsIff(s: Service, log: seq<Request>)
    ensures HasCatalogRun(s, log) <==> AllChainsEnd(s, log)
  {
    if pages :| IsCatalogRun(s, "", log, pages) {
      CatalogRunEnds(s, "", log, pages, Widest(pages), |pages|);
    }
    if n: nat, pages: nat :| CatalogEnds(s, "", log, n, pages) {
      var run := CatalogHasRun(s, "", log, n, pages);
    }
  }
}
