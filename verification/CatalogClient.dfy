// Loading the catalog: the pages of tables and, table by table, the pages of columns.
module CatalogClient {
  import opened CodaJson
  import opened CodaService
  import opened Ffi
  import opened Naming
  import opened Sequences
  import opened Wrappers

  type ColumnsReply = Result<ColumnsPage, Error>
  type TablesReply = Result<TablesPage, Error>

  // ------------------------------------------------------------ columns of a table

  // All replies to the column requests of one table, from a page token on.
  ghost predicate IsColumnRun(s: Service, tableId: string, token: string, log: seq<Request>, replies: seq<ColumnsReply>)
    decreases |replies|
  {
    var log' := log + [ListColumns(tableId, token)];
    && replies != []
    && replies[0] == ParseColumns(s.columns(log'))
    && match replies[0]
       case Failure(_) => |replies| == 1
       case Success(page) =>
         if page.nextPageToken == "" then |replies| == 1
         else IsColumnRun(s, tableId, page.nextPageToken, log', replies[1..])
  }

  function ColumnRequests(tableId: string, token: string, replies: seq<ColumnsReply>): seq<Request>
    decreases |replies|
  {
    if replies == [] then []
    else
      [ListColumns(tableId, token)] +
      if replies[0].Failure? then [] else ColumnRequests(tableId, replies[0].value.nextPageToken, replies[1..])
  }

  predicate ColumnsFail(replies: seq<ColumnsReply>) {
    replies != [] && replies[|replies| - 1].Failure?
  }

  function PageColumns(reply: ColumnsReply): seq<ColumnInfo> {
    if reply.Success? then reply.value.columns else []
  }

  function AllColumns(replies: seq<ColumnsReply>): seq<ColumnInfo> {
    if replies == [] then [] else PageColumns(replies[0]) + AllColumns(replies[1..])
  }

  function MetadataColumn(name: string): ColumnInfo {
    ColumnInfo(name, name, "timestampTz", COLUMN_GENERATED | COLUMN_SYSTEM | COLUMN_SORT_ASC, 3)
  }

  const METADATA_COLUMNS: seq<ColumnInfo> := [MetadataColumn("createdAt"), MetadataColumn("updatedAt")]

  function InfoName(c: ColumnInfo): string {
    c.name
  }

  function WithNames(columns: seq<ColumnInfo>, names: seq<string>): (r: seq<ColumnInfo>)
    requires |names| == |columns|
    ensures |r| == |columns|
  {
    if columns == [] then []
    else
      var n := |columns| - 1;
      WithNames(columns[..n], names[..n]) + [columns[n].(name := names[n])]
  }

  // The listed columns, with the metadata if asked for.
  function GivenColumns(withMetadata: bool, listed: seq<ColumnInfo>): seq<ColumnInfo> {
    listed + if withMetadata then METADATA_COLUMNS else []
  }

  // The columns of a table in the catalog: the same with prepared names.
  function TableColumns(withMetadata: bool, listed: seq<ColumnInfo>): seq<ColumnInfo> {
    var columns := GivenColumns(withMetadata, listed);
    WithNames(columns, Prepared(Map(InfoName, columns)))
  }

  lemma {:induction false} WithNamesOf(given: seq<Column>, now: seq<Column>)
    requires |given| == |now| && forall i :: 0 <= i < |given| ==> Renamed(given[i], now[i])
    ensures |NamesOf(now)| == |Map(ColumnText, given)|
    ensures Map(ColumnText, now) == WithNames(Map(ColumnText, given), NamesOf(now))
  {
    if given != [] {
      var n := |given| - 1;
      WithNamesOf(given[..n], now[..n]);
      assert Map(ColumnText, given)[..n] == Map(ColumnText, given[..n]);
      assert NamesOf(now)[..n] == NamesOf(now[..n]);
      assert Renamed(given[n], now[n]);
    }
  }

  lemma {:induction false} NamesAreInfoNames(columns: seq<Column>)
    ensures NamesOf(columns) == Map(InfoName, Map(ColumnText, columns))
  {
    if columns != [] {
      var n := |columns| - 1;
      NamesAreInfoNames(columns[..n]);
      assert Map(ColumnText, columns)[..n] == Map(ColumnText, columns[..n]);
    }
  }

  // append_row_metadata, one column
  method MetadataColumnAlloc(name: string, heap: Heap) returns (column: Column)
    requires heap.Valid()
    modifies heap
    ensures heap.Valid() && heap.live == old(heap.live) + ColumnOwns(heap.watched, column)
    ensures ColumnText(column) == MetadataColumn(name)
  {
    var capabilities := COLUMN_GENERATED | COLUMN_SYSTEM;
    capabilities := capabilities | COLUMN_SORT_ASC;
    var id := heap.AllocString(name);
    var display := heap.AllocString(name);
    var typeName := heap.AllocString("timestampTz");
    column := Column(id, display, typeName, capabilities, 3);
  }

  method AppendRowMetadata(columns: seq<Column>, heap: Heap) returns (all: seq<Column>)
    requires heap.Valid()
    modifies heap
    ensures heap.Valid()
    ensures heap.live - AllOwn(ColumnOwns, heap.watched, all) == old(heap.live) - AllOwn(ColumnOwns, heap.watched, columns)
    ensures Map(ColumnText, all) == Map(ColumnText, columns) + METADATA_COLUMNS
  {
    all := columns;
    for i := 0 to |ROW_METADATA|
      invariant heap.Valid()
      invariant heap.live - AllOwn(ColumnOwns, heap.watched, all) == old(heap.live) - AllOwn(ColumnOwns, heap.watched, columns)
      invariant Map(ColumnText, all) == Map(ColumnText, columns) + METADATA_COLUMNS[..i]
    {
      var column := MetadataColumnAlloc(ROW_METADATA[i], heap);
      AllOwnPush(ColumnOwns, heap.watched, all, column);
      MapPush(ColumnText, all, column);
      all := all + [column];
    }
  }

  // One page of columns, taken over with its token.
  method ListColumnsPage(remote: Remote, heap: Heap, tableId: Str, pageToken: string)
      returns (r: Result<seq<Column>, Error>, nextPageToken: string)
    requires heap.Valid() && StrOwns(heap.watched, tableId) <= heap.live
    modifies remote, heap
    ensures heap.Valid() && old(heap.live) <= heap.live
    ensures remote.log == old(remote.log) + [ListColumns(tableId.text, pageToken)]
    ensures r.Failure? ==> ParseColumns(remote.service.columns(remote.log)) == Failure(r.error)
    ensures r.Success? ==>
              && ParseColumns(remote.service.columns(remote.log))
                 == Success(ColumnsPage(Map(ColumnText, r.value), nextPageToken))
              && heap.live == old(heap.live) + AllOwn(ColumnOwns, heap.watched, r.value)
  {
    nextPageToken := "";
    var id := heap.Read(tableId);
    var reply := remote.SendListColumns(ListColumns(id, pageToken));
    if reply.Failure? {
      r := Failure(reply.error);
      return;
    }
    var page;
    ghost var leaked, stray;
    page, leaked, stray := ColumnsFromJson(reply.value, heap);
    if page.Failure? {
      r := Failure(page.error);
      return;
    }
    var items := heap.FromRaw(page.value.items);
    nextPageToken := heap.Read(page.value.nextPageToken);
    heap.FreeString(page.value.nextPageToken);
    r := Success(items);
  }

  // The page loop of load_columns.
  method ListAllColumns(remote: Remote, heap: Heap, tableId: Str, ghost replies: seq<ColumnsReply>)
      returns (r: Result<seq<Column>, Error>)
    requires heap.Valid() && StrOwns(heap.watched, tableId) <= heap.live
    requires IsColumnRun(remote.service, tableId.text, "", remote.log, replies)
    modifies remote, heap
    ensures heap.Valid() && old(heap.live) <= heap.live
    ensures remote.log == old(remote.log) + ColumnRequests(tableId.text, "", replies)
    ensures r.Failure? <==> ColumnsFail(replies)
    ensures r.Success? ==> Map(ColumnText, r.value) == AllColumns(replies)
    ensures r.Success? ==> heap.live == old(heap.live) + AllOwn(ColumnOwns, heap.watched, r.value)
  {
    var all: seq<Column> := [];
    var pageToken := "";
    ghost var rest := replies;
    ghost var run := ColumnRun(remote.service, tableId.text, old(remote.log), replies);
    while true
      invariant heap.Valid() && heap.live == old(heap.live) + AllOwn(ColumnOwns, heap.watched, all)
      invariant Listing(run, pageToken, remote.log, rest, Map(ColumnText, all))
      decreases |rest|
    {
      ListingReply(run, pageToken, remote.log, rest, Map(ColumnText, all));
      ghost var token, log := pageToken, remote.log;
      var items;
      items, pageToken := ListColumnsPage(remote, heap, tableId, pageToken);
      if items.Failure? {
        ListingFails(run, token, log, rest, Map(ColumnText, all));
        return Failure(items.error);
      }
      if pageToken == "" {
        ListingLast(run, token, log, rest, Map(ColumnText, all));
      } else {
        ListingNext(run, token, log, rest, Map(ColumnText, all));
      }
      AllOwnConcat(ColumnOwns, heap.watched, all, items.value);
      MapConcat(ColumnText, all, items.value);
      all := all + items.value;
      rest := rest[1..];
      if pageToken == "" {
        break;
      }
    }
    r := Success(all);
  }

  datatype ColumnRun = ColumnRun(service: Service, tableId: string, log: seq<Request>, replies: seq<ColumnsReply>)

  // The state of the page loop: the page to ask for, the replies to come, and the columns
  // collected so far.
  ghost predicate Listing(run: ColumnRun, token: string, log: seq<Request>, rest: seq<ColumnsReply>,
                          columns: seq<ColumnInfo>)
  {
    forall look {:trigger LookInside(look)} :: LookInside(look) ==>
      && IsColumnRun(run.service, run.tableId, token, log, rest)
      && log + ColumnRequests(run.tableId, token, rest) == run.log + ColumnRequests(run.tableId, "", run.replies)
      && columns + AllColumns(rest) == AllColumns(run.replies)
      && (ColumnsFail(rest) <==> ColumnsFail(run.replies))
  }

  // A reply is to come, and it is the service's ...
  lemma ListingReply(run: ColumnRun, token: string, log: seq<Request>, rest: seq<ColumnsReply>, columns: seq<ColumnInfo>)
    requires Listing(run, token, log, rest, columns)
    ensures rest != [] && rest[0] == ParseColumns(run.service.columns(log + [ListColumns(run.tableId, token)]))
  {
    assert LookInside(0);
  }

  // ... which fails, or is the last page, or is followed by another.
  lemma ListingFails(run: ColumnRun, token: string, log: seq<Request>, rest: seq<ColumnsReply>, columns: seq<ColumnInfo>)
    requires Listing(run, token, log, rest, columns) && rest != [] && rest[0].Failure?
    ensures ColumnsFail(run.replies)
    ensures log + [ListColumns(run.tableId, token)] == run.log + ColumnRequests(run.tableId, "", run.replies)
  {
    assert LookInside(0);
    ColumnStep(run.tableId, token, log, rest);
  }

  lemma ListingLast(run: ColumnRun, token: string, log: seq<Request>, rest: seq<ColumnsReply>, columns: seq<ColumnInfo>)
    requires Listing(run, token, log, rest, columns) && rest != [] && rest[0].Success?
    requires rest[0].value.nextPageToken == ""
    ensures !ColumnsFail(run.replies) && columns + rest[0].value.columns == AllColumns(run.replies)
    ensures log + [ListColumns(run.tableId, token)] == run.log + ColumnRequests(run.tableId, "", run.replies)
  {
    assert LookInside(0);
    ColumnStep(run.tableId, token, log, rest);
    AllColumnsStep(rest);
    assert rest[1..] == [];
  }

  lemma ListingNext(run: ColumnRun, token: string, log: seq<Request>, rest: seq<ColumnsReply>, columns: seq<ColumnInfo>)
    requires Listing(run, token, log, rest, columns) && rest != [] && rest[0].Success?
    requires rest[0].value.nextPageToken != ""
    ensures Listing(run, rest[0].value.nextPageToken, log + [ListColumns(run.tableId, token)], rest[1..],
                    columns + rest[0].value.columns)
  {
    assert LookInside(0);
    ColumnStep(run.tableId, token, log, rest);
    AllColumnsStep(rest);
    Assoc(columns, rest[0].value.columns, AllColumns(rest[1..]));
  }

  lemma AllColumnsStep(replies: seq<ColumnsReply>)
    requires replies != [] && replies[0].Success?
    ensures AllColumns(replies) == replies[0].value.columns + AllColumns(replies[1..])
  {
  }

  lemma ColumnStep(tableId: string, token: string, log: seq<Request>, replies: seq<ColumnsReply>)
    requires replies != []
    ensures var log' := log + [ListColumns(tableId, token)];
            && (replies[0].Failure? ==> log + ColumnRequests(tableId, token, replies) == log')
            && (replies[0].Success? ==>
                  log + ColumnRequests(tableId, token, replies)
                  == log' + ColumnRequests(tableId, replies[0].value.nextPageToken, replies[1..]))
  {
    var request := ListColumns(tableId, token);
    if replies[0].Success? {
      var later := ColumnRequests(tableId, replies[0].value.nextPageToken, replies[1..]);
      Assoc(log, [request], later);
    } else {
      assert ColumnRequests(tableId, token, replies) == [request];
    }
  }

  // Naming the collected columns and giving them away as an array.
  method PrepareAll(all: seq<Column>, heap: Heap) returns (raw: Raw<Column>)
    requires heap.Valid() && AllOwn(ColumnOwns, heap.watched, all) <= heap.live
    modifies heap
    ensures heap.Valid()
    ensures heap.live - ColumnsOwn(heap.watched, raw) == old(heap.live) - AllOwn(ColumnOwns, heap.watched, all)
    ensures var columns := Map(ColumnText, all);
            Map(ColumnText, raw.items) == WithNames(columns, Prepared(Map(InfoName, columns)))
  {
    var columns := new Column[|all|](i requires 0 <= i < |all| => all[i]);
    assert columns[..] == all;
    PrepareColumns(columns, heap);
    WithNamesOf(all, columns[..]);
    NamesAreInfoNames(all);
    raw := heap.IntoRaw(columns[..]);
  }

  // load_columns
  method LoadColumns(remote: Remote, heap: Heap, withMetadata: bool, tableId: Str, ghost replies: seq<ColumnsReply>)
      returns (r: Result<Raw<Column>, Error>)
    requires heap.Valid() && StrOwns(heap.watched, tableId) <= heap.live
    requires IsColumnRun(remote.service, tableId.text, "", remote.log, replies)
    modifies remote, heap
    ensures heap.Valid() && old(heap.live) <= heap.live
    ensures remote.log == old(remote.log) + ColumnRequests(tableId.text, "", replies)
    ensures r.Failure? <==> ColumnsFail(replies)
    ensures r.Success? ==> Map(ColumnText, r.value.items) == TableColumns(withMetadata, AllColumns(replies))
    ensures r.Success? ==> heap.live == old(heap.live) + ColumnsOwn(heap.watched, r.value)
  {
    var listed := ListAllColumns(remote, heap, tableId, replies);
    if listed.Failure? {
      return Failure(listed.error);
    }
    var all := listed.value;
    if withMetadata {
      all := AppendRowMetadata(all, heap);
    }
    assert Map(ColumnText, all) == AllColumns(replies) + if withMetadata then METADATA_COLUMNS else [];
    var raw := PrepareAll(all, heap);
    r := Success(raw);
  }

  // ------------------------------------------------------------ the tables of a page

  datatype CatalogTableInfo = CatalogTableInfo(id: string, name: string, capabilities: Caps, columns: seq<ColumnInfo>)
  datatype CatalogTable = CatalogTable(id: Str, name: Str, capabilities: Caps, columns: Raw<Column>)

  function CatalogTableText(t: CatalogTable): CatalogTableInfo {
    CatalogTableInfo(t.id.text, t.name.text, t.capabilities, Map(ColumnText, t.columns.items))
  }

  function CatalogTableOwns(p: Ptr, t: CatalogTable): nat {
    StrOwns(p, t.id) + StrOwns(p, t.name) + ColumnsOwn(p, t.columns)
  }

  // The column replies for the tables of a page, one run a table; a failing run is the last.
  ghost predicate AreTableRuns(s: Service, tables: seq<TableInfo>, log: seq<Request>, runs: seq<seq<ColumnsReply>>)
    decreases |tables|
  {
    if tables == [] then runs == []
    else
      && runs != []
      && IsColumnRun(s, tables[0].id, "", log, runs[0])
      && if ColumnsFail(runs[0]) then |runs| == 1
         else AreTableRuns(s, tables[1..], log + ColumnRequests(tables[0].id, "", runs[0]), runs[1..])
  }

  // The log when these tables are loaded.
  function LogAfterTables(log: seq<Request>, tables: seq<TableInfo>, runs: seq<seq<ColumnsReply>>): seq<Request>
    decreases |tables|
  {
    if tables == [] || runs == [] then log
    else LogAfterTables(log + ColumnRequests(tables[0].id, "", runs[0]), tables[1..], runs[1..])
  }

  predicate RunsFail(runs: seq<seq<ColumnsReply>>) {
    runs != [] && ColumnsFail(runs[|runs| - 1])
  }

  function LoadedTable(withMetadata: bool, table: TableInfo, run: seq<ColumnsReply>): CatalogTableInfo {
    CatalogTableInfo(table.id, table.name, table.capabilities, TableColumns(withMetadata, AllColumns(run)))
  }

  // The tables of a page with their columns.
  function LoadedTables(withMetadata: bool, tables: seq<TableInfo>, runs: seq<seq<ColumnsReply>>): (r: seq<CatalogTableInfo>)
    requires |tables| == |runs|
    ensures |r| == |tables|
  {
    if tables == [] then []
    else
      var n := |tables| - 1;
      LoadedTables(withMetadata, tables[..n], runs[..n]) + [LoadedTable(withMetadata, tables[n], runs[n])]
  }

  datatype TablesRun = TablesRun(service: Service, withMetadata: bool, log: seq<Request>, tables: seq<TableInfo>,
                                 runs: seq<seq<ColumnsReply>>)
  {
    function LogAfter(): seq<Request> {
      LogAfterTables(log, tables, runs)
    }
  }

  // The state of the loop over the tables of a page: the first i of them are loaded.
  ghost predicate Loading(run: TablesRun, i: nat, log: seq<Request>, loaded: seq<CatalogTableInfo>) {
    forall look {:trigger LookInside(look)} :: LookInside(look) ==>
      && i <= |run.tables| && i <= |run.runs|
      && AreTableRuns(run.service, run.tables[i..], log, run.runs[i..])
      && LogAfterTables(log, run.tables[i..], run.runs[i..]) == run.LogAfter()
      && loaded == LoadedTables(run.withMetadata, run.tables[..i], run.runs[..i])
      && (i > 0 ==> !ColumnsFail(run.runs[i - 1]))
  }

  lemma LoadingStart(run: TablesRun)
    requires AreTableRuns(run.service, run.tables, run.log, run.runs)
    ensures Loading(run, 0, run.log, [])
  {
    assert run.tables[0..] == run.tables && run.runs[0..] == run.runs;
  }

  // How the loop ends, with a failure ...
  ghost predicate LoadingFailed(run: TablesRun, log: seq<Request>) {
    forall look {:trigger LookInside(look)} :: LookInside(look) ==>
      RunsFail(run.runs) && log == run.LogAfter()
  }

  // ... or with all tables.
  ghost predicate LoadingDone(run: TablesRun, log: seq<Request>, loaded: seq<CatalogTableInfo>) {
    forall look {:trigger LookInside(look)} :: LookInside(look) ==>
      && !RunsFail(run.runs) && log == run.LogAfter() && |run.runs| == |run.tables|
      && loaded == LoadedTables(run.withMetadata, run.tables, run.runs)
  }

  lemma LoadingRun(run: TablesRun, i: nat, log: seq<Request>, loaded: seq<CatalogTableInfo>)
    requires Loading(run, i, log, loaded) && i < |run.tables|
    ensures i < |run.runs| && IsColumnRun(run.service, run.tables[i].id, "", log, run.runs[i])
  {
    assert LookInside(0);
    assert run.tables[i..][0] == run.tables[i] && run.runs[i..][0] == run.runs[i];
  }

  lemma LoadingFails(run: TablesRun, i: nat, log: seq<Request>, loaded: seq<CatalogTableInfo>)
    requires Loading(run, i, log, loaded) && i < |run.tables| && i < |run.runs|
    requires ColumnsFail(run.runs[i])
    ensures LoadingFailed(run, log + ColumnRequests(run.tables[i].id, "", run.runs[i]))
  {
    assert LookInside(0);
    var tables, runs := run.tables[i..], run.runs[i..];
    assert tables[0] == run.tables[i] && runs[0] == run.runs[i] && runs[1..] == [];
    assert LogAfterTables(log + ColumnRequests(tables[0].id, "", runs[0]), tables[1..], []) == run.LogAfter();
  }

  lemma LoadingStep(run: TablesRun, i: nat, log: seq<Request>, loaded: seq<CatalogTableInfo>)
    requires Loading(run, i, log, loaded) && i < |run.tables| && i < |run.runs|
    requires !ColumnsFail(run.runs[i])
    ensures Loading(run, i + 1, log + ColumnRequests(run.tables[i].id, "", run.runs[i]),
                    loaded + [LoadedTable(run.withMetadata, run.tables[i], run.runs[i])])
  {
    assert LookInside(0);
    var tables, runs := run.tables[i..], run.runs[i..];
    assert tables[0] == run.tables[i] && tables[1..] == run.tables[i + 1..];
    assert runs[0] == run.runs[i] && runs[1..] == run.runs[i + 1..];
    assert run.tables[..i + 1][..i] == run.tables[..i] && run.runs[..i + 1][..i] == run.runs[..i];
  }

  lemma LoadingEnd(run: TablesRun, log: seq<Request>, loaded: seq<CatalogTableInfo>)
    requires Loading(run, |run.tables|, log, loaded)
    ensures LoadingDone(run, log, loaded)
  {
    assert LookInside(0);
    assert run.tables[|run.tables|..] == [];
    assert run.tables[..|run.tables|] == run.tables && run.runs[..|run.runs|] == run.runs;
  }

  // One table: its columns are loaded, its strings copied and the page's own ones freed.
  method LoadTable(remote: Remote, heap: Heap, withMetadata: bool, table: Table, ghost replies: seq<ColumnsReply>)
      returns (r: Result<CatalogTable, Error>)
    requires heap.Valid() && TableOwns(heap.watched, table) <= heap.live
    requires IsColumnRun(remote.service, table.id.text, "", remote.log, replies)
    modifies remote, heap
    ensures heap.Valid()
    ensures remote.log == old(remote.log) + ColumnRequests(table.id.text, "", replies)
    ensures r.Failure? <==> ColumnsFail(replies)
    ensures r.Failure? ==> old(heap.live) <= heap.live
    ensures r.Success? ==> CatalogTableText(r.value) == LoadedTable(withMetadata, TableText(table), replies)
    ensures r.Success? ==>
              heap.live == old(heap.live) - TableOwns(heap.watched, table) + CatalogTableOwns(heap.watched, r.value)
  {
    var columns := LoadColumns(remote, heap, withMetadata, table.id, replies);
    if columns.Failure? {
      return Failure(columns.error);
    }
    var idText := heap.Read(table.id);
    var id := heap.AllocString(idText);
    var nameText := heap.Read(table.name);
    var name := heap.AllocString(nameText);
    r := Success(CatalogTable(id, name, table.capabilities, columns.value));
    heap.FreeString(table.id);
    heap.FreeString(table.name);
  }

  // The loop over the tables of a page.
  method LoadTables(remote: Remote, heap: Heap, withMetadata: bool, tables: seq<Table>, ghost run: TablesRun)
      returns (r: Result<seq<CatalogTable>, Error>)
    requires heap.Valid() && AllOwn(TableOwns, heap.watched, tables) <= heap.live
    requires run.service == remote.service && run.withMetadata == withMetadata && run.tables == Map(TableText, tables)
    requires Loading(run, 0, remote.log, [])
    modifies remote, heap
    ensures heap.Valid()
    ensures r.Failure? ==> LoadingFailed(run, remote.log)
    ensures r.Failure? ==> heap.live >= old(heap.live) - old(AllOwn(TableOwns, heap.watched, tables))
    ensures r.Success? ==>
              && LoadingDone(run, remote.log, Map(CatalogTableText, r.value))
              && heap.live == old(heap.live) - AllOwn(TableOwns, heap.watched, tables)
                              + AllOwn(CatalogTableOwns, heap.watched, r.value)
  {
    var loaded: seq<CatalogTable> := [];
    ghost var elsewhere := heap.live - AllOwn(TableOwns, heap.watched, tables);
    assert tables[0..] == tables;
    for i := 0 to |tables|
      invariant heap.Valid()
      invariant heap.live == elsewhere + AllOwn(CatalogTableOwns, heap.watched, loaded)
                             + AllOwn(TableOwns, heap.watched, tables[i..])
      invariant Loading(run, i, remote.log, Map(CatalogTableText, loaded))
    {
      LoadingRun(run, i, remote.log, Map(CatalogTableText, loaded));
      if ColumnsFail(run.runs[i]) {
        LoadingFails(run, i, remote.log, Map(CatalogTableText, loaded));
      } else {
        LoadingStep(run, i, remote.log, Map(CatalogTableText, loaded));
      }
      MapAt(TableText, tables, i);
      AllOwnHead(TableOwns, heap.watched, tables, i);
      var table := LoadTable(remote, heap, withMetadata, tables[i], run.runs[i]);
      if table.Failure? {
        return Failure(table.error);
      }
      AllOwnPush(CatalogTableOwns, heap.watched, loaded, table.value);
      MapPush(CatalogTableText, loaded, table.value);
      loaded := loaded + [table.value];
    }
    LoadingEnd(run, remote.log, Map(CatalogTableText, loaded));
    r := Success(loaded);
  }

  // ------------------------------------------------------------ the pages of tables

  datatype TablePage = TablePage(reply: TablesReply, runs: seq<seq<ColumnsReply>>)

  // The log when the tables of a page are loaded.
  function LogAfterPage(token: string, log: seq<Request>, page: TablePage): seq<Request> {
    var log' := log + [ListTables(token)];
    if page.reply.Failure? then log' else LogAfterTables(log', page.reply.value.tables, page.runs)
  }

  predicate PageFails(page: TablePage) {
    page.reply.Failure? || RunsFail(page.runs)
  }

  // All replies to a catalog load, from a page token on; a failing page is the last.
  ghost predicate IsCatalogRun(s: Service, token: string, log: seq<Request>, pages: seq<TablePage>)
    decreases |pages|
  {
    && pages != []
    && pages[0].reply == ParseTables(s.tables(log + [ListTables(token)]))
    && (if pages[0].reply.Failure? then pages[0].runs == []
        else AreTableRuns(s, pages[0].reply.value.tables, log + [ListTables(token)], pages[0].runs))
    && if PageFails(pages[0]) || pages[0].reply.value.nextPageToken == "" then |pages| == 1
       else IsCatalogRun(s, pages[0].reply.value.nextPageToken, LogAfterPage(token, log, pages[0]), pages[1..])
  }

  // The log when the catalog is loaded.
  function LogAfterCatalog(token: string, log: seq<Request>, pages: seq<TablePage>): seq<Request>
    decreases |pages|
  {
    if pages == [] then log
    else if PageFails(pages[0]) then LogAfterPage(token, log, pages[0])
    else LogAfterCatalog(pages[0].reply.value.nextPageToken, LogAfterPage(token, log, pages[0]), pages[1..])
  }

  predicate CatalogFails(pages: seq<TablePage>) {
    pages != [] && PageFails(pages[|pages| - 1])
  }

  function PageTables(withMetadata: bool, page: TablePage): seq<CatalogTableInfo> {
    if page.reply.Failure? || |page.runs| != |page.reply.value.tables| then []
    else LoadedTables(withMetadata, page.reply.value.tables, page.runs)
  }

  // The catalog: every table of every page, in order, with all of its columns.
  function CatalogOf(withMetadata: bool, pages: seq<TablePage>): seq<CatalogTableInfo> {
    if pages == [] then []
    else CatalogOf(withMetadata, pages[..|pages| - 1]) + PageTables(withMetadata, pages[|pages| - 1])
  }

  datatype CatalogRun = CatalogRun(service: Service, withMetadata: bool, log: seq<Request>, pages: seq<TablePage>) {
    function LogAfter(): seq<Request> {
      LogAfterCatalog("", log, pages)
    }
  }

  // The state of the loop over the pages of tables: the first k of them are loaded, and
  // there are more exactly when the token is not empty (or none is loaded yet).
  ghost predicate Paging(run: CatalogRun, k: nat, token: string, log: seq<Request>, loaded: seq<CatalogTableInfo>) {
    forall look {:trigger LookInside(look)} :: LookInside(look) ==>
      && k <= |run.pages| && loaded == CatalogOf(run.withMetadata, run.pages[..k])
      && if k > 0 && token == "" then k == |run.pages| && log == run.LogAfter() && !CatalogFails(run.pages)
         else
           && IsCatalogRun(run.service, token, log, run.pages[k..])
           && LogAfterCatalog(token, log, run.pages[k..]) == run.LogAfter()
  }

  // One page was loaded, or could not be.
  ghost predicate PageDone(run: CatalogRun, k: nat, token: string, log: seq<Request>, after: seq<Request>,
                           tables: seq<CatalogTableInfo>, next: string)
  {
    forall look {:trigger LookInside(look)} :: LookInside(look) ==>
      && k < |run.pages| && !PageFails(run.pages[k])
      && after == LogAfterPage(token, log, run.pages[k]) && tables == PageTables(run.withMetadata, run.pages[k])
      && next == run.pages[k].reply.value.nextPageToken
  }

  ghost predicate PageFailed(run: CatalogRun, k: nat, token: string, log: seq<Request>, after: seq<Request>) {
    forall look {:trigger LookInside(look)} :: LookInside(look) ==>
      k < |run.pages| && PageFails(run.pages[k]) && after == LogAfterPage(token, log, run.pages[k])
  }

  lemma PagingStart(run: CatalogRun)
    requires IsCatalogRun(run.service, "", run.log, run.pages)
    ensures Paging(run, 0, "", run.log, [])
  {
    assert run.pages[0..] == run.pages;
  }

  lemma PagingReply(run: CatalogRun, k: nat, token: string, log: seq<Request>, loaded: seq<CatalogTableInfo>)
    requires Paging(run, k, token, log, loaded) && (k > 0 ==> token != "")
    ensures k < |run.pages|
    ensures var page, log' := run.pages[k], log + [ListTables(token)];
            && page.reply == ParseTables(run.service.tables(log'))
            && (page.reply.Success? ==> AreTableRuns(run.service, page.reply.value.tables, log', page.runs))
  {
    assert LookInside(0);
    assert run.pages[k..][0] == run.pages[k];
  }

  lemma PagingFails(run: CatalogRun, k: nat, token: string, log: seq<Request>, loaded: seq<CatalogTableInfo>,
                    after: seq<Request>)
    requires Paging(run, k, token, log, loaded) && (k > 0 ==> token != "")
    requires PageFailed(run, k, token, log, after)
    ensures CatalogFails(run.pages) && after == run.LogAfter()
  {
    assert LookInside(0);
    assert run.pages[k..][0] == run.pages[k];
  }

  lemma CatalogNext(withMetadata: bool, pages: seq<TablePage>, k: nat)
    requires k < |pages|
    ensures CatalogOf(withMetadata, pages[..k + 1]) == CatalogOf(withMetadata, pages[..k]) + PageTables(withMetadata, pages[k])
  {
    assert pages[..k + 1][..k] == pages[..k];
  }

  lemma CatalogStep(s: Service, token: string, log: seq<Request>, pages: seq<TablePage>, k: nat)
    requires k < |pages| && IsCatalogRun(s, token, log, pages[k..]) && !PageFails(pages[k])
    ensures var next, after := pages[k].reply.value.nextPageToken, LogAfterPage(token, log, pages[k]);
            && LogAfterCatalog(token, log, pages[k..]) == LogAfterCatalog(next, after, pages[k + 1..])
            && (if next == "" then |pages| == k + 1 else IsCatalogRun(s, next, after, pages[k + 1..]))
  {
    assert pages[k..][0] == pages[k] && pages[k..][1..] == pages[k + 1..];
  }

  lemma PagingLast(run: CatalogRun, k: nat, token: string, log: seq<Request>, loaded: seq<CatalogTableInfo>,
                   after: seq<Request>, tables: seq<CatalogTableInfo>)
    requires Paging(run, k, token, log, loaded) && (k > 0 ==> token != "")
    requires PageDone(run, k, token, log, after, tables, "")
    ensures k < |run.pages| && Paging(run, k + 1, "", after, loaded + tables)
  {
    assert LookInside(0);
    CatalogNext(run.withMetadata, run.pages, k);
    CatalogStep(run.service, token, log, run.pages, k);
  }

  lemma PagingNext(run: CatalogRun, k: nat, token: string, log: seq<Request>, loaded: seq<CatalogTableInfo>,
                   after: seq<Request>, tables: seq<CatalogTableInfo>, next: string)
    requires Paging(run, k, token, log, loaded) && (k > 0 ==> token != "")
    requires PageDone(run, k, token, log, after, tables, next) && next != ""
    ensures k < |run.pages| && Paging(run, k + 1, next, after, loaded + tables)
  {
    assert LookInside(0);
    CatalogNext(run.withMetadata, run.pages, k);
    CatalogStep(run.service, token, log, run.pages, k);
  }

  lemma PagingEnd(run: CatalogRun, k: nat, log: seq<Request>, loaded: seq<CatalogTableInfo>)
    requires Paging(run, k, "", log, loaded) && k > 0
    ensures log == run.LogAfter() && !CatalogFails(run.pages) && loaded == CatalogOf(run.withMetadata, run.pages)
  {
    assert LookInside(0);
    assert run.pages[..|run.pages|] == run.pages;
  }

  // One page of tables, taken over with its token.
  method ListTablesPage(remote: Remote, heap: Heap, pageToken: string)
      returns (r: Result<TableList, Error>)
    requires heap.Valid()
    modifies remote, heap
    ensures heap.Valid() && old(heap.live) <= heap.live
    ensures remote.log == old(remote.log) + [ListTables(pageToken)]
    ensures r.Failure? ==> ParseTables(remote.service.tables(remote.log)) == Failure(r.error)
    ensures r.Success? ==>
              && ParseTables(remote.service.tables(remote.log))
                 == Success(TablesPage(Map(TableText, r.value.items.items), r.value.nextPageToken.text))
              && heap.live == old(heap.live) + TablesOwn(heap.watched, r.value.items)
                              + StrOwns(heap.watched, r.value.nextPageToken)
  {
    var reply := remote.SendListTables(ListTables(pageToken));
    if reply.Failure? {
      return Failure(reply.error);
    }
    ghost var leaked, stray;
    r, leaked, stray := TablesFromJson(reply.value, heap);
  }

  // One turn of the page loop: a page of tables and the columns of each.
  method LoadPage(remote: Remote, heap: Heap, withMetadata: bool, pageToken: string,
                  ghost run: CatalogRun, ghost k: nat, ghost done: seq<CatalogTableInfo>)
      returns (r: Result<seq<CatalogTable>, Error>, nextPageToken: string)
    requires heap.Valid() && run.service == remote.service && run.withMetadata == withMetadata
    requires Paging(run, k, pageToken, remote.log, done) && (k > 0 ==> pageToken != "")
    modifies remote, heap
    ensures heap.Valid() && old(heap.live) <= heap.live
    ensures r.Failure? ==> PageFailed(run, k, pageToken, old(remote.log), remote.log)
    ensures r.Success? ==>
              && PageDone(run, k, pageToken, old(remote.log), remote.log, Map(CatalogTableText, r.value), nextPageToken)
              && heap.live == old(heap.live) + AllOwn(CatalogTableOwns, heap.watched, r.value)
  {
    PagingReply(run, k, pageToken, remote.log, done);
    nextPageToken := "";
    var listed := ListTablesPage(remote, heap, pageToken);
    if listed.Failure? {
      r := Failure(listed.error);
      return;
    }
    var tables := heap.FromRaw(listed.value.items);
    ghost var loading := TablesRun(remote.service, withMetadata, remote.log, run.pages[k].reply.value.tables,
                                   run.pages[k].runs);
    LoadingStart(loading);
    r := LoadTables(remote, heap, withMetadata, tables, loading);
    assert LookInside(0);
    if r.Failure? {
      return;
    }
    nextPageToken := heap.Read(listed.value.nextPageToken);
    heap.FreeString(listed.value.nextPageToken);
  }

  // load_catalog
  method LoadCatalog(remote: Remote, heap: Heap, withMetadata: bool, ghost pages: seq<TablePage>)
      returns (r: Result<Raw<CatalogTable>, Error>)
    requires heap.Valid() && IsCatalogRun(remote.service, "", remote.log, pages)
    modifies remote, heap
    ensures heap.Valid() && old(heap.live) <= heap.live
    ensures remote.log == LogAfterCatalog("", old(remote.log), pages)
    ensures r.Failure? <==> CatalogFails(pages)
    ensures r.Success? ==> Map(CatalogTableText, r.value.items) == CatalogOf(withMetadata, pages)
    ensures r.Success? ==> heap.live == old(heap.live) + CatalogOwns(heap.watched, r.value)
  {
    var tables: seq<CatalogTable> := [];
    var pageToken := "";
    ghost var k: nat := 0;
    ghost var run := CatalogRun(remote.service, withMetadata, remote.log, pages);
    PagingStart(run);
    while true
      invariant heap.Valid() && heap.live == old(heap.live) + AllOwn(CatalogTableOwns, heap.watched, tables)
      invariant k <= |pages| && Paging(run, k, pageToken, remote.log, Map(CatalogTableText, tables))
      invariant k > 0 ==> pageToken != ""
      decreases |pages| - k
    {
      ghost var token, log, done := pageToken, remote.log, Map(CatalogTableText, tables);
      var loaded;
      loaded, pageToken := LoadPage(remote, heap, withMetadata, pageToken, run, k, done);
      if loaded.Failure? {
        PagingFails(run, k, token, log, done, remote.log);
        return Failure(loaded.error);
      }
      if pageToken == "" {
        PagingLast(run, k, token, log, done, remote.log, Map(CatalogTableText, loaded.value));
      } else {
        PagingNext(run, k, token, log, done, remote.log, Map(CatalogTableText, loaded.value), pageToken);
      }
      AllOwnConcat(CatalogTableOwns, heap.watched, tables, loaded.value);
      MapConcat(CatalogTableText, tables, loaded.value);
      tables := tables + loaded.value;
      k := k + 1;
      if pageToken == "" {
        break;
      }
    }
    PagingEnd(run, k, remote.log, Map(CatalogTableText, tables));
    var raw := heap.IntoRaw(tables);
    r := Success(raw);
  }

  function CatalogOwns(p: Ptr, catalog: Raw<CatalogTable>): nat {
    Owns(p, catalog.ptr) + AllOwn(CatalogTableOwns, p, catalog.items)
  }

  // free_catalog
  method FreeCatalog(catalog: Raw<CatalogTable>, heap: Heap)
    requires heap.Valid() && CatalogOwns(heap.watched, catalog) <= heap.live
    modifies heap
    ensures heap.Valid() && heap.live == old(heap.live) - CatalogOwns(heap.watched, catalog)
  {
    var tables := heap.FromRaw(catalog);
    assert tables[0..] == tables;
    ghost var frame := heap.live - AllOwn(CatalogTableOwns, heap.watched, tables);
    for i := 0 to |tables|
      invariant heap.Valid() && heap.live == frame + AllOwn(CatalogTableOwns, heap.watched, tables[i..])
    {
      AllOwnHead(CatalogTableOwns, heap.watched, tables, i);
      heap.FreeString(tables[i].id);
      heap.FreeString(tables[i].name);
      FreeColumns(tables[i].columns, heap);
    }
  }
}
