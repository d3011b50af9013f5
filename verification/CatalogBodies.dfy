// A catalog from the bodies that the service sends to the tables and columns that come out.
module CatalogBodies {
  import opened AsciiText
  import opened CatalogClient
  import opened CatalogRules
  import opened CodaJson
  import opened CodaService
  import opened DuckValues
  import opened Ffi
  import opened Naming
  import opened Owners
  import opened ScanBodies
  import opened Sequences
  import opened Wrappers

  // ------------------------------------------------------- columns and items

  predicate ItemIsArray(item: ColumnItem) {
    item.format.Some? && item.format.value.isArray == Some(true)
  }

  // The type of an item: a list of anything is text, and so is every format that is neither a
  // checkbox nor one of the numbers.
  function ItemType(item: ColumnItem): LogicalType {
    if ItemIsArray(item) || item.format.None? || item.format.value.formatType.None? then VARCHAR
    else
      var format := item.format.value.formatType.value;
      if EqIgnoreCase(format, "checkbox") then BOOLEAN
      else if IsNumeric(format) then DOUBLE
      else VARCHAR
  }

  predicate IsNumeric(format: string) {
    || EqIgnoreCase(format, "number") || EqIgnoreCase(format, "currency") || EqIgnoreCase(format, "percent")
    || EqIgnoreCase(format, "duration") || EqIgnoreCase(format, "slider") || EqIgnoreCase(format, "scale")
  }

  lemma {:induction false} NumericFormats(format: string)
    ensures IsNumeric(format) <==> exists k :: 0 <= k < |NUMERIC_FORMATS| && EqIgnoreCase(format, NUMERIC_FORMATS[k])
  {
    assert NUMERIC_FORMATS[0] == "number" && NUMERIC_FORMATS[1] == "currency" && NUMERIC_FORMATS[2] == "percent";
    assert NUMERIC_FORMATS[3] == "duration" && NUMERIC_FORMATS[4] == "slider" && NUMERIC_FORMATS[5] == "scale";
  }

  // A column does what its item says: it is editable exactly when that is not calculated.
  ghost predicate ColumnOf(item: ColumnItem, c: ColumnInfo) {
    && item.id == Some(c.id) && item.name.Some?
    && (Has(c.capabilities, COLUMN_EDITABLE) <==> item.calculated != Some(true))
    && (Has(c.capabilities, COLUMN_GENERATED) <==> item.calculated == Some(true))
    && (Has(c.capabilities, COLUMN_FILTER_EQUALITY) <==> !ItemIsArray(item))
    && !Has(c.capabilities, COLUMN_SYSTEM) && !Has(c.capabilities, COLUMN_SORT_ASC)
    && DuckType(c.logicalType) == ItemType(item)
  }

  ghost predicate ColumnsOf(items: seq<ColumnItem>, columns: seq<ColumnInfo>) {
    |columns| == |items| && forall i :: 0 <= i < |items| ==>
      ColumnOf(items[i], columns[i]) && items[i].name == Some(columns[i].name)
  }

  lemma {:induction false} ParsedColumn(item: ColumnItem)
    ensures ParseColumn(item).Success? <==> item.id.Some? && item.name.Some?
    ensures ParseColumn(item).Success? ==>
              ColumnOf(item, ParseColumn(item).value) && item.name == Some(ParseColumn(item).value.name)
  {
    ColumnCapabilityRules(item.calculated.GetOr(false), IsArray(item));
    NumericFormats(FormatType(item));
    TextIsNoFormat();
  }

  lemma {:induction false} TextIsNoFormat()
    ensures CodaJson.LogicalType("text", false) == 0
  {
    NumericFormats("text");
  }

  ghost predicate Named(items: seq<ColumnItem>) {
    forall i :: 0 <= i < |items| ==> items[i].id.Some? && items[i].name.Some?
  }

  lemma {:induction false} ColumnItemsParse(items: seq<ColumnItem>)
    ensures ParseAll(ParseColumn, items).Success? <==> Named(items)
    ensures Named(items) ==> ColumnsOf(items, ParseAll(ParseColumn, items).value)
  {
    if items != [] {
      var n := |items| - 1;
      ColumnItemsParse(items[..n]);
      ParsedColumn(items[n]);
      assert items == items[..n] + [items[n]];
      assert Named(items) <==> Named(items[..n]) && items[n].id.Some? && items[n].name.Some?;
    }
  }

  // ------------------------------------------------------- tables and items

  predicate IsTable(item: TableItem) {
    item.tableType.None? || EqIgnoreCase(item.tableType.value, "table")
  }

  // What is no table is a view, and takes no writes.
  ghost predicate TableOf(item: TableItem, id: string, name: string, caps: Caps) {
    && item.id == Some(id) && item.name == Some(name)
    && (Has(caps, TABLE_INSERT) <==> IsTable(item)) && (Has(caps, TABLE_UPDATE) <==> IsTable(item))
    && (Has(caps, TABLE_DELETE) <==> IsTable(item)) && (Has(caps, TABLE_VIEW) <==> !IsTable(item))
    && Has(caps, TABLE_ROW_ID)
  }

  ghost predicate TablesOf(items: seq<TableItem>, tables: seq<TableInfo>) {
    |tables| == |items|
    && forall i :: 0 <= i < |items| ==> TableOf(items[i], tables[i].id, tables[i].name, tables[i].capabilities)
  }

  lemma {:induction false} ParsedTable(item: TableItem)
    ensures ParseTable(item).Success? <==> item.id.Some? && item.name.Some?
    ensures ParseTable(item).Success? ==>
              var t := ParseTable(item).value; TableOf(item, t.id, t.name, t.capabilities)
  {
    assert EqIgnoreCase("table", "table");
  }

  ghost predicate TablesNamed(items: seq<TableItem>) {
    forall i :: 0 <= i < |items| ==> items[i].id.Some? && items[i].name.Some?
  }

  lemma {:induction false} TableItemsParse(items: seq<TableItem>)
    ensures ParseAll(ParseTable, items).Success? <==> TablesNamed(items)
    ensures TablesNamed(items) ==> TablesOf(items, ParseAll(ParseTable, items).value)
  {
    if items != [] {
      var n := |items| - 1;
      TableItemsParse(items[..n]);
      ParsedTable(items[n]);
      assert items == items[..n] + [items[n]];
      assert TablesNamed(items) <==> TablesNamed(items[..n]) && items[n].id.Some? && items[n].name.Some?;
    }
  }

  // ------------------------------------------------------- bodies

  ghost predicate ColumnsReadable(body: ColumnsBody) {
    body.items.Some? && Named(body.items.value)
  }

  ghost predicate TablesReadable(body: TablesBody) {
    body.items.Some? && TablesNamed(body.items.value)
  }

  function ColumnsReplyOf(body: ColumnsBody): ColumnsReply {
    ParseColumns(Success(body))
  }

  lemma {:induction false} ColumnsBodyParses(body: ColumnsBody)
    ensures ColumnsReplyOf(body).Success? <==> ColumnsReadable(body)
    ensures ColumnsReadable(body) ==>
              var page := ColumnsReplyOf(body).value;
              && ColumnsOf(body.items.value, page.columns)
              && page.nextPageToken == if HasToken(body.nextPageToken) then body.nextPageToken.value else ""
  {
    if body.items.Some? {
      ColumnItemsParse(body.items.value);
    }
  }

  lemma {:induction false} TablesBodyParses(body: TablesBody)
    ensures ParseTables(Success(body)).Success? <==> TablesReadable(body)
    ensures TablesReadable(body) ==>
              var page := ParseTables(Success(body)).value;
              && TablesOf(body.items.value, page.tables)
              && page.nextPageToken == if HasToken(body.nextPageToken) then body.nextPageToken.value else ""
  {
    if body.items.Some? {
      TableItemsParse(body.items.value);
    }
  }

  // ------------------------------------------------------- the columns of a table

  // The pages of columns: as long as a body has a token, the page of that token is asked for.
  ghost predicate ColumnsTranscript(s: Service, tableId: string, token: string, log: seq<Request>, bodies: seq<ColumnsBody>)
    decreases |bodies|
  {
    && bodies != [] && s.columns(log + [ListColumns(tableId, token)]) == Success(bodies[0])
    && ColumnsReadable(bodies[0])
    && if HasToken(bodies[0].nextPageToken) then
         ColumnsTranscript(s, tableId, bodies[0].nextPageToken.value, log + [ListColumns(tableId, token)], bodies[1..])
       else |bodies| == 1
  }

  function ColumnsAsked(tableId: string, token: string, bodies: seq<ColumnsBody>): seq<Request>
    decreases |bodies|
  {
    if bodies == [] then []
    else
      [ListColumns(tableId, token)] + ColumnsAsked(tableId, bodies[0].nextPageToken.GetOr(""), bodies[1..])
  }

  function ColumnItems(bodies: seq<ColumnsBody>): seq<ColumnItem> {
    if bodies == [] then [] else bodies[0].items.GetOr([]) + ColumnItems(bodies[1..])
  }

  function RunOfBodies(bodies: seq<ColumnsBody>): seq<ColumnsReply> {
    Map(ColumnsReplyOf, bodies)
  }

  lemma {:induction false} ColumnsTogether(items: seq<ColumnItem>, columns: seq<ColumnInfo>, more: seq<ColumnItem>,
                                           others: seq<ColumnInfo>)
    requires ColumnsOf(items, columns) && ColumnsOf(more, others)
    ensures ColumnsOf(items + more, columns + others)
  {
  }

  lemma {:induction false} ColumnsTranscriptIsRun(s: Service, tableId: string, token: string, log: seq<Request>,
                                                  bodies: seq<ColumnsBody>)
    requires ColumnsTranscript(s, tableId, token, log, bodies)
    ensures var run := RunOfBodies(bodies);
            && IsColumnRun(s, tableId, token, log, run) && !ColumnsFail(run)
            && ColumnRequests(tableId, token, run) == ColumnsAsked(tableId, token, bodies)
            && ColumnsOf(ColumnItems(bodies), AllColumns(run))
    decreases |bodies|
  {
    var body, run := bodies[0], RunOfBodies(bodies);
    ColumnsBodyParses(body);
    MapHead(ColumnsReplyOf, bodies);
    if HasToken(body.nextPageToken) {
      ColumnsTranscriptIsRun(s, tableId, body.nextPageToken.value, log + [ListColumns(tableId, token)], bodies[1..]);
    } else {
      assert bodies[1..] == [] && run[1..] == [];
    }
    ColumnsTogether(body.items.value, run[0].value.columns, ColumnItems(bodies[1..]), AllColumns(run[1..]));
  }

  // Every run that does not fail is such a transcript.
  lemma {:induction false} ColumnRunHasTranscript(s: Service, tableId: string, token: string, log: seq<Request>,
                                                  run: seq<ColumnsReply>) returns (bodies: seq<ColumnsBody>)
    requires IsColumnRun(s, tableId, token, log, run) && !ColumnsFail(run)
    ensures ColumnsTranscript(s, tableId, token, log, bodies) && RunOfBodies(bodies) == run
    decreases |run|
  {
    var log' := log + [ListColumns(tableId, token)];
    assert run[0].Success?;
    var body := s.columns(log').value;
    ColumnsBodyParses(body);
    bodies := [body];
    if HasToken(body.nextPageToken) {
      var later := ColumnRunHasTranscript(s, tableId, body.nextPageToken.value, log', run[1..]);
      bodies := [body] + later;
      assert bodies[1..] == later;
    } else {
      assert run[1..] == [] && bodies[1..] == [];
    }
    MapHead(ColumnsReplyOf, bodies);
    assert run == [run[0]] + run[1..] && RunOfBodies(bodies) == [RunOfBodies(bodies)[0]] + RunOfBodies(bodies)[1..];
  }
  // ------------------------------------------------------- the tables of a page

  // The columns of every table of a page, table by table.
  ghost predicate TablesTranscript(s: Service, items: seq<TableItem>, log: seq<Request>, columns: seq<seq<ColumnsBody>>)
    decreases |items|
  {
    |columns| == |items| && (items != [] ==>
      && items[0].id.Some? && ColumnsTranscript(s, items[0].id.value, "", log, columns[0])
      && TablesTranscript(s, items[1..], log + ColumnsAsked(items[0].id.value, "", columns[0]), columns[1..]))
  }

  function TablesAsked(items: seq<TableItem>, columns: seq<seq<ColumnsBody>>): seq<Request>
    decreases |items|
  {
    if items == [] || columns == [] then []
    else ColumnsAsked(items[0].id.GetOr(""), "", columns[0]) + TablesAsked(items[1..], columns[1..])
  }

  function RunsOfBodies(columns: seq<seq<ColumnsBody>>): seq<seq<ColumnsReply>> {
    Map(RunOfBodies, columns)
  }

  ghost predicate RunsSucceed(runs: seq<seq<ColumnsReply>>) {
    forall i :: 0 <= i < |runs| ==> !ColumnsFail(runs[i])
  }

  lemma {:induction false} TablesTranscriptIsRun(s: Service, items: seq<TableItem>, tables: seq<TableInfo>,
                                                 log: seq<Request>, columns: seq<seq<ColumnsBody>>)
    requires TablesTranscript(s, items, log, columns) && TablesOf(items, tables)
    ensures var runs := RunsOfBodies(columns);
            && AreTableRuns(s, tables, log, runs) && RunsSucceed(runs)
            && LogAfterTables(log, tables, runs) == log + TablesAsked(items, columns)
    ensures forall i :: 0 <= i < |items| ==> ColumnsOf(ColumnItems(columns[i]), AllColumns(RunOfBodies(columns[i])))
    decreases |items|
  {
    var runs := RunsOfBodies(columns);
    if items != [] {
      MapHead(RunOfBodies, columns);
      ColumnsTranscriptIsRun(s, items[0].id.value, "", log, columns[0]);
      assert TableOf(items[0], tables[0].id, tables[0].name, tables[0].capabilities);
      var asked := ColumnsAsked(items[0].id.value, "", columns[0]);
      TablesTranscriptIsRun(s, items[1..], tables[1..], log + asked, columns[1..]);
      Assoc(log, asked, TablesAsked(items[1..], columns[1..]));
      assert forall i :: 0 < i < |items| ==> columns[i] == columns[1..][i - 1];
      assert forall i :: 0 < i < |runs| ==> runs[i] == runs[1..][i - 1];
    }
  }

  lemma {:induction false} TableRunsHaveTranscript(s: Service, items: seq<TableItem>, tables: seq<TableInfo>,
                                                   log: seq<Request>, runs: seq<seq<ColumnsReply>>)
      returns (columns: seq<seq<ColumnsBody>>)
    requires AreTableRuns(s, tables, log, runs) && !RunsFail(runs) && TablesOf(items, tables)
    ensures TablesTranscript(s, items, log, columns) && RunsOfBodies(columns) == runs
    decreases |items|
  {
    columns := [];
    if items != [] {
      assert TableOf(items[0], tables[0].id, tables[0].name, tables[0].capabilities);
      assert runs[1..] != [] ==> runs[1..][|runs[1..]| - 1] == runs[|runs| - 1];
      var first := ColumnRunHasTranscript(s, tables[0].id, "", log, runs[0]);
      ColumnsTranscriptIsRun(s, tables[0].id, "", log, first);
      var later := TableRunsHaveTranscript(s, items[1..], tables[1..], log + ColumnRequests(tables[0].id, "", runs[0]), runs[1..]);
      columns := [first] + later;
      assert columns[1..] == later;
      MapHead(RunOfBodies, columns);
      assert runs == [runs[0]] + runs[1..];
    }
  }
  // ------------------------------------------------------- the pages of tables

  datatype BodyPage = BodyPage(tables: TablesBody, columns: seq<seq<ColumnsBody>>) {
    function Items(): seq<TableItem> {
      tables.items.GetOr([])
    }

    function Asked(token: string): seq<Request> {
      [ListTables(token)] + TablesAsked(Items(), columns)
    }
  }

  // The page is what the service answers, with the columns of its tables. (Folded, as
  // Wrappers.LookInside says.)
  ghost predicate Answers(s: Service, token: string, log: seq<Request>, page: BodyPage) {
    forall look {:trigger LookInside(look)} :: LookInside(look) ==>
      && s.tables(log + [ListTables(token)]) == Success(page.tables) && TablesReadable(page.tables)
      && TablesTranscript(s, page.Items(), log + [ListTables(token)], page.columns)
  }

  // As long as a body has a token, the page of that token is asked for, after the columns of the
  // tables in the body.
  ghost predicate CatalogTranscript(s: Service, token: string, log: seq<Request>, pages: seq<BodyPage>)
    decreases |pages|
  {
    && pages != [] && Answers(s, token, log, pages[0])
    && if HasToken(pages[0].tables.nextPageToken) then
         CatalogTranscript(s, pages[0].tables.nextPageToken.value, log + pages[0].Asked(token), pages[1..])
       else |pages| == 1
  }

  function CatalogAsked(token: string, pages: seq<BodyPage>): seq<Request>
    decreases |pages|
  {
    if pages == [] then []
    else pages[0].Asked(token) + CatalogAsked(pages[0].tables.nextPageToken.GetOr(""), pages[1..])
  }

  function PageOf(page: BodyPage): TablePage {
    TablePage(ParseTables(Success(page.tables)), RunsOfBodies(page.columns))
  }

  // A page of a run, that is loaded and followed by these. (Folded as well.)
  ghost predicate PageLoads(s: Service, token: string, log: seq<Request>, page: TablePage, after: seq<Request>, next: string) {
    forall look {:trigger LookInside(look)} :: LookInside(look) ==>
      && page.reply == ParseTables(s.tables(log + [ListTables(token)])) && page.reply.Success?
      && AreTableRuns(s, page.reply.value.tables, log + [ListTables(token)], page.runs)
      && !PageFails(page) && LogAfterPage(token, log, page) == after && page.reply.value.nextPageToken == next
  }

  function NextToken(page: BodyPage): string {
    if HasToken(page.tables.nextPageToken) then page.tables.nextPageToken.value else ""
  }

  lemma {:induction false} PageIsLoaded(s: Service, token: string, log: seq<Request>, page: BodyPage)
    requires Answers(s, token, log, page)
    ensures PageLoads(s, token, log, PageOf(page), log + page.Asked(token), NextToken(page)) && PageDescribed(page)
  {
    assert LookInside(0);
    TablesBodyParses(page.tables);
    var tables := PageOf(page).reply.value.tables;
    TablesTranscriptIsRun(s, page.Items(), tables, log + [ListTables(token)], page.columns);
    Assoc(log, [ListTables(token)], TablesAsked(page.Items(), page.columns));
  }

  lemma {:induction false} RunMorePages(s: Service, token: string, log: seq<Request>, run: seq<TablePage>, after: seq<Request>,
                                        next: string)
    requires run != [] && PageLoads(s, token, log, run[0], after, next)
    requires if next == "" then |run| == 1 else IsCatalogRun(s, next, after, run[1..]) && !CatalogFails(run[1..])
    ensures IsCatalogRun(s, token, log, run) && !CatalogFails(run)
    ensures LogAfterCatalog(token, log, run) == if next == "" then after else LogAfterCatalog(next, after, run[1..])
  {
    assert LookInside(0);
  }

  lemma {:induction false} RunLessPages(s: Service, token: string, log: seq<Request>, run: seq<TablePage>)
    requires IsCatalogRun(s, token, log, run) && !CatalogFails(run)
    ensures PageLoads(s, token, log, run[0], LogAfterPage(token, log, run[0]), run[0].reply.value.nextPageToken)
    ensures var next := run[0].reply.value.nextPageToken;
            if next == "" then |run| == 1
            else IsCatalogRun(s, next, LogAfterPage(token, log, run[0]), run[1..]) && !CatalogFails(run[1..])
  {
    assert !PageFails(run[0]) || |run| == 1;
  }

  lemma {:induction false} CatalogTranscriptIsRun(s: Service, token: string, log: seq<Request>, pages: seq<BodyPage>)
    requires CatalogTranscript(s, token, log, pages)
    ensures IsCatalogRun(s, token, log, Map(PageOf, pages)) && !CatalogFails(Map(PageOf, pages))
    ensures LogAfterCatalog(token, log, Map(PageOf, pages)) == log + CatalogAsked(token, pages)
    decreases |pages|
  {
    var page, next := pages[0], NextToken(pages[0]);
    PageIsLoaded(s, token, log, page);
    MapHead(PageOf, pages);
    if next != "" {
      CatalogTranscriptIsRun(s, next, log + page.Asked(token), pages[1..]);
      Assoc(log, page.Asked(token), CatalogAsked(next, pages[1..]));
    } else {
      assert CatalogAsked(page.tables.nextPageToken.GetOr(""), pages[1..]) == [];
    }
    RunMorePages(s, token, log, Map(PageOf, pages), log + page.Asked(token), next);
  }

  // Every load that does not fail is such a transcript.
  lemma {:induction false} CatalogRunHasTranscript(s: Service, token: string, log: seq<Request>, run: seq<TablePage>)
      returns (pages: seq<BodyPage>)
    requires IsCatalogRun(s, token, log, run) && !CatalogFails(run)
    ensures CatalogTranscript(s, token, log, pages) && run == Map(PageOf, pages)
    decreases |run|
  {
    RunLessPages(s, token, log, run);
    var next, after := run[0].reply.value.nextPageToken, LogAfterPage(token, log, run[0]);
    var page := FirstPageBody(s, token, log, run[0], after, next);
    var later: seq<BodyPage> := [];
    if next != "" {
      later := CatalogRunHasTranscript(s, next, after, run[1..]);
    }
    pages := [page] + later;
    assert pages[1..] == later;
    MapHead(PageOf, pages);
    assert run == [run[0]] + run[1..] && Map(PageOf, pages) == [Map(PageOf, pages)[0]] + Map(PageOf, pages)[1..];
  }

  lemma {:induction false} FirstPageBody(s: Service, token: string, log: seq<Request>, first: TablePage, after: seq<Request>,
                                         next: string) returns (page: BodyPage)
    requires PageLoads(s, token, log, first, after, next)
    ensures Answers(s, token, log, page) && first == PageOf(page)
    ensures after == log + page.Asked(token) && next == NextToken(page)
  {
    assert LookInside(0);
    var log' := log + [ListTables(token)];
    var body := s.tables(log').value;
    TablesBodyParses(body);
    var columns := TableRunsHaveTranscript(s, body.items.value, first.reply.value.tables, log', first.runs);
    page := BodyPage(body, columns);
    PageIsLoaded(s, token, log, page);
  }

  // The loads of a catalog that do not fail are exactly the transcripts.
  lemma {:induction false} CatalogRunIsTranscript(s: Service, token: string, log: seq<Request>, run: seq<TablePage>)
    ensures IsCatalogRun(s, token, log, run) && !CatalogFails(run)
            <==> exists pages :: CatalogTranscript(s, token, log, pages) && run == Map(PageOf, pages)
  {
    if IsCatalogRun(s, token, log, run) && !CatalogFails(run) {
      var pages := CatalogRunHasTranscript(s, token, log, run);
    }
    if pages :| CatalogTranscript(s, token, log, pages) && run == Map(PageOf, pages) {
      CatalogTranscriptIsRun(s, token, log, pages);
    }
  }

  // ------------------------------------------------------- the tables that come out

  ghost predicate PageDescribed(page: BodyPage) {
    && TablesReadable(page.tables) && |page.columns| == |page.Items()|
    && forall i :: 0 <= i < |page.columns| ==>
         ColumnsOf(ColumnItems(page.columns[i]), AllColumns(RunOfBodies(page.columns[i])))
  }
  lemma {:induction false} PagesDescribed(s: Service, token: string, log: seq<Request>, pages: seq<BodyPage>, k: nat)
    requires CatalogTranscript(s, token, log, pages) && k < |pages|
    ensures PageDescribed(pages[k])
    decreases |pages|
  {
    PageIsLoaded(s, token, log, pages[0]);
    if k > 0 {
      PagesDescribed(s, NextToken(pages[0]), log + pages[0].Asked(token), pages[1..], k - 1);
    }
  }

  // A table as the service lists it, with all of its columns.
  datatype ListedTable = ListedTable(item: TableItem, columns: seq<ColumnItem>)

  function ListedOn(items: seq<TableItem>, columns: seq<seq<ColumnsBody>>): (listed: seq<ListedTable>)
    requires |items| == |columns|
    ensures |listed| == |items|
  {
    if items == [] then []
    else
      var n := |items| - 1;
      ListedOn(items[..n], columns[..n]) + [ListedTable(items[n], ColumnItems(columns[n]))]
  }

  // The tables of all bodies, in order.
  function Listed(pages: seq<BodyPage>): seq<ListedTable> {
    if pages == [] then []
    else
      var n := |pages| - 1;
      Listed(pages[..n]) +
      if |pages[n].Items()| == |pages[n].columns| then ListedOn(pages[n].Items(), pages[n].columns) else []
  }

  // Column c is called `name` exactly when that is not empty and no column before it has it, and
  // otherwise by a name made from it.
  ghost predicate NamedAfter(name: string, columns: seq<ColumnInfo>, c: nat) {
    && c < |columns| && MadeFrom(name, columns[c].name)
    && (columns[c].name == name <==> name != "" && forall j :: 0 <= j < c ==> !EqIgnoreCase(columns[j].name, name))
  }

  ghost predicate IsMetadata(id: string, c: ColumnInfo) {
    && c.id == id && Has(c.capabilities, COLUMN_GENERATED) && Has(c.capabilities, COLUMN_SYSTEM)
    && Has(c.capabilities, COLUMN_SORT_ASC) && !Has(c.capabilities, COLUMN_EDITABLE)
    && !Has(c.capabilities, COLUMN_FILTER_EQUALITY) && DuckType(c.logicalType) == TIMESTAMP_TZ
  }

  // A table of the catalog is what the service lists, and the row metadata if asked for. (Folded as
  // well.)
  ghost predicate Describes(withMetadata: bool, listed: ListedTable, t: CatalogTableInfo) {
    |t.columns| == |listed.columns| + (if withMetadata then 2 else 0) &&
    forall look {:trigger LookInside(look)} :: LookInside(look) ==>
      && TableOf(listed.item, t.id, t.name, t.capabilities)
      && (forall c :: 0 <= c < |listed.columns| ==>
            ColumnOf(listed.columns[c], t.columns[c]) && NamedAfter(listed.columns[c].name.value, t.columns, c))
      && (withMetadata ==> HasMetadata(t.columns, |listed.columns|))
  }

  ghost predicate HasMetadata(columns: seq<ColumnInfo>, n: nat) {
    && |columns| == n + 2
    && IsMetadata("createdAt", columns[n]) && NamedAfter("createdAt", columns, n)
    && IsMetadata("updatedAt", columns[n + 1]) && NamedAfter("updatedAt", columns, n + 1)
  }

  lemma {:induction false} DescribedColumn(withMetadata: bool, listed: ListedTable, t: CatalogTableInfo, c: nat)
    requires Describes(withMetadata, listed, t) && c < |listed.columns|
    ensures ColumnOf(listed.columns[c], t.columns[c])
  {
    assert LookInside(0);
  }

  lemma {:induction false} DescribedMetadata(listed: ListedTable, t: CatalogTableInfo)
    requires Describes(true, listed, t)
    ensures var n := |listed.columns|;
            IsMetadata("createdAt", t.columns[n]) && IsMetadata("updatedAt", t.columns[n + 1])
  {
    assert LookInside(0);
  }

  lemma {:induction false} DescribedTable(withMetadata: bool, listed: ListedTable, t: CatalogTableInfo)
    requires Describes(withMetadata, listed, t)
    ensures TableOf(listed.item, t.id, t.name, t.capabilities)
  {
    assert LookInside(0);
  }

  lemma {:induction false} ColumnNamed(withMetadata: bool, columns: seq<ColumnInfo>, c: nat)
    requires c < |GivenColumns(withMetadata, columns)|
    ensures |TableColumns(withMetadata, columns)| == |GivenColumns(withMetadata, columns)|
    ensures NamedAfter(GivenColumns(withMetadata, columns)[c].name, TableColumns(withMetadata, columns), c)
  {
    var given, named := GivenColumns(withMetadata, columns), TableColumns(withMetadata, columns);
    var names := Map(InfoName, given);
    forall j | 0 <= j < |given| ensures named[j].name == Prepared(names)[j] && names[j] == given[j].name {
      WithNamesAt(given, Prepared(names), j);
      MapAt(InfoName, given, j);
    }
    RenamedIff(names, c);
    PreparedForm(names, c);
    TakenIff(Prepared(names)[..c], given[c].name, named, c);
  }

  lemma {:induction false} TakenIff(front: seq<string>, name: string, columns: seq<ColumnInfo>, c: nat)
    requires |front| == c <= |columns| && forall j :: 0 <= j < c ==> front[j] == columns[j].name
    ensures Taken(front, name) <==> !(forall j :: 0 <= j < c ==> !EqIgnoreCase(columns[j].name, name))
  {
  }

  lemma {:induction false} MetadataAre(id: string)
    requires id == "createdAt" || id == "updatedAt"
    ensures IsMetadata(id, MetadataColumn(id))
  {
  }

  lemma {:induction false} TableDescribed(withMetadata: bool, item: TableItem, items: seq<ColumnItem>, t: TableInfo,
                                          run: seq<ColumnsReply>)
    requires TableOf(item, t.id, t.name, t.capabilities) && ColumnsOf(items, AllColumns(run))
    ensures Describes(withMetadata, ListedTable(item, items), LoadedTable(withMetadata, t, run))
  {
    var columns := AllColumns(run);
    var given, named := GivenColumns(withMetadata, columns), TableColumns(withMetadata, columns);
    OnlyNamesChange(withMetadata, columns, 0);
    forall c | 0 <= c < |items|
      ensures ColumnOf(items[c], named[c]) && NamedAfter(items[c].name.value, named, c)
    {
      assert given[c] == columns[c];
      OnlyNamesChange(withMetadata, columns, c);
      ColumnNamed(withMetadata, columns, c);
    }
    if withMetadata {
      MetadataDescribed(columns);
    }
  }

  lemma {:induction false} MetadataDescribed(columns: seq<ColumnInfo>)
    ensures HasMetadata(TableColumns(true, columns), |columns|)
  {
    var given, n := GivenColumns(true, columns), |columns|;
    assert given[n] == MetadataColumn("createdAt") && given[n + 1] == MetadataColumn("updatedAt");
    OnlyNamesChange(true, columns, n);
    OnlyNamesChange(true, columns, n + 1);
    ColumnNamed(true, columns, n);
    ColumnNamed(true, columns, n + 1);
    MetadataAre("createdAt");
    MetadataAre("updatedAt");
  }

  ghost predicate AllDescribed(withMetadata: bool, listed: seq<ListedTable>, tables: seq<CatalogTableInfo>) {
    |tables| == |listed| && forall i :: 0 <= i < |listed| ==> Describes(withMetadata, listed[i], tables[i])
  }

  lemma {:induction false} DescribedTogether(withMetadata: bool, a: seq<ListedTable>, ta: seq<CatalogTableInfo>,
                                             b: seq<ListedTable>, tb: seq<CatalogTableInfo>)
    requires AllDescribed(withMetadata, a, ta) && AllDescribed(withMetadata, b, tb)
    ensures AllDescribed(withMetadata, a + b, ta + tb)
  {
  }

  lemma {:induction false} LoadedDescribed(withMetadata: bool, items: seq<TableItem>, tables: seq<TableInfo>,
                                           columns: seq<seq<ColumnsBody>>)
    requires |items| == |columns| && TablesOf(items, tables)
    requires forall i :: 0 <= i < |columns| ==> ColumnsOf(ColumnItems(columns[i]), AllColumns(RunOfBodies(columns[i])))
    ensures AllDescribed(withMetadata, ListedOn(items, columns), LoadedTables(withMetadata, tables, RunsOfBodies(columns)))
  {
    if items != [] {
      var n := |items| - 1;
      LoadedDescribed(withMetadata, items[..n], tables[..n], columns[..n]);
      TableDescribed(withMetadata, items[n], ColumnItems(columns[n]), tables[n], RunOfBodies(columns[n]));
      MapSplit(RunOfBodies, columns, n);
      MapAt(RunOfBodies, columns, n);
      DescribedTogether(withMetadata, ListedOn(items[..n], columns[..n]),
                        LoadedTables(withMetadata, tables[..n], RunsOfBodies(columns[..n])),
                        [ListedTable(items[n], ColumnItems(columns[n]))],
                        [LoadedTable(withMetadata, tables[n], RunOfBodies(columns[n]))]);
    }
  }

  lemma {:induction false} PageTablesDescribed(withMetadata: bool, page: BodyPage)
    requires PageDescribed(page)
    ensures AllDescribed(withMetadata, ListedOn(page.Items(), page.columns), PageTables(withMetadata, PageOf(page)))
  {
    TablesBodyParses(page.tables);
    LoadedDescribed(withMetadata, page.Items(), PageOf(page).reply.value.tables, page.columns);
  }

  // The catalog is exactly the tables that the service lists, in order, each with its own columns.
  lemma {:induction false} PagesTablesDescribed(withMetadata: bool, pages: seq<BodyPage>)
    requires forall k :: 0 <= k < |pages| ==> PageDescribed(pages[k])
    ensures AllDescribed(withMetadata, Listed(pages), CatalogOf(withMetadata, Map(PageOf, pages)))
  {
    if pages != [] {
      var n := |pages| - 1;
      PagesTablesDescribed(withMetadata, pages[..n]);
      PageTablesDescribed(withMetadata, pages[n]);
      MapSplit(PageOf, pages, n);
      MapAt(PageOf, pages, n);
      DescribedTogether(withMetadata, Listed(pages[..n]), CatalogOf(withMetadata, Map(PageOf, pages[..n])),
                        ListedOn(pages[n].Items(), pages[n].columns), PageTables(withMetadata, PageOf(pages[n])));
    }
  }

  lemma {:induction false} CatalogIsListed(s: Service, withMetadata: bool, token: string, log: seq<Request>, pages: seq<BodyPage>)
    requires CatalogTranscript(s, token, log, pages)
    ensures AllDescribed(withMetadata, Listed(pages), CatalogOf(withMetadata, Map(PageOf, pages)))
  {
    forall k | 0 <= k < |pages| ensures PageDescribed(pages[k]) {
      PagesDescribed(s, token, log, pages, k);
    }
    PagesTablesDescribed(withMetadata, pages);
  }
  // From the bodies that the service sends to the catalog.
  method LoadListed(service: Service, watched: Ptr, withMetadata: bool, ghost pages: seq<BodyPage>)
      returns (catalog: Option<seq<CatalogTableInfo>>, sent: seq<Request>, live: nat)
    requires CatalogTranscript(service, "", [], pages)
    ensures catalog.Some? && AllDescribed(withMetadata, Listed(pages), catalog.value)
    ensures sent == CatalogAsked("", pages) && live == 0
  {
    CatalogTranscriptIsRun(service, "", [], pages);
    CatalogIsListed(service, withMetadata, "", [], pages);
    catalog, sent, live := RunCatalog(service, watched, withMetadata, Map(PageOf, pages));
  }
}
