// What holds of every loaded catalog: unique column names and safe capabilities.
module CatalogRules {
  import opened CatalogClient
  import opened CodaJson
  import opened CodaService
  import opened Naming
  import opened Sequences

  // A column is editable exactly when it is not calculated. The row metadata are calculated,
  // alone can be sorted by, and take no filter; nor does any other timestamp.
  predicate SoundColumn(c: ColumnInfo) {
    && (Has(c.capabilities, COLUMN_EDITABLE) <==> !Has(c.capabilities, COLUMN_GENERATED))
    && (Has(c.capabilities, COLUMN_SYSTEM) ==> Has(c.capabilities, COLUMN_GENERATED))
    && (Has(c.capabilities, COLUMN_SYSTEM) ==> c.id == "createdAt" || c.id == "updatedAt")
    && (Has(c.capabilities, COLUMN_SORT_ASC) <==> Has(c.capabilities, COLUMN_SYSTEM))
    && (Has(c.capabilities, COLUMN_FILTER_EQUALITY) ==> !Has(c.capabilities, COLUMN_SYSTEM) && 0 <= c.logicalType <= 2)
  }

  // A view takes no writes, and any other table takes them all.
  predicate SoundKind(caps: Caps) {
    var view := Has(caps, TABLE_VIEW);
    Has(caps, TABLE_INSERT) == !view && Has(caps, TABLE_UPDATE) == !view && Has(caps, TABLE_DELETE) == !view
  }

  ghost predicate AllSound(columns: seq<ColumnInfo>) {
    forall i :: 0 <= i < |columns| ==> SoundColumn(columns[i])
  }

  ghost predicate SoundTable(t: CatalogTableInfo) {
    && Distinct(Map(InfoName, t.columns))
    && AllSound(t.columns)
    && SoundKind(t.capabilities)
  }

  ghost predicate SoundTables(tables: seq<CatalogTableInfo>) {
    forall i :: 0 <= i < |tables| ==> SoundTable(tables[i])
  }

  lemma ParsedColumnSound(item: ColumnItem)
    requires ParseColumn(item).Success?
    ensures SoundColumn(ParseColumn(item).value)
  {
    ColumnCapabilityRules(item.calculated.GetOr(false), IsArray(item));
  }

  lemma ParsedTableKind(item: TableItem)
    requires ParseTable(item).Success?
    ensures SoundKind(ParseTable(item).value.capabilities)
  {
  }

  lemma {:induction false} ListedColumnsSound(s: Service, tableId: string, token: string, log: seq<Request>,
                                              replies: seq<ColumnsReply>)
    requires IsColumnRun(s, tableId, token, log, replies)
    ensures AllSound(AllColumns(replies))
    decreases |replies|
  {
    var log' := log + [ListColumns(tableId, token)];
    if replies[0].Success? {
      var page := replies[0].value;
      var items := s.columns(log').value.items.value;
      forall i | 0 <= i < |page.columns| ensures SoundColumn(page.columns[i]) {
        ParseAllAt(ParseColumn, items, i);
        ParsedColumnSound(items[i]);
      }
      if page.nextPageToken != "" {
        ListedColumnsSound(s, tableId, page.nextPageToken, log', replies[1..]);
      } else {
        assert replies[1..] == [];
      }
    }
  }

  lemma {:induction false} NamedSound(columns: seq<ColumnInfo>, names: seq<string>)
    requires |names| == |columns| && AllSound(columns)
    ensures AllSound(WithNames(columns, names)) && Map(InfoName, WithNames(columns, names)) == names
  {
    if columns != [] {
      var n := |columns| - 1;
      NamedSound(columns[..n], names[..n]);
      MapPush(InfoName, WithNames(columns[..n], names[..n]), columns[n].(name := names[n]));
      assert names == names[..n] + [names[n]];
    }
  }

  lemma MetadataSound()
    ensures AllSound(METADATA_COLUMNS)
  {
    assert SoundColumn(MetadataColumn("createdAt")) && SoundColumn(MetadataColumn("updatedAt"));
  }

  lemma TableColumnsSound(withMetadata: bool, listed: seq<ColumnInfo>)
    requires AllSound(listed)
    ensures AllSound(TableColumns(withMetadata, listed))
    ensures Distinct(Map(InfoName, TableColumns(withMetadata, listed)))
  {
    MetadataSound();
    var columns := GivenColumns(withMetadata, listed);
    assert AllSound(columns);
    NamedSound(columns, Prepared(Map(InfoName, columns)));
    PreparedDistinct(Map(InfoName, columns));
  }

  // The columns of a table are the given ones in order, but for their names.
  lemma OnlyNamesChange(withMetadata: bool, listed: seq<ColumnInfo>, i: nat)
    ensures |TableColumns(withMetadata, listed)| == |GivenColumns(withMetadata, listed)|
    ensures i < |GivenColumns(withMetadata, listed)| ==>
              var c := TableColumns(withMetadata, listed)[i];
              c == GivenColumns(withMetadata, listed)[i].(name := c.name)
  {
    var columns := GivenColumns(withMetadata, listed);
    if i < |columns| {
      WithNamesAt(columns, Prepared(Map(InfoName, columns)), i);
    }
  }

  lemma {:induction false} WithNamesAt(columns: seq<ColumnInfo>, names: seq<string>, i: nat)
    requires i < |columns| == |names|
    ensures WithNames(columns, names)[i] == columns[i].(name := names[i])
  {
    if i < |columns| - 1 {
      WithNamesAt(columns[..|columns| - 1], names[..|names| - 1], i);
    }
  }

  // Turning on the metadata columns neither renames nor otherwise changes a column, and adds
  // two read-only ones.
  lemma MetadataKeepsColumns(listed: seq<ColumnInfo>)
    ensures TableColumns(true, listed)[..|listed|] == TableColumns(false, listed)
    ensures |TableColumns(true, listed)| == |listed| + 2
    ensures TableColumns(true, listed)[|listed|].(name := "createdAt") == MetadataColumn("createdAt")
    ensures TableColumns(true, listed)[|listed| + 1].(name := "updatedAt") == MetadataColumn("updatedAt")
  {
    OnlyNamesChange(true, listed, |listed|);
    OnlyNamesChange(true, listed, |listed| + 1);
    FirstColumnsKept(listed);
  }

  lemma FirstColumnsKept(listed: seq<ColumnInfo>)
    ensures TableColumns(true, listed)[..|listed|] == TableColumns(false, listed)
  {
    var plain, names := listed + [], Map(InfoName, listed);
    assert plain == listed;
    var all := listed + METADATA_COLUMNS;
    MapConcat(InfoName, listed, METADATA_COLUMNS);
    PreparedPrefix(names, Map(InfoName, METADATA_COLUMNS));
    assert all[..|listed|] == listed;
    WithNamesFirst(all, Prepared(Map(InfoName, all)), |listed|);
  }

  lemma {:induction false} WithNamesFirst(columns: seq<ColumnInfo>, names: seq<string>, k: nat)
    requires k <= |columns| == |names|
    ensures WithNames(columns, names)[..k] == WithNames(columns[..k], names[..k])
  {
    if k == |columns| {
      assert columns[..k] == columns && names[..k] == names;
    } else {
      var n := |columns| - 1;
      WithNamesFirst(columns[..n], names[..n], k);
      assert columns[..n][..k] == columns[..k] && names[..n][..k] == names[..k];
    }
  }

  lemma {:induction false} LoadedTablesSound(s: Service, withMetadata: bool, tables: seq<TableInfo>, log: seq<Request>,
                                             runs: seq<seq<ColumnsReply>>, i: nat)
    requires AreTableRuns(s, tables, log, runs) && i < |tables| && i < |runs|
    ensures AllSound(AllColumns(runs[i]))
    decreases |tables|
  {
    ListedColumnsSound(s, tables[0].id, "", log, runs[0]);
    if i > 0 {
      LoadedTablesSound(s, withMetadata, tables[1..], log + ColumnRequests(tables[0].id, "", runs[0]), runs[1..], i - 1);
    }
  }

  lemma {:induction false} LoadedAt(withMetadata: bool, tables: seq<TableInfo>, runs: seq<seq<ColumnsReply>>, i: nat)
    requires |tables| == |runs| && i < |tables|
    ensures LoadedTables(withMetadata, tables, runs)[i] == LoadedTable(withMetadata, tables[i], runs[i])
  {
    if i < |tables| - 1 {
      LoadedAt(withMetadata, tables[..|tables| - 1], runs[..|tables| - 1], i);
    }
  }

  lemma PageSound(s: Service, withMetadata: bool, token: string, log: seq<Request>, page: TablePage)
    requires page.reply == ParseTables(s.tables(log + [ListTables(token)]))
    requires page.reply.Success? ==>
               AreTableRuns(s, page.reply.value.tables, log + [ListTables(token)], page.runs)
    ensures SoundTables(PageTables(withMetadata, page))
  {
    var loaded := PageTables(withMetadata, page);
    forall i | 0 <= i < |loaded| ensures SoundTable(loaded[i]) {
      var tables := page.reply.value.tables;
      var items := s.tables(log + [ListTables(token)]).value.items.value;
      LoadedAt(withMetadata, tables, page.runs, i);
      LoadedTablesSound(s, withMetadata, tables, log + [ListTables(token)], page.runs, i);
      TableColumnsSound(withMetadata, AllColumns(page.runs[i]));
      ParseAllAt(ParseTable, items, i);
      ParsedTableKind(items[i]);
    }
  }

  lemma {:induction false} CatalogPages(s: Service, withMetadata: bool, token: string, log: seq<Request>,
                                        pages: seq<TablePage>, k: nat)
    requires IsCatalogRun(s, token, log, pages) && k < |pages|
    ensures SoundTables(PageTables(withMetadata, pages[k]))
    decreases |pages|
  {
    if k == 0 {
      PageSound(s, withMetadata, token, log, pages[0]);
    } else {
      CatalogPages(s, withMetadata, pages[0].reply.value.nextPageToken, LogAfterPage(token, log, pages[0]), pages[1..], k - 1);
    }
  }

  ghost predicate PagesSound(withMetadata: bool, pages: seq<TablePage>) {
    forall k :: 0 <= k < |pages| ==> SoundTables(PageTables(withMetadata, pages[k]))
  }

  lemma {:induction false} CatalogPrefixSound(withMetadata: bool, pages: seq<TablePage>, k: nat)
    requires PagesSound(withMetadata, pages) && k <= |pages|
    ensures SoundTables(CatalogOf(withMetadata, pages[..k]))
  {
    if k > 0 {
      CatalogPrefixSound(withMetadata, pages, k - 1);
      CatalogNext(withMetadata, pages, k - 1);
      SoundTogether(CatalogOf(withMetadata, pages[..k - 1]), PageTables(withMetadata, pages[k - 1]));
    }
  }

  lemma SoundTogether(a: seq<CatalogTableInfo>, b: seq<CatalogTableInfo>)
    requires SoundTables(a) && SoundTables(b)
    ensures SoundTables(a + b)
  {
  }

  // Every catalog that is loaded has, in each table, non-empty column names that differ
  // ignoring case; no calculated or metadata column is editable; and a view takes no writes.
  lemma CatalogSound(s: Service, withMetadata: bool, log: seq<Request>, pages: seq<TablePage>)
    requires IsCatalogRun(s, "", log, pages)
    ensures SoundTables(CatalogOf(withMetadata, pages))
  {
    forall k | 0 <= k < |pages| ensures SoundTables(PageTables(withMetadata, pages[k])) {
      CatalogPages(s, withMetadata, "", log, pages, k);
    }
    CatalogPrefixSound(withMetadata, pages, |pages|);
    assert pages[..|pages|] == pages;
  }
}
