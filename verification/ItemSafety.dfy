// Writes and the items that the service lists: which tables are written, and which columns.
module ItemSafety {
  import opened BridgeWrite
  import opened CatalogBodies
  import opened CatalogClient
  import opened CodaJson
  import opened CodaService
  import opened Dml
  import opened DmlRuns
  import opened Sequences
  import opened WriteSafety
  import opened Wrappers

  predicate Calculated(item: ColumnItem) {
    item.calculated == Some(true)
  }

  // The request assigns to the id of a column that the service lists as calculated, or of the row
  // metadata.
  ghost predicate NamesCalculated(withMetadata: bool, listed: ListedTable, request: Request) {
    || (exists d :: 0 <= d < |listed.columns| && Calculated(listed.columns[d])
                    && Assigns(request, listed.columns[d].id.GetOr("")))
    || (withMetadata && (Assigns(request, "createdAt") || Assigns(request, "updatedAt")))
  }

  // Such a column shares its id with one that is not calculated.
  ghost predicate ItemsShareId(withMetadata: bool, items: seq<ColumnItem>) {
    || (exists c, d :: 0 <= c < |items| && 0 <= d < |items|
                       && !Calculated(items[c]) && Calculated(items[d]) && items[c].id == items[d].id)
    || (withMetadata && exists c :: 0 <= c < |items| && !Calculated(items[c])
                                    && (items[c].id == Some("createdAt") || items[c].id == Some("updatedAt")))
  }

  lemma {:induction false} ListedFacts(item: ColumnItem, c: ColumnInfo)
    requires ColumnOf(item, c)
    ensures Has(c.capabilities, COLUMN_EDITABLE) <==> !Calculated(item)
    ensures (ReadOnly(c) <==> Calculated(item)) && item.id == Some(c.id)
  {
  }

  lemma {:induction false} MetadataFacts(id: string, c: ColumnInfo)
    requires IsMetadata(id, c)
    ensures !Has(c.capabilities, COLUMN_EDITABLE) && ReadOnly(c) && c.id == id
  {
  }

  // Column c of a table, as it is listed.
  ghost predicate ReadsItem(items: seq<ColumnItem>, c: nat, column: ColumnInfo) {
    if c < |items| then
      && (Has(column.capabilities, COLUMN_EDITABLE) <==> !Calculated(items[c]))
      && (ReadOnly(column) <==> Calculated(items[c]))
      && items[c].id == Some(column.id)
    else
      && !Has(column.capabilities, COLUMN_EDITABLE) && ReadOnly(column)
      && column.id == if c == |items| then "createdAt" else "updatedAt"
  }

  lemma {:induction false} ColumnFacts(withMetadata: bool, listed: ListedTable, t: CatalogTableInfo, c: nat)
    requires Describes(withMetadata, listed, t) && c < |t.columns|
    ensures ReadsItem(listed.columns, c, t.columns[c]) && (c >= |listed.columns| ==> withMetadata)
  {
    var n := |listed.columns|;
    if c < n {
      DescribedColumn(withMetadata, listed, t, c);
      ListedFacts(listed.columns[c], t.columns[c]);
      return;
    }
    DescribedMetadata(listed, t);
    MetadataFacts("createdAt", t.columns[n]);
    MetadataFacts("updatedAt", t.columns[n + 1]);
    assert c == n || c == n + 1;
  }

  lemma {:induction false} SameNames(withMetadata: bool, listed: ListedTable, t: CatalogTableInfo, request: Request)
    requires Describes(withMetadata, listed, t)
    ensures NamesReadOnly(t, request) <==> NamesCalculated(withMetadata, listed, request)
  {
    var n := |listed.columns|;
    if NamesReadOnly(t, request) {
      var d :| 0 <= d < |t.columns| && ReadOnly(t.columns[d]) && Assigns(request, t.columns[d].id);
      ColumnFacts(withMetadata, listed, t, d);
    }
    if d :| 0 <= d < n && Calculated(listed.columns[d]) && Assigns(request, listed.columns[d].id.GetOr("")) {
      ColumnFacts(withMetadata, listed, t, d);
    }
    if withMetadata {
      ColumnFacts(withMetadata, listed, t, n);
      ColumnFacts(withMetadata, listed, t, n + 1);
    }
  }

  lemma {:induction false} SameShares(withMetadata: bool, listed: ListedTable, t: CatalogTableInfo)
    requires Describes(withMetadata, listed, t)
    ensures SharesId(t.columns) <==> ItemsShareId(withMetadata, listed.columns)
  {
    if SharesId(t.columns) {
      SharedIsListed(withMetadata, listed, t);
    }
    if ItemsShareId(withMetadata, listed.columns) {
      ListedIsShared(withMetadata, listed, t);
    }
  }

  lemma {:induction false} SharedIsListed(withMetadata: bool, listed: ListedTable, t: CatalogTableInfo)
    requires Describes(withMetadata, listed, t) && SharesId(t.columns)
    ensures ItemsShareId(withMetadata, listed.columns)
  {
    var c, d :| 0 <= c < |t.columns| && 0 <= d < |t.columns|
                && Has(t.columns[c].capabilities, COLUMN_EDITABLE) && ReadOnly(t.columns[d])
                && t.columns[c].id == t.columns[d].id;
    ColumnFacts(withMetadata, listed, t, c);
    ColumnFacts(withMetadata, listed, t, d);
  }

  lemma {:induction false} ListedIsShared(withMetadata: bool, listed: ListedTable, t: CatalogTableInfo)
    requires Describes(withMetadata, listed, t) && ItemsShareId(withMetadata, listed.columns)
    ensures SharesId(t.columns)
  {
    var n, items := |listed.columns|, listed.columns;
    if c, d :| 0 <= c < n && 0 <= d < n && !Calculated(items[c]) && Calculated(items[d]) && items[c].id == items[d].id {
      ColumnFacts(withMetadata, listed, t, c);
      ColumnFacts(withMetadata, listed, t, d);
      return;
    }
    var c :| 0 <= c < n && !Calculated(items[c]) && (items[c].id == Some("createdAt") || items[c].id == Some("updatedAt"));
    var d := if items[c].id == Some("createdAt") then n else n + 1;
    ColumnFacts(withMetadata, listed, t, c);
    ColumnFacts(withMetadata, listed, t, d);
  }

  // No request of a statement on this table names such a column.
  ghost predicate SafeFor(withMetadata: bool, listed: ListedTable, table: CatalogTableInfo, history: seq<Step>) {
    forall k, i :: 0 <= k < |history| && history[k].op.Execute? && history[k].op.write.Table() == table
                   && 0 <= i < |history[k].sent| ==>
      !NamesCalculated(withMetadata, listed, history[k].sent[i])
  }

  ghost predicate AllSafe(withMetadata: bool, listed: seq<ListedTable>, tables: seq<CatalogTableInfo>, history: seq<Step>) {
    |tables| == |listed| && forall t :: 0 <= t < |listed| ==> SafeFor(withMetadata, listed[t], tables[t], history)
  }

  lemma {:induction false} SameSafety(withMetadata: bool, listed: seq<ListedTable>, tables: seq<CatalogTableInfo>, ops: seq<Op>,
                                      history: seq<Step>)
    requires AllDescribed(withMetadata, listed, tables) && Over(ops, tables)
    requires |history| == |ops| && forall k :: 0 <= k < |ops| ==> history[k].op == ops[k]
    ensures SafeRun(history) <==> AllSafe(withMetadata, listed, tables, history)
  {
    forall t, k, i | 0 <= t < |listed| && 0 <= k < |history| && history[k].op.Execute?
                     && history[k].op.write.Table() == tables[t] && 0 <= i < |history[k].sent|
      ensures NamesReadOnly(tables[t], history[k].sent[i]) <==> NamesCalculated(withMetadata, listed[t], history[k].sent[i])
    {
      assert Describes(withMetadata, listed[t], tables[t]);
      SameNames(withMetadata, listed[t], tables[t], history[k].sent[i]);
    }
    if AllSafe(withMetadata, listed, tables, history) {
      forall k, i | 0 <= k < |history| && history[k].op.Execute? && 0 <= i < |history[k].sent|
        ensures !NamesReadOnly(history[k].op.write.Table(), history[k].sent[i])
      {
        assert ops[k].write.Table() in tables;
        var t :| 0 <= t < |tables| && tables[t] == history[k].op.write.Table();
        assert SafeFor(withMetadata, listed[t], tables[t], history);
      }
    }
  }

  lemma {:induction false} SameRunSafety(world: World, withMetadata: bool, listed: seq<ListedTable>,
                                         tables: seq<CatalogTableInfo>, ops: seq<Op>)
    requires AllDescribed(withMetadata, listed, tables) && AllValid(ops) && Over(ops, tables)
    ensures SafeRun(RunOf(world, ops)) <==> AllSafe(withMetadata, listed, tables, RunOf(world, ops))
  {
    forall k | 0 <= k < |ops| ensures RunOf(world, ops)[k].op == ops[k] {
      RunAt(world, ops, k);
    }
    SameSafety(withMetadata, listed, tables, ops, RunOf(world, ops));
  }

  // No listed table shares such an id.
  ghost predicate NoItemsShare(withMetadata: bool, listed: seq<ListedTable>) {
    forall t :: 0 <= t < |listed| && IsTable(listed[t].item) ==> !ItemsShareId(withMetadata, listed[t].columns)
  }

  lemma {:induction false} SameSharing(withMetadata: bool, listed: seq<ListedTable>, tables: seq<CatalogTableInfo>)
    requires AllDescribed(withMetadata, listed, tables)
    ensures NoTableShares(tables) <==> NoItemsShare(withMetadata, listed)
  {
    forall t | 0 <= t < |listed|
      ensures SharesId(tables[t].columns) <==> ItemsShareId(withMetadata, listed[t].columns)
      ensures Has(tables[t].capabilities, TABLE_VIEW) <==> !IsTable(listed[t].item)
    {
      DescribedTable(withMetadata, listed[t], tables[t]);
      SameShares(withMetadata, listed[t], tables[t]);
    }
  }

  lemma {:induction false} ListedRun(s: Service, withMetadata: bool, log: seq<Request>, pages: seq<BodyPage>)
    requires CatalogTranscript(s, "", log, pages)
    ensures IsCatalogRun(s, "", log, Map(PageOf, pages))
    ensures AllDescribed(withMetadata, Listed(pages), CatalogOf(withMetadata, Map(PageOf, pages)))
  {
    CatalogTranscriptIsRun(s, "", log, pages);
    CatalogIsListed(s, withMetadata, "", log, pages);
  }

  // No run over the tables assigns to a calculated column or to the row metadata.
  ghost predicate RunsAreSafe(world: World, withMetadata: bool, listed: seq<ListedTable>, tables: seq<CatalogTableInfo>) {
    forall ops | AllValid(ops) && Over(ops, tables) :: AllSafe(withMetadata, listed, tables, RunOf(world, ops))
  }

  lemma {:induction false} SameRuns(world: World, withMetadata: bool, listed: seq<ListedTable>, tables: seq<CatalogTableInfo>)
    requires AllDescribed(withMetadata, listed, tables)
    ensures (forall ops | AllValid(ops) && Over(ops, tables) :: SafeRun(RunOf(world, ops)))
            <==> RunsAreSafe(world, withMetadata, listed, tables)
  {
    forall ops | AllValid(ops) && Over(ops, tables)
      ensures SafeRun(RunOf(world, ops)) <==> AllSafe(withMetadata, listed, tables, RunOf(world, ops))
    {
      SameRunSafety(world, withMetadata, listed, tables, ops);
    }
  }

  // For every catalog that the service lists, that is so if and only if in no table but a view a
  // calculated column, or the row metadata, share an id with a column that is not calculated.
  lemma {:induction false} ItemWritesAreSafeIff(world: World, s: Service, withMetadata: bool, log: seq<Request>,
                                                pages: seq<BodyPage>)
    requires CatalogTranscript(s, "", log, pages)
    ensures RunsAreSafe(world, withMetadata, Listed(pages), CatalogOf(withMetadata, Map(PageOf, pages)))
            <==> NoItemsShare(withMetadata, Listed(pages))
  {
    var tables, listed := CatalogOf(withMetadata, Map(PageOf, pages)), Listed(pages);
    ListedRun(s, withMetadata, log, pages);
    SameRuns(world, withMetadata, listed, tables);
    SameSharing(withMetadata, listed, tables);
    WritesAreSafeIff(world, s, withMetadata, log, Map(PageOf, pages));
  }

  // The table that a request writes to.
  function WrittenTable(request: Request): Option<string> {
    match request
    case UpsertRows(tableId, _) => Some(tableId)
    case UpdateRow(tableId, _, _) => Some(tableId)
    case DeleteRows(tableId, _) => Some(tableId)
    case _ => None
  }

  // Every request of every run goes to the table of its statement, and that is no view; it is an
  // insert, update or delete as the statement is; and the mode is autocommit.
  lemma {:induction false} OnlyTablesAreWritten(world: World, s: Service, withMetadata: bool, log: seq<Request>,
                                                pages: seq<BodyPage>, ops: seq<Op>, k: nat, i: nat, t: nat)
    requires CatalogTranscript(s, "", log, pages) && AllValid(ops)
    requires k < |ops| && i < |RunOf(world, ops)[k].sent|
    requires t < |CatalogOf(withMetadata, Map(PageOf, pages))|
    requires ops[k].Execute? ==> ops[k].write.Table() == CatalogOf(withMetadata, Map(PageOf, pages))[t]
    ensures t < |Listed(pages)| && ops[k].Execute? && ops[k].context.autoCommit
    ensures var item, request := Listed(pages)[t].item, RunOf(world, ops)[k].sent[i];
            && IsTable(item) && item.id.Some? && WrittenTable(request) == item.id
            && match ops[k].write
               case InsertInto(_) => request.UpsertRows?
               case UpdateSet(_) => request.UpdateRow?
               case DeleteFrom(_, _) => request.DeleteRows?
  {
    CatalogIsListed(s, withMetadata, "", log, pages);
    OnlyPermittedRequests(world, ops, k, i);
    var write, listed := ops[k].write, Listed(pages)[t];
    DescribedTable(withMetadata, listed, write.Table());
    var c: nat, j: nat :| IsRequestOf(world, write, ops[k].chunks, RunOf(world, ops)[k].sent[i], c, j);
    RequestKind(world, write, ops[k].chunks[c], j);
  }

  lemma {:induction false} RequestKind(world: World, write: Write, chunk: DataChunk, j: nat)
    requires write.Fits(chunk) && j < |write.Requests(world.printer, chunk)|
    ensures var request := write.Requests(world.printer, chunk)[j];
            && WrittenTable(request) == Some(write.Table().id)
            && match write
               case InsertInto(_) => request.UpsertRows?
               case UpdateSet(_) => request.UpdateRow?
               case DeleteFrom(_, _) => request.DeleteRows?
  {
    if write.UpdateSet? {
      ChunkUpdateAt(world.printer, write.plan, chunk, chunk.size, j);
    }
  }

}
