// Which columns writes may name, over all runs on the tables of a loaded catalog.
module WriteSafety {
  import opened BridgeWrite
  import opened CatalogClient
  import opened CatalogRules
  import opened CodaJson
  import opened CodaService
  import opened Dml
  import opened DmlRuns
  import opened DuckValues
  import opened Mutation
  import opened Sequences
  import opened Transactions
  import opened WriteMeaning
  import opened Wrappers

  // ------------------------------------------------------- what requests assign

  ghost predicate Mentions(row: seq<Assignment>, id: string) {
    exists k :: 0 <= k < |row| && row[k].column == id
  }

  // The body of the request, decoded, assigns to a column of this id.
  ghost predicate Assigns(request: Request, id: string) {
    match request
    case UpsertRows(_, payload) =>
      && DecodeInsert(payload).Some?
      && exists r :: 0 <= r < |DecodeInsert(payload).value| && Mentions(DecodeInsert(payload).value[r], id)
    case UpdateRow(_, _, payload) => DecodeUpdate(payload).Some? && Mentions(DecodeUpdate(payload).value, id)
    case _ => false
  }

  // Calculated columns and row metadata.
  predicate ReadOnly(c: ColumnInfo) {
    Has(c.capabilities, COLUMN_GENERATED) || Has(c.capabilities, COLUMN_SYSTEM)
  }

  ghost predicate NamesReadOnly(table: CatalogTableInfo, request: Request) {
    exists d :: 0 <= d < |table.columns| && ReadOnly(table.columns[d]) && Assigns(request, table.columns[d].id)
  }

  // An editable column and a read-only one have the same id.
  predicate SharesId(columns: seq<ColumnInfo>) {
    exists c, d :: 0 <= c < |columns| && 0 <= d < |columns|
                   && Has(columns[c].capabilities, COLUMN_EDITABLE) && ReadOnly(columns[d])
                   && columns[c].id == columns[d].id
  }

  ghost predicate EditableId(columns: seq<ColumnInfo>, id: string) {
    exists c :: 0 <= c < |columns| && Has(columns[c].capabilities, COLUMN_EDITABLE) && columns[c].id == id
  }

  // A row of a chunk assigns to exactly the ids of the editable columns.
  lemma {:induction false} ChunkMentions(columns: seq<ColumnInfo>, chunk: DataChunk, row: nat, id: string)
    requires chunk.Valid() && |columns| <= |chunk.columns| && row < chunk.size
    ensures Mentions(ChunkAssignments(columns, chunk, row), id) <==> EditableId(columns, id)
  {
    if columns != [] {
      var n := |columns| - 1;
      ChunkMentions(columns[..n], chunk, row, id);
      EditableIdPush(columns[..n], columns[n], id);
      assert columns[..n] + [columns[n]] == columns;
      if Has(columns[n].capabilities, COLUMN_EDITABLE) {
        MentionsPush(ChunkAssignments(columns[..n], chunk, row),
                     Assignment(columns[n].id, JsonOf(chunk.GetValue(n, row))), id);
      }
    }
  }

  lemma {:induction false} MentionsPush(row: seq<Assignment>, a: Assignment, id: string)
    ensures Mentions(row + [a], id) <==> Mentions(row, id) || a.column == id
  {
    var all := row + [a];
    assert all[|row|] == a && forall k :: 0 <= k < |row| ==> all[k] == row[k];
  }

  lemma {:induction false} EditableIdPush(columns: seq<ColumnInfo>, c: ColumnInfo, id: string)
    ensures EditableId(columns + [c], id)
            <==> EditableId(columns, id) || (Has(c.capabilities, COLUMN_EDITABLE) && c.id == id)
  {
    var all := columns + [c];
    assert all[|columns|] == c && forall k :: 0 <= k < |columns| ==> all[k] == columns[k];
  }

  lemma {:induction false} InsertAssigns(table: CatalogTableInfo, chunk: DataChunk, id: string)
    requires chunk.Valid() && |table.columns| <= |chunk.columns| && chunk.size > 0
    ensures Assigns(ChunkInsert(table, chunk), id) <==> EditableId(table.columns, id)
  {
    ChunkInsertRoundTrip(table, chunk);
    var rows := ChunkRows(table.columns, chunk, chunk.size);
    forall r | 0 <= r < |rows| ensures Mentions(rows[r], id) <==> EditableId(table.columns, id) {
      ChunkRowAt(table.columns, chunk, chunk.size, r);
      ChunkMentions(table.columns, chunk, r, id);
    }
    assert Mentions(rows[0], id) <==> EditableId(table.columns, id);
  }

  // The editable targets of an update are columns of its table.
  lemma {:induction false} TargetsEditable(plan: UpdatePlan, n: nat, id: string)
    requires n <= |plan.expressions| <= |plan.columns|
    ensures EditableId(plan.Targets(n), id) ==> EditableId(plan.table.columns, id)
  {
    if n > 0 {
      TargetsEditable(plan, n - 1, id);
      EditableIdPush(plan.Targets(n - 1), plan.TargetOf(n - 1), id);
      if !plan.InTable(n - 1) {
        assert !Has(COLUMN_GENERATED, COLUMN_EDITABLE);
      }
    }
  }

  lemma {:induction false} RequestAssigns(printer: Printer, write: Write, chunk: DataChunk, i: nat, id: string)
    requires write.Fits(chunk) && chunk.size > 0 && i < |write.Requests(printer, chunk)|
    requires Assigns(write.Requests(printer, chunk)[i], id)
    ensures EditableId(write.Table().columns, id)
  {
    match write {
      case InsertInto(table) => InsertAssigns(table, chunk, id);
      case UpdateSet(plan) =>
        var targets := plan.Targets(|plan.expressions|);
        ChunkUpdateAt(printer, plan, chunk, chunk.size, i);
        ChunkMentions(targets, plan.Values(chunk), i, id);
        TargetsEditable(plan, |plan.expressions|, id);
      case DeleteFrom(_, _) =>
    }
  }

  // ------------------------------------------------------- what runs send

  // The i-th request is one of chunk c's.
  ghost predicate IsRequestOf(world: World, write: Write, chunks: seq<DataChunk>, request: Request, c: nat, j: nat)
    requires AllFit(write, chunks)
  {
    && c < |chunks| && chunks[c].size > 0 && j < |write.Requests(world.printer, chunks[c])|
    && request == write.Requests(world.printer, chunks[c])[j]
  }

  lemma SinkSends(world: World, context: Context, write: Write, chunk: DataChunk, log: seq<Request>, i: nat)
    requires write.Fits(chunk) && i < |SinkEffect(world, context, write, chunk, log).sent|
    ensures chunk.size > 0 && write.Permitted(context) && i < |write.Requests(world.printer, chunk)|
    ensures SinkEffect(world, context, write, chunk, log).sent[i] == write.Requests(world.printer, chunk)[i]
  {
  }

  // A statement sends only requests of its chunks, and only when it is permitted.
  lemma {:induction false} StatementSends(world: World, context: Context, write: Write, chunks: seq<DataChunk>, n: nat,
                                          log: seq<Request>, i: nat)
    requires AllFit(write, chunks) && n <= |chunks| && i < |StatementEffect(world, context, write, chunks, n, log).sent|
    ensures write.Planned() && write.Permitted(context)
    ensures exists c: nat, j: nat ::
              IsRequestOf(world, write, chunks, StatementEffect(world, context, write, chunks, n, log).sent[i], c, j)
  {
    var before := StatementEffect(world, context, write, chunks, n - 1, log);
    if i < |before.sent| {
      StatementSends(world, context, write, chunks, n - 1, log, i);
      assert StatementEffect(world, context, write, chunks, n, log).sent[i] == before.sent[i];
    } else {
      var j := i - |before.sent|;
      SinkSends(world, context, write, chunks[n - 1], log + before.sent, j);
      assert IsRequestOf(world, write, chunks, StatementEffect(world, context, write, chunks, n, log).sent[i], n - 1, j);
    }
  }

  // In every run a request is sent only by a statement that nothing forbids: in autocommit
  // mode, and to a table with the capability.
  lemma {:induction false} OnlyPermittedRequests(world: World, ops: seq<Op>, k: nat, i: nat)
    requires AllValid(ops) && k < |ops| && i < |RunOf(world, ops)[k].sent|
    ensures ops[k].Execute? && RunOf(world, ops)[k].op == ops[k]
    ensures var write := ops[k].write;
            && write.Planned() && write.Permitted(ops[k].context) && ops[k].context.autoCommit
            && Has(write.Table().capabilities, write.Needed())
            && exists c: nat, j: nat :: IsRequestOf(world, write, ops[k].chunks, RunOf(world, ops)[k].sent[i], c, j)
  {
    RunAt(world, ops, k);
    var before, op := RunOf(world, ops[..k]), ops[k];
    StatementSends(world, op.context, op.write, op.chunks, |op.chunks|, LogOf(before), i);
  }

  ghost predicate SafeRun(history: seq<Step>) {
    forall k, i :: 0 <= k < |history| && history[k].op.Execute? && 0 <= i < |history[k].sent| ==>
      !NamesReadOnly(history[k].op.write.Table(), history[k].sent[i])
  }

  ghost predicate Over(ops: seq<Op>, tables: seq<CatalogTableInfo>) {
    forall k :: 0 <= k < |ops| && ops[k].Execute? ==> ops[k].write.Table() in tables
  }

  predicate NoTableShares(tables: seq<CatalogTableInfo>) {
    forall t :: 0 <= t < |tables| && !Has(tables[t].capabilities, TABLE_VIEW) ==> !SharesId(tables[t].columns)
  }

  lemma {:induction false} NoSharingIsSafe(world: World, tables: seq<CatalogTableInfo>, ops: seq<Op>)
    requires SoundTables(tables) && NoTableShares(tables) && AllValid(ops) && Over(ops, tables)
    ensures SafeRun(RunOf(world, ops))
  {
    var history := RunOf(world, ops);
    forall k, i | 0 <= k < |history| && history[k].op.Execute? && 0 <= i < |history[k].sent|
      ensures !NamesReadOnly(history[k].op.write.Table(), history[k].sent[i])
    {
      OnlyPermittedRequests(world, ops, k, i);
      var write, chunks, request := ops[k].write, ops[k].chunks, history[k].sent[i];
      var t :| 0 <= t < |tables| && tables[t] == write.Table();
      var c: nat, j: nat :| IsRequestOf(world, write, chunks, request, c, j);
      assert SoundTable(tables[t]) && !SharesId(write.Table().columns);
      forall d | 0 <= d < |write.Table().columns| && ReadOnly(write.Table().columns[d])
        ensures !Assigns(request, write.Table().columns[d].id)
      {
        if Assigns(request, write.Table().columns[d].id) {
          RequestAssigns(world.printer, write, chunks[c], j, write.Table().columns[d].id);
        }
      }
    }
  }

  const QUIET: Context := Context(true, "")

  function OneRow(columns: nat): (chunk: DataChunk)
    ensures chunk.Valid() && chunk.size == 1 && |chunk.columns| == columns
  {
    DataChunk(1, seq(columns, _ => [Null]))
  }

  lemma {:induction false} QuietInsert(table: CatalogTableInfo)
    requires Has(table.capabilities, TABLE_INSERT)
    ensures InsertInto(table).Permitted(QUIET)
  {
    assert !Rejected(QUIET);
  }

  lemma {:induction false} OneInsertSends(world: World, context: Context, table: CatalogTableInfo, chunk: DataChunk)
    requires InsertInto(table).Fits(chunk) && chunk.size > 0 && InsertInto(table).Permitted(context) && context.autoCommit
    ensures var ops := OneWrite(context, InsertInto(table), chunk);
            && AllValid(ops)
            && RunOf(world, ops)[1].op == ops[1] && RunOf(world, ops)[1].sent == [ChunkInsert(table, chunk)]
  {
    OneWriteSteps(world, context, InsertInto(table), chunk);
    OneChunk(world, context, InsertInto(table), chunk);
    SendsOne(world.service, [], ChunkInsert(table, chunk));
  }

  lemma {:induction false} SharedIdIsNamed(table: CatalogTableInfo, chunk: DataChunk)
    requires chunk.Valid() && |table.columns| <= |chunk.columns| && chunk.size > 0 && SharesId(table.columns)
    ensures NamesReadOnly(table, ChunkInsert(table, chunk))
  {
    var c, d :| 0 <= c < |table.columns| && 0 <= d < |table.columns|
                && Has(table.columns[c].capabilities, COLUMN_EDITABLE) && ReadOnly(table.columns[d])
                && table.columns[c].id == table.columns[d].id;
    InsertAssigns(table, chunk, table.columns[d].id);
    assert EditableId(table.columns, table.columns[d].id);
  }

  // With a shared id a run may go wrong: any insert that is let through does.
  lemma {:induction false} SharingIsUnsafe(world: World, context: Context, table: CatalogTableInfo, chunk: DataChunk)
    requires InsertInto(table).Fits(chunk) && chunk.size > 0
    requires InsertInto(table).Permitted(context) && context.autoCommit && SharesId(table.columns)
    ensures var ops := OneWrite(context, InsertInto(table), chunk);
            AllValid(ops) && Over(ops, [table]) && !SafeRun(RunOf(world, ops))
  {
    OneInsertSends(world, context, table, chunk);
    SharedIdIsNamed(table, chunk);
    var history := RunOf(world, OneWrite(context, InsertInto(table), chunk));
    assert NamesReadOnly(history[1].op.write.Table(), history[1].sent[0]);
  }

  // For every catalog that is loaded: no run over its tables ever names a calculated or
  // metadata column, if and only if no table that takes writes has an editable column with
  // the id of such a column.
  lemma WritesAreSafeIff(world: World, s: Service, withMetadata: bool, log: seq<Request>, pages: seq<TablePage>)
    requires IsCatalogRun(s, "", log, pages)
    ensures var tables := CatalogOf(withMetadata, pages);
            (forall ops | AllValid(ops) && Over(ops, tables) :: SafeRun(RunOf(world, ops))) <==> NoTableShares(tables)
  {
    var tables := CatalogOf(withMetadata, pages);
    CatalogSound(s, withMetadata, log, pages);
    if NoTableShares(tables) {
      forall ops | AllValid(ops) && Over(ops, tables) ensures SafeRun(RunOf(world, ops)) {
        NoSharingIsSafe(world, tables, ops);
      }
    } else {
      var t :| 0 <= t < |tables| && !Has(tables[t].capabilities, TABLE_VIEW) && SharesId(tables[t].columns);
      var table, chunk := tables[t], OneRow(|tables[t].columns|);
      assert SoundTable(table);
      QuietInsert(table);
      SharingIsUnsafe(world, QUIET, table, chunk);
      assert Over(OneWrite(QUIET, InsertInto(table), chunk), tables);
    }
  }

  // ------------------------------------------------------- when ids are shared

  // A listing has such a pair exactly when two listed columns with one id differ in being
  // calculated, or when the metadata are added and an editable column has one of their ids.
  lemma {:induction false} SharesIdIff(withMetadata: bool, listed: seq<ColumnInfo>)
    requires AllSound(listed)
    ensures SharesId(TableColumns(withMetadata, listed))
            <==> SharesId(listed)
                 || (withMetadata && (EditableId(listed, "createdAt") || EditableId(listed, "updatedAt")))
  {
    SharesIdNamed(withMetadata, listed);
    var given := GivenColumns(withMetadata, listed);
    if withMetadata {
      MetadataSound();
      assert given[|listed|] == MetadataColumn("createdAt") && given[|listed| + 1] == MetadataColumn("updatedAt");
      assert SoundColumn(METADATA_COLUMNS[0]) && SoundColumn(METADATA_COLUMNS[1]);
      assert ReadOnly(given[|listed|]) && ReadOnly(given[|listed| + 1]);
    }
    assert forall i :: 0 <= i < |listed| ==> given[i] == listed[i];
    assert SharesId(given) <==> SharesId(listed)
                                || (withMetadata && (EditableId(listed, "createdAt") || EditableId(listed, "updatedAt")));
  }

  // Renaming changes nothing about it.
  lemma {:induction false} SharesIdNamed(withMetadata: bool, listed: seq<ColumnInfo>)
    ensures SharesId(TableColumns(withMetadata, listed)) <==> SharesId(GivenColumns(withMetadata, listed))
  {
    var named, given := TableColumns(withMetadata, listed), GivenColumns(withMetadata, listed);
    OnlyNamesChange(withMetadata, listed, 0);
    forall i | 0 <= i < |given| ensures named[i].id == given[i].id && named[i].capabilities == given[i].capabilities {
      OnlyNamesChange(withMetadata, listed, i);
    }
  }

  // A document with one table of one column.
  function OneTable(table: TableItem, column: ColumnItem): Service {
    Service(_ => Success(TablesBody(Some([table]), None)), _ => Success(ColumnsBody(Some([column]), None)),
            _ => Failure(Transport), _ => true)
  }

  function OneTablePages(table: TableItem, column: ColumnItem): seq<TablePage> {
    var s := OneTable(table, column);
    [TablePage(ParseTables(s.tables([])), [[ParseColumns(s.columns([]))]])]
  }

  lemma {:induction false} OneTableReplies(table: TableItem, column: ColumnItem)
    requires ParseTable(table).Success? && ParseColumn(column).Success?
    ensures var page := OneTablePages(table, column)[0];
            && page.reply == Success(TablesPage([ParseTable(table).value], ""))
            && page.runs[0] == [Success(ColumnsPage([ParseColumn(column).value], ""))]
            && AllColumns(page.runs[0]) == [ParseColumn(column).value]
  {
    ParseAllNext(ParseTable, [table], 0);
    ParseAllNext(ParseColumn, [column], 0);
    assert [table][..0] == [] && [table][..1] == [table];
    assert [column][..0] == [] && [column][..1] == [column];
    assert [] + [ParseTable(table).value] == [ParseTable(table).value];
    assert [] + [ParseColumn(column).value] == [ParseColumn(column).value];
    assert OneTablePages(table, column)[0].runs[0][1..] == [];
  }

  lemma {:induction false} OneTableCatalog(table: TableItem, column: ColumnItem, withMetadata: bool)
    requires ParseTable(table).Success? && ParseColumn(column).Success?
    ensures IsCatalogRun(OneTable(table, column), "", [], OneTablePages(table, column))
    ensures var t := ParseTable(table).value;
            CatalogOf(withMetadata, OneTablePages(table, column))
            == [CatalogTableInfo(t.id, t.name, t.capabilities, TableColumns(withMetadata, [ParseColumn(column).value]))]
  {
    OneTableReplies(table, column);
    var pages := OneTablePages(table, column);
    var tables, runs := pages[0].reply.value.tables, pages[0].runs;
    assert tables[1..] == [] && runs[1..] == [] && tables[..0] == [] && runs[..0] == [] && pages[..0] == [];
    assert AreTableRuns(OneTable(table, column), tables, [] + [ListTables("")], runs);
    assert LoadedTables(withMetadata, tables, runs) == [] + [LoadedTable(withMetadata, tables[0], runs[0])];
  }

  const PLAIN_TABLE: TableItem := TableItem(Some("t"), Some("T"), None)
  const CREATED_AT: ColumnItem := ColumnItem(Some("createdAt"), Some("Created"), None, None)

  lemma {:induction false} CreatedAtShares(withMetadata: bool)
    ensures SharesId(TableColumns(withMetadata, [ParseColumn(CREATED_AT).value])) <==> withMetadata
  {
    var column := ParseColumn(CREATED_AT).value;
    ParsedColumnSound(CREATED_AT);
    ColumnCapabilityRules(false, false);
    assert [column][0].id == "createdAt";
    SharesIdIff(withMetadata, [column]);
  }

  // A column whose id is createdAt: with the row metadata on, runs on its table are not safe;
  // without, they are.
  lemma {:induction false} CollidingId(world: World, withMetadata: bool)
    ensures var s, pages := OneTable(PLAIN_TABLE, CREATED_AT), OneTablePages(PLAIN_TABLE, CREATED_AT);
            && IsCatalogRun(s, "", [], pages)
            && ((forall ops | AllValid(ops) && Over(ops, CatalogOf(withMetadata, pages)) :: SafeRun(RunOf(world, ops)))
                <==> !withMetadata)
  {
    var s, pages := OneTable(PLAIN_TABLE, CREATED_AT), OneTablePages(PLAIN_TABLE, CREATED_AT);
    OneTableCatalog(PLAIN_TABLE, CREATED_AT, withMetadata);
    WritesAreSafeIff(world, s, withMetadata, [], pages);
    CreatedAtShares(withMetadata);
    var tables := CatalogOf(withMetadata, pages);
    assert !Has(tables[0].capabilities, TABLE_VIEW);
    assert NoTableShares(tables) <==> !SharesId(tables[0].columns);
  }
}
