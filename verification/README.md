# The Coda bridge, modelled and proved

This project models the core of a DuckDB extension that attaches a Coda document as a
database. Rust code talks to the Coda service and hands over memory that C++ code must free; C++
code plugs the result into DuckDB. The model keeps the service abstract (`CodaService.Service`:
any function of everything that was asked so far) and logs every request. It says what the code
does, not what one would like it to do: where a promise is false, a lemma names an input and
another one says exactly when it holds.

Check it with `dafny verify dfyconfig.toml`.

## What is modelled

| files | part of the program |
|---|---|
| `ScanProtocol`, `ScanClient`, `RowCap` | the Rust scan handle: page tokens, one sync check, deleted rows; what a row cap does to its batches |
| `BridgeScan`, `ScanValues`, `DuckValues` | the C++ scan: batches re-cut into vectors of 2048 rows, projection, cell values |
| `ScanBodies`, `CatalogBodies` | scans and catalogs from the bodies that the service sends to what comes out |
| `Owners`, `OwnerRuns` | the move-only C++ owners of batches, catalogs and scan handles, and whatever is done with them |
| `Pushdown`, `PushdownMeaning`, `LostRows`, `QueryText` | filter, order and limit pushdown; the text of a pushed filter and what a service makes of it |
| `TopN`, `Overshoot` | what a pushed order and limit give |
| `CatalogClient`, `CatalogRuns`, `CatalogRules`, `Naming`, `SchemaIndex` | loading tables and columns, making column names distinct, the index of tables by name |
| `BridgeWrite`, `Mutation`, `WriteMeaning` | inserts, updates and deletes from a DuckDB chunk to JSON bodies, and what these say of the chunk |
| `Dml`, `DmlRuns`, `DmlHistory`, `Transactions` | sinks, statements, transactions, and whole runs of them |
| `WriteSafety`, `ItemSafety`, `AcceptedWrites` | over all runs: which tables and columns writes name, and which accepted writes a rollback passes over |
| `CodaService`, `CodaJson`, `Ffi` | the service, its JSON, and hand-managed memory |
| `Sequences`, `AsciiText`, `Doubles`, `Wrappers` | shared helpers |

Main results:

- **A scan is what it should be.** For every service and every way in which its pages split, a
  scan driven to its end puts out exactly the rows that are not deleted, main chain first and sync
  chain after it, in order, none lost or repeated at the edge of a batch or of a chunk. It sends
  exactly the requests needed, fails exactly when one of those fails, after exactly the full chunks
  before that, and frees every block it allocated (`BridgeScan.RunScan`,
  `ScanProtocol.ScanReadsMainThenSync`, `ScanProtocol.NoRestart`). Stated from the service's bodies: row r
  of the output shows the r-th item that is not deleted, and its column i what the i-th index asks for of
  that item's JSON (`ScanBodies.ScanTable`). Whatever is done with its move-only
  owners, in any order, each block they were given is freed once (`OwnerRuns`).
- **Row cap and top-n.** "At most `limit` rows" is false: a batch in which the limit is reached is
  still drained. `RowCap.CapIsExactIff` says when it holds, `BridgeScan.CappedScan` gives the true
  bounds, and `Overshoot.OvershootIsMet` a service that meets the upper one for every limit. A pushed
  top-n gives the right keys exactly when no row left out is below the n-th row handed out; that
  covers ordered tables, and fails when a synced row comes first (`TopN.PushedTopNIff`,
  `TopN.PushedTopNSound`, `TopN.SyncedRowMissed`). A descending order is never pushed, so an ordered query
  gets its keys in its own direction (`TopN.PushedOrderIsSound`).
- **Filter pushdown.** Under a service that compares JSON values it keeps the rows of a query if and
  only if each row that satisfies the query has a cell of the column's JSON type in the filtered column:
  a string in a text column, a boolean in a checkbox column, and in a number column a number that is a
  double (`PushdownMeaning.PushdownPreservesIff`). The number 5 in a text column is lost, and so is
  every integer in a number column that reading it as a double changes, such as 2^53 + 1: DuckDB sees
  2^53, the service does not (`LostRows.NumberInTextLost`, `LostRows.RoundedIntegerLost`). The pushed
  text reads back as the column and value it came from exactly when the column id has no colon
  (`QueryText.QueryRoundTrip`).
- **Catalog.** The loads that do not fail are exactly the transcripts in which every next page, of tables
  as of columns, is asked for with the token of the body before it (`CatalogBodies.CatalogRunIsTranscript`).
  The catalog is exactly the items of these bodies, in order, each table with its own columns, of the type
  of their format and editable unless calculated (`CatalogBodies.LoadListed`). Column names are distinct
  and not empty; the renaming loop ends after at most one try more than there are earlier columns, a bound
  that is met; renaming is stable under more columns and done twice changes nothing.
- **Writes.** Decoding a body gives back the chunk, row by row, in the editable columns: an insert has the
  chunk's value of each column, an update that of each target's own expression, under the row's own id
  (`WriteMeaning`). An update is an ordered prefix. Over all runs of transactions and statements a mutating
  request is sent only in autocommit mode and only to a table that is no view. "It never assigns to a
  calculated or metadata column" is false: such a column may share its id with an editable one. Over the
  tables that the service lists it holds of all runs if and only if in none but a view an item that is
  calculated, or the row metadata, share an id with one that is not (`ItemSafety.ItemWritesAreSafeIff`,
  with such a document in `WriteSafety.CollidingId`).
- **Transactions.** What begins, ends, throws or is refused in any run follows from the history alone,
  and the count of a statement is the number of rows in the chunks whose sinks completed. "A rollback
  over accepted writes throws" is false: in any run, a rollback passes over accepted writes silently if
  and only if no sink with rows has completed under its transaction and an update under it was refused
  halfway (`AcceptedWrites.SilentRollbackIff`, with a run in `AcceptedWrites.RefusedHalfway`).

Three conventions. A run of the service is a ghost list of its replies up to the last one. For scans as
for catalogs there is one if and only if the chains of tokens end or a request fails, and never a second
(`ScanProtocol.RunExistsIff`, `ScanProtocol.RunIsUnique`, `CatalogRuns.CatalogRunExistsIff`,
`CatalogRuns.CatalogRunIsUnique`). Every method is proved against that list. Memory is counted for one
arbitrary watched address (`Ffi.Heap`): what is proved for it holds for every block. Some predicates
are folded behind `Wrappers.LookInside` or `Wrappers.LookAt`, which are always true.

## Model

| member | source | states |
|---|---|---|
| ScanProtocol.RunIsMainThenSync | src/client.rs:160-190 | A list of replies is an error-free run of a scan if and only if it is a main chain of pages linked by page tokens, followed, when its last page carries a sync token, by one chain that starts from that token. |
| ScanProtocol.ScanReadsMainThenSync | src/client.rs:179-220 | The rows of an error-free run are the visible rows of the main chain followed by those of the sync chain. |
| ScanProtocol.NoRestart | src/client.rs:160-190 | In every run, and however far into it a scan goes, the first request has no token, every later one exactly one of page and sync token, and at most one a sync token. |
| ScanProtocol.RetryRestartsIffSync | src/client.rs:161-166 | A handle used again after a failed request repeats that request, except exactly when it was the sync check: then it starts the scan again from its first page. |
| ScanProtocol.RunExistsIff | src/client.rs:179-220 | A scan has a run, that is, it comes to an end or fails, if and only if its chain of tokens ends or some request fails. |
| ScanProtocol.RunIsUnique | src/client.rs:160-220 | A service has at most one run for a scan. |
| ScanClient.DropDeleted | src/client.rs:192-207 | Keeps the rows that are not deleted, in order, and frees every block of the others and nothing else. |
| ScanClient.ScanHandle.NextRequest | src/client.rs:160-177 | The request that the tokens call for; the sync check is made at most once. |
| ScanClient.ScanHandle.TakeTokens | src/client.rs:182-190 | Takes over both tokens and frees them; the scan is finished without a page token once there is no sync token or the sync check was made. |
| ScanClient.ScanHandle.FetchPage | src/client.rs:181-207 | One turn: consumes exactly the next reply of the run, hands out its visible rows, and holds nothing but those rows. |
| ScanClient.ScanHandle.NextBatch | src/client.rs:179-220 | The next page that has a visible row, or the last page of all; an empty batch only at the end; it fails exactly with the failing reply, after pages without visible rows. |
| RowCap.CapCutsAtBatch | src/cpp/rust_bridge_scan.cpp:180-193 | With a cap, what is handed out ends with a batch, falls short of the cap only when there are no more rows, and one batch less would fall short. |
| RowCap.CapIsExactIff | src/cpp/rust_bridge_scan.cpp:227-229 | No more rows than the cap are handed out if and only if there are no more, or some batch ends where the cap is reached. |
| BridgeScan.CappedScan | src/cpp/rust_bridge_scan.cpp:36-37 | With a pushed limit and pages no larger than asked for: a prefix of all visible rows, at least the limit or all of them, at most 499 more than the limit. |
| Overshoot.OvershootIsMet | src/cpp/rust_bridge_scan.cpp:180-193 | For every limit a service whose run hands out the limit and a page less one row, with no page larger than asked for: more than the limit, for every limit but one, and no scan hands out more. |
| BridgeScan.ResolveColumns | src/cpp/rust_bridge_scan.cpp:26-33 | The columns of a scan are those of its projection ids in order, or all when there are none. |
| BridgeScan.PrefixShowsColumns | src/cpp/rust_bridge_scan.cpp:203-225 | Output column i of a row shows what the i-th index asked for says of that row: the row id is the row's own, a column is its own cell. |
| BridgeScan.InitGlobal | src/cpp/rust_bridge_scan.cpp:61-63 | A new scan has all rows of its run (up to the cap) before it, and all requests of the run. |
| BridgeScan.ScanState.constructor | src/cpp/rust_bridge_scan.cpp:24-39 | Opens a scan of the projected columns with the pushed query, order and limit, pages of at most 500 rows, nothing fetched. |
| BridgeScan.ScanState.TakeOver | src/include/rust_bridge_client.hpp:164-171 | The old batch is freed, the new one taken over and read from its first row; the moved-from owner is destroyed and frees nothing. |
| BridgeScan.ScanState.Refill | src/cpp/rust_bridge_scan.cpp:186-193 | Fetches the batch that the run has next; fails only with the run's failing reply, when no row is to come. |
| BridgeScan.ScanState.RenderRow | src/cpp/rust_bridge_scan.cpp:203-225 | The output row of a row whose blocks are still live; fails, and with that error, exactly for a column index outside the table. |
| BridgeScan.ScanState.FillChunk | src/cpp/rust_bridge_scan.cpp:184-231 | Rows n to m of the scan are in the chunk, in order, and it may not take another: it is full, ends at the cap, or nothing is left. |
| BridgeScan.ScanState.Scan | src/cpp/rust_bridge_scan.cpp:178-233 | A call hands out the next rows of the scan, as many as a chunk may have; an empty chunk only at the end; `finished` never goes back. |
| BridgeScan.Drive | src/cpp/rust_bridge_scan.cpp:178-233 | Calls until an empty chunk put out all rows of the scan, and end; after an error, exactly the full chunks. |
| BridgeScan.RunScan | src/cpp/rust_bridge_scan.cpp:178-233 | A whole scan puts out exactly the rendered rows of its run (up to the cap, even when the chain of tokens does not end), column i of row r being what the i-th index asked for shows of row r; it sends one request per reply that takes, fails exactly with a failing reply among those after the full chunks before it, or, on a projection outside the table, with that error and no row as soon as a page with a visible row is fetched; it leaves no block live except after a row without an id. |
| ScanBodies.RunIsTranscript | src/client.rs:160-220 | The runs of a scan that do not fail are exactly the transcripts of requests and bodies in which each body's page token, or else once its sync token, is in the next request, and the last body has neither to offer. |
| ScanBodies.VisibleRowsOf | src/json.rs:149-203 | The visible rows are, in order, those of the items whose `deleted` and `isDeleted` are not true. |
| ScanBodies.ItemShown | src/scan.rs:3-50 | What a column shows of an item: its id, the JSON value of the member with the column's id as a value of the column's type, or its timestamp. |
| ScanBodies.ScanTable | src/cpp/rust_bridge_scan.cpp:178-233 | From the bodies that the service sends to the output: row r shows item r of those not deleted, output column i what the i-th index asks for; without a limit all items and all requests of the transcript, with one no fewer rows than asked for. |
| Owners.BatchOwner.Move | src/include/rust_bridge_client.hpp:160-162 | A move leaves the source empty. |
| Owners.BatchOwner.Assign | src/include/rust_bridge_client.hpp:164-171 | Move assignment frees what was held, takes over, and leaves the source empty; to itself it does nothing. |
| OwnerRuns.OpKeeps | src/include/rust_bridge_client.hpp:160-171 | Making, moving, assigning or resetting an owner neither loses nor doubles a block: what is held and freed afterwards is what was held and is new. |
| OwnerRuns.ReleaseBatches | src/include/rust_bridge_client.hpp:148-195 | Any number of batch owners and any sequence of constructions, moves, assignments (to themselves too) and resets: once all are destroyed, every block they were given was freed exactly once. |
| OwnerRuns.ReleaseCatalogs | src/include/rust_bridge_client.hpp:106-146 | The same for catalogs. |
| OwnerRuns.ReleaseHandles | src/include/rust_bridge_client.hpp:197-236 | The same for scan handles. |
| ScanValues.FindCell | src/scan.rs:26-30 | The first cell of a column, ids compared ignoring case; none if and only if no cell has that id. |
| ScanValues.CellRoundTrip | src/scan.rs:23-50 | The member of a row's JSON that a column shows comes out as its boolean, the number its text reads as, or its text, cast to the column's type; null and missing members as NULL. |
| ScanValues.MetadataRoundTrip | src/scan.rs:5-22 | A row metadata column shows the row's own timestamp cast to its type, and NULL when that is absent or empty, whatever the cells are. |
| Pushdown.TryExtract | src/cpp/rust_bridge_scan.cpp:69-128 | Succeeds if and only if the filter is an equality of a filterable column and a constant that is not NULL, in either order, with the query that says so. |
| Pushdown.EligibleIff | src/cpp/rust_bridge_scan.cpp:69-128 | Those filters are exactly `column = constant` and `constant = column` on this scan's table, for a column that takes equality filters. |
| Pushdown.BindData.PushdownComplexFilter | src/cpp/rust_bridge_scan.cpp:130-148 | Removes the first eligible filter and no other, keeps the order of the rest, and does nothing once a query is pushed. |
| Pushdown.PushdownTwice | src/cpp/rust_bridge_scan.cpp:133-135 | A second pushdown changes neither the filters nor the query. |
| PushdownMeaning.CellMatches | src/scan.rs:23-50 | The literal of a constant equals the JSON value of a row's cell if and only if the cell shows as that constant and goes with the column's type: a string, a boolean, or a number that is a double. |
| PushdownMeaning.QueryMeansFilter | src/mutation.rs:165-186 | A service that compares JSON values keeps a row for the pushed query if and only if the pushed filter holds for it and its cell goes with the column's type. |
| PushdownMeaning.PushdownPreservesIff | src/cpp/rust_bridge_scan.cpp:130-148 | The rows for which all filters hold are those for which the remaining ones hold among the service's reply, if and only if the cells of all these rows in the pushed column go with its type. |
| PushdownMeaning.ColumnFiltersIff | src/cpp/rust_bridge_scan.cpp:69-128 | A column can be filtered by the service for every constant if and only if each of its cells goes with the column's type or shows as NULL. |
| LostRows.NumberInTextLost | src/mutation.rs:165-186 | With concrete casts, printer, table and service that meet all assumptions: a text column holds the number 5, the row satisfies the filter for '5', and pushdown loses it. |
| LostRows.RoundedIntegerLost | src/scan.rs:34-39 | With the same: a number column holds an integer that is no double, the row satisfies the filter for the double that it is read as, and pushdown loses it. |
| LostRows.BigIntegerLost | src/scan.rs:34-39 | So it is with 2^53 + 1 and the filter for 2^53. |
| Doubles.DoubleIsExact | src/scan.rs:35-39 | Rounding to 53 bits leaves every integer that is a double as it is. |
| Pushdown.BindData.SetScanOrder | src/cpp/rust_bridge_scan.cpp:256-278 | Order and limit are pushed if and only if there is a limit, the order is not descending and names a column of the table that the service sorts by; otherwise nothing changes. |
| Pushdown.OnlyMetadataIsSorted | src/exports.rs:262-270 | On every loaded catalog an order is pushed only for createdAt or updatedAt of the row metadata. |
| QueryText.StringRoundTrip | src/mutation.rs:8-18 | A JSON string literal reads back as the text it was written from. |
| QueryText.LiteralRoundTrip | src/mutation.rs:8-18 | So does every literal: booleans, integers, strings, and a real number if its own printing is faithful. |
| QueryText.BuildEqualityQuery | src/mutation.rs:165-186 | Fails exactly for NULL, and never builds an empty query. |
| WriteMeaning.DescriptionIsText | src/mutation.rs:174-182 | A pushed equality is described by the column's name and the text of the value. |
| QueryText.QueryRoundTrip | src/mutation.rs:165-186 | Split at its first colon, a query reads back as its column id and value if and only if the id has no colon. |
| QueryText.QueriesDistinct | src/mutation.rs:165-186 | Distinct predicates have distinct queries, with or without colons in the ids. |
| TopN.SortPermutes | src/cpp/rust_bridge_scan.cpp:227-229 | The sort that stays above the scan loses and repeats no key. |
| TopN.SortAscending | src/cpp/rust_bridge_scan.cpp:227-229 | And puts them in order. |
| TopN.TopKeysIff | src/cpp/rust_bridge_scan.cpp:227-229 | Sorting some rows and taking n gives the keys of sorting all if and only if no row left out is below the n-th. |
| TopN.PushedTopNIff | src/cpp/rust_bridge_scan.cpp:256-278 | The same for a scan with a pushed limit. |
| TopN.PushedTopNSound | src/cpp/rust_bridge_scan.cpp:256-278 | A pushed top-n is sound when the main chain is in order and no row was synced. |
| TopN.PushedOrderIsSound | src/cpp/rust_bridge_scan.cpp:256-278 | Whatever order a query has, pushed or not: if the service keeps to a pushed one, the query gets the keys, in its own direction, that it would get of all rows. |
| TopN.SyncedRowMissed | src/cpp/rust_bridge_scan.cpp:227-229 | It is not for a limit of one and a service, whose run is given, that syncs a row that comes first in the order. |
| CodaJson.ColumnCapabilityRules | src/json.rs:109-120 | Editable exactly when not calculated, filterable exactly when not an array, never sortable or system. |
| CodaJson.RowsFromJson | src/json.rs:149-203 | A body is parsed into the rows and tokens it says, every block accounted for; after a row without an id, exactly the rows before it and its cells are left behind. |
| CodaJson.TablesFromJson | src/json.rs:41-86 | The tables of a body with their capabilities, every block accounted for; after an item without an id or a name, exactly the tables before it and its id are left behind. |
| CodaJson.ColumnsFromJson | src/json.rs:88-147 | The same for columns, each editable exactly when its item is not calculated. |
| CodaJson.FreeRows | src/json.rs:214-224 | Frees every block of the rows exactly once. |
| Naming.TakenBound | src/json.rs:259-265 | No more candidate names are taken than there are columns before (the pigeonhole). |
| Naming.SuffixIsFree | src/json.rs:257-265 | The suffix found is free, all below it are taken, and it is at most one more than the number of columns before. |
| Naming.SuffixBoundIsMet | src/json.rs:257-265 | For every number of columns there are names that take the suffix to that bound. |
| Naming.PreparedDistinct | src/json.rs:249-271 | Prepared names are not empty and differ pairwise, ignoring ASCII case. |
| Naming.PreparedPrefix | src/json.rs:249-271 | More columns do not change the names of those before them. |
| Naming.RenamedIff | src/json.rs:251-269 | A column is renamed if and only if its name is empty or taken by an earlier column's final name. |
| Naming.PreparedForm | src/json.rs:251-263 | A prepared name is the given one, `column` for an empty one, or that with an underscore and a number. |
| Naming.PreparedFixpoint | src/json.rs:249-271 | Names stay as they are if and only if they are not empty and already distinct. |
| Naming.PreparedTwice | src/json.rs:249-271 | Preparing twice is preparing once. |
| AsciiText.SameLetter | src/json.rs:259-262 | Names are compared letter by letter, the same letter in both cases being alike and nothing else. |
| Naming.MetadataNames | src/client.rs:39-42 | Row metadata renames no column of the table, and each metadata column keeps its own name if and only if no column of the table has it. |
| Naming.FreeName | src/json.rs:251-265 | The inner loop ends with the least free candidate. |
| Naming.PrepareColumns | src/json.rs:249-271 | The loop in place: prepared names, everything else about the columns untouched, every replaced name freed. |
| CatalogClient.AppendRowMetadata | src/json.rs:273-286 | Appends the two metadata columns and nothing else. |
| CatalogClient.LoadColumns | src/client.rs:11-49 | All columns of all pages in order, prepared; fails exactly when a reply does. |
| CatalogClient.LoadTables | src/client.rs:67-79 | Each table of a page with its own columns, in order; the page's blocks are freed. |
| CatalogClient.LoadCatalog | src/client.rs:51-91 | Every table of every page once and in order, with exactly the requests that takes; fails exactly when a reply does; holds exactly the blocks of the catalog. |
| CatalogBodies.CatalogRunIsTranscript | src/client.rs:51-91 | The loads that do not fail are exactly the transcripts: a page of tables, the columns of each of its tables, and then the page of the body's own token, until a body has none. |
| CatalogBodies.ColumnsTranscriptIsRun | src/client.rs:11-49 | So are those of the columns of a table; its columns are the items of these bodies. |
| CatalogBodies.TablesBodyParses | src/json.rs:41-86 | A body can be read exactly when every item has an id and a name; the page has a table for each, and the body's token. |
| CatalogBodies.ColumnsBodyParses | src/json.rs:88-147 | The same for columns: each of the type of its item's format, filterable unless an array, editable unless calculated. |
| CatalogBodies.CatalogIsListed | src/client.rs:67-79 | The catalog is the tables that the service lists, in order, each with its own columns and the row metadata if asked for; a column has its item's name unless that is empty or taken. |
| CatalogBodies.LoadListed | src/client.rs:51-91 | Loading does that, with exactly the requests of the transcript. |
| CatalogRuns.CatalogRunExistsIff | src/client.rs:51-91 | Loading a catalog has a run if and only if the chain of its pages ends, and that of the columns of each table it comes to, or a request fails. |
| CatalogRuns.CatalogRunIsUnique | src/client.rs:51-91 | And at most one. |
| CatalogRuns.ColumnRunExistsIff | src/client.rs:11-49 | Listing the columns of a table has a run if and only if its chain of tokens ends or a request fails. |
| CatalogRuns.ColumnRunIsUnique | src/client.rs:11-49 | And at most one. |
| CatalogClient.FreeCatalog | src/json.rs:237-247 | Frees every block of a catalog exactly once. |
| Owners.RunCatalog | src/include/rust_bridge_client.hpp:106-146 | A catalog loaded, moved into its owner and dropped with it leaves no block live. |
| CatalogRules.TableColumnsSound | src/client.rs:39-42 | Column names of a table are distinct, and each column's capabilities are consistent. |
| CatalogRules.OnlyNamesChange | src/json.rs:249-271 | Preparing the columns of a table changes their names and nothing else. |
| CatalogRules.MetadataKeepsColumns | src/client.rs:39-42 | With row metadata a table has the same columns as without, and then createdAt and updatedAt, read-only and sortable, under a name of their own if need be. |
| CatalogRules.CatalogSound | src/client.rs:51-91 | In every loaded catalog a column is editable exactly when it is not calculated, only metadata columns are sorted, no timestamp column is filtered, and a table is a view exactly when it takes no writes. |
| SchemaIndex.SchemaEntry.Lookup | src/cpp/storage/rust_bridge_schema.cpp:53-60 | Finds the last table whose name matches ignoring case, as a linear search would. |
| SchemaIndex.SchemaEntry.Scan | src/cpp/storage/rust_bridge_schema.cpp:67-74 | Visits one table for each name, ignoring case, and each the one that lookup finds. |
| SchemaIndex.FoundUnderOwnName | src/cpp/storage/rust_bridge_schema.cpp:42-47 | A table is found under its own name if and only if no later table has that name. |
| SchemaIndex.LookupInCatalog | src/cpp/storage/rust_bridge_catalog.cpp:40-46 | Loading a catalog, indexing its tables and looking a name up gives the last listed table of that name. |
| Mutation.AssignmentsAreEditable | src/mutation.rs:20-31 | The k-th assignment of a row is that of its k-th editable column with that column's own value. |
| Mutation.PositionsComplete | src/mutation.rs:22-25 | No editable column is left out. |
| Mutation.PositionsAscend | src/mutation.rs:22-25 | They come in the order of the columns, none twice. |
| Mutation.WriteCells | src/mutation.rs:20-31 | A row's JSON decodes to its assignments. |
| Mutation.InsertBody | src/mutation.rs:33-57 | The body decodes to the assignments of every row in order; each error case exactly. |
| Mutation.UpdateBody | src/mutation.rs:59-71 | The body decodes to the assignments of the row; each error case exactly. |
| Mutation.DeleteRoundTrip | src/mutation.rs:73-76 | The body decodes to the row ids. |
| Mutation.AcceptedExactly | src/mutation.rs:120-142 | A request of a sequence is accepted if and only if it and all before it are; the count is that of the longest such prefix. |
| Mutation.SendUpdateRows | src/mutation.rs:107-142 | Sends the rows' requests in order, up to the first refusal or to the end, and fails exactly with that refusal; nothing is sent exactly when shapes or capabilities do not fit. |
| BridgeWrite.StringVector.Push | src/include/rust_bridge_client.hpp:86-103 | The pointer returned is good, and within the reserved capacity no earlier one goes bad. |
| BridgeWrite.Convert | src/include/rust_bridge_client.hpp:55-92 | What is read through the pointer is the value. |
| BridgeWrite.RowMajorRow | src/mutation.rs:44-52 | Slicing the flat values at row r gives back row r. |
| BridgeWrite.FlattenChunk | src/cpp/rust_bridge_client.cpp:59-67 | The values are those of the chunk, row by row, and every borrowed pointer is still good. |
| BridgeWrite.ClientInsertRows | src/cpp/rust_bridge_client.cpp:57-77 | One request, that of the chunk. |
| BridgeWrite.ChunkInsertRoundTrip | src/cpp/rust_bridge_client.cpp:57-77 | Its body decodes to the chunk's values in the editable columns, row by row. |
| WriteMeaning.InsertMeans | src/cpp/rust_bridge_client.cpp:57-77 | The insert goes to its table and its rows assign to each editable column, in order, the chunk's own value in that column; nothing else is assigned. |
| BridgeWrite.FlattenUpdates | src/cpp/rust_bridge_client.cpp:103-128 | The same for the expressions of an update; an unsupported one fails exactly when there are rows and its target is in the table. |
| BridgeWrite.ClientUpdateRows | src/cpp/rust_bridge_client.cpp:79-138 | The requests of the chunk's rows in order, up to the first refusal; nothing is sent exactly when the update is impossible. |
| BridgeWrite.ChunkUpdateAt | src/cpp/rust_bridge_client.cpp:79-138 | Request i names row i and its body decodes to that row's values of the SET expressions, in the editable targets. |
| WriteMeaning.UpdateMeans | src/cpp/rust_bridge_client.cpp:79-138 | Request i goes to the table and names row i; to each editable target of the SET clause, in order, it assigns the chunk's value in the column that the target's own expression refers to, or null for DEFAULT; nothing else is assigned. |
| WriteMeaning.ImpossibleIff | src/cpp/rust_bridge_client.cpp:103-128 | An update is impossible exactly for an unsupported expression for a column of the table, an empty SET clause or a table without updates. |
| BridgeWrite.ClientDeleteRows | src/cpp/rust_bridge_client.cpp:140-157 | One request with the ids of all rows in order, and none for no rows. |
| WriteMeaning.DeleteMeans | src/cpp/rust_bridge_client.cpp:140-157 | The delete goes to its table and names the rows of the chunk, in order. |
| WriteMeaning.ScannedRowIsNamed | src/cpp/rust_bridge_scan.cpp:203-225 | A row id that was scanned names the row that it was scanned from. |
| Dml.InsertSink | src/cpp/storage/rust_bridge_dml.cpp:58-71 | Sends the chunk's request exactly when nothing forbids it; marks the transaction and counts the rows exactly when it completes. |
| Dml.UpdateSink | src/cpp/storage/rust_bridge_dml.cpp:97-110 | The same for an update: its requests up to the first refusal; a refused one marks and counts nothing. |
| Dml.DeleteSink | src/cpp/storage/rust_bridge_dml.cpp:137-150 | The same for a delete. |
| Dml.SinkState.AddAffected | src/cpp/storage/rust_bridge_dml.cpp:28-31 | The count is the sum over the completed sinks. |
| Dml.RunStatement | src/cpp/storage/rust_bridge_dml.cpp:54-83 | The sinks of a statement's chunks share one count: it is the number of rows in the chunks before the first sink that throws, and the transaction is marked exactly when that is not zero. |
| Transactions.TransactionManager.StartTransaction | src/cpp/storage/rust_bridge_transaction_manager.cpp:34-44 | A new unmarked transaction in autocommit mode, an error and no entry otherwise. |
| Transactions.TransactionManager.CommitTransaction | src/cpp/storage/rust_bridge_transaction_manager.cpp:46-52 | The entry goes away. |
| Transactions.TransactionManager.RollbackTransaction | src/cpp/storage/rust_bridge_transaction_manager.cpp:54-66 | The entry goes away whether or not it throws; it throws exactly for a marked transaction. |
| Transactions.AutocommitStatementRejected | src/cpp/storage/rust_bridge_dml.cpp:33-42 | The search of the query text refuses an autocommit insert of the value 'committee'. |
| Transactions.RejectedIff | src/cpp/storage/rust_bridge_dml.cpp:33-42 | A statement is rejected exactly outside autocommit mode, or when its text mentions begin, rollback or commit, in whatever case. |
| DmlRuns.RunAll | src/cpp/storage/rust_bridge_dml.cpp:58-150 | Every run of transactions and statements of any number of chunks, against any service, is the one that its operations determine: what begins, ends, throws or completes, which requests are sent and with which count a statement ends; nothing else is in the log; exactly the started and not ended transactions are open. |
| DmlRuns.RunAt | src/cpp/storage/rust_bridge_dml.cpp:58-150 | Each step of a run follows from the history before it alone. |
| DmlHistory.OutcomeIff | src/cpp/storage/rust_bridge_transaction_manager.cpp:34-66 | What comes of each operation: a transaction starts exactly in autocommit mode, only an open one is ended or written under, a rollback throws exactly when something was written, and a statement that completes reports the rows of all of its chunks. |
| DmlHistory.OpenIff | src/cpp/storage/rust_bridge_transaction_manager.cpp:34-66 | A transaction is open exactly when some step started it and no later one ended it. |
| DmlHistory.WrittenIff | src/cpp/storage/rust_bridge_dml.cpp:44-47 | Something was written under it exactly when a step since it started has completed a sink with rows. |
| WriteSafety.OnlyPermittedRequests | src/cpp/storage/rust_bridge_dml.cpp:33-42 | In every run a mutating request is sent only by a statement in autocommit mode on a table with the capability, and is one of the requests of its chunks. |
| WriteSafety.WritesAreSafeIff | src/mutation.rs:20-31 | Over the tables of a loaded catalog, no run ever assigns to the id of a calculated or metadata column if and only if no table that takes writes has an editable column with such an id. |
| WriteSafety.SharesIdIff | src/json.rs:273-286 | That is so exactly when two listed columns with one id differ in being calculated, or row metadata are on and an editable column is called createdAt or updatedAt by id. |
| WriteSafety.CollidingId | src/json.rs:122-127 | A document with a column of id createdAt: runs on it are safe if and only if row metadata are off. |
| ItemSafety.ItemWritesAreSafeIff | src/json.rs:105-115 | Over the tables that the service lists, no run ever assigns to the id of an item that is calculated, or of the row metadata, if and only if in no table but a view such a one shares its id with an item that is not calculated. |
| ItemSafety.OnlyTablesAreWritten | src/json.rs:53-61 | Every request of every run goes to the table of its statement, which the service does not list as a view, and is an insert, an update or a delete as the statement is. |
| DmlRuns.Session.DoExecute | src/cpp/storage/rust_bridge_dml.cpp:44-47 | A statement does what the history says, and keeps the invariant of a session: open transactions are marked exactly when a sink with rows completed under them. |
| DmlRuns.Session.DoEnd | src/cpp/storage/rust_bridge_transaction_manager.cpp:22-66 | So do commit and rollback; a rollback throws exactly when a sink with rows completed under its transaction. |
| AcceptedWrites.AcceptedUnderIff | src/cpp/storage/rust_bridge_dml.cpp:105-108 | In every run some write was accepted under a transaction if and only if a sink with rows completed under it or a statement under it was refused halfway. |
| AcceptedWrites.OnlyUpdatesHalfRefused | src/mutation.rs:120-142 | Only updates can be refused halfway. |
| AcceptedWrites.SilentRollbackIff | src/cpp/storage/rust_bridge_transaction_manager.cpp:54-66 | A rollback over accepted writes succeeds if and only if no sink with rows completed under its transaction and an update under it was refused halfway. |
| AcceptedWrites.UpdateThenRollback | src/cpp/storage/rust_bridge_dml.cpp:97-110 | For one update of one chunk: if and only if nothing forbids it and the service accepts its first request and refuses a later one. |
| AcceptedWrites.RefusedHalfway | src/cpp/storage/rust_bridge_dml.cpp:105-108 | Such a run: two rows, the second refused. |

## Left out

- ScanClient.ScanHandle.NextBatch: a chain of tokens that never ends and has no visible row to come keeps the code fetching for ever; the method asks for a run that ends, or a visible row to come. So `BridgeScan.RunScan` asks for a run, or enough rows for the limit.
- BridgeScan.RunScan: a row without an id aborts the parser, which leaks what `CodaJson.RowsFromJson` says (src/json.rs:169-173); the ledger of the whole scan says nothing after that error.
- CatalogClient.LoadCatalog: its error exits leak as well (src/client.rs:69), and only successful loads are balanced.
- PushdownMeaning.PushdownPreservesIff: that the service compares the literal of `column:literal` with the JSON value of the cell is an assumption about the service, as is that a row has one cell for an id and spells the id as the catalog does. Of str::parse::<f64> (src/scan.rs:35-39) it assumes doubles, integers that are doubles read as themselves, and numbers with a fraction read as the service reads them; of DuckDB's casts, values of their target type.
- QueryText.LiteralRoundTrip: floating point numbers are real numbers with an open printer, which is asked to be faithful for the value at hand; NaN and infinities, which serde_json prints as null, have no place in that.
- TopN.PushedTopNIff: keys are integers, one for each row; ties and NULL ordering are up to the key.
- Naming.PrepareColumns: the suffix is an unbounded integer; the bound shows that an i32 is enough for fewer than 2^31 columns.
- BridgeWrite.ClientUpdateRows: row ids are read in a loop of their own, before the values instead of between them.
- BridgeWrite.Convert: integer widths of DuckDB types; values are mathematical integers within them.
- The refusal of scans outside autocommit mode (src/cpp/rust_bridge_scan.cpp:58-60), which is the same test as for writes.
- Threads and mutexes: one call at a time, as DuckDB makes one thread per scan.
- Output vectors: a chunk is returned as rows instead of written into DuckDB's vectors.
- Addresses of freed blocks are not used again in `Ffi.Heap`; the code compares no pointers but with null.
- The empty batch before the end that src/cpp/rust_bridge_scan.cpp:191-196 skips: the Rust side never gives one, so the model asserts that.
- The freeing of the strings of a pushed query and of the config of a client.
- Row-id uniqueness between the main and the sync chain: synced rows are appended and the code does not compare them.
- Order of the members of a JSON object, UTF-8, parsing and printing of whole bodies, HTTP, DuckDB's casts, and the printing and parsing of numbers with a fraction (parameters of the model).
- Attaching, secrets, DDL messages, labels, loading of the extension: constant tables and plumbing.
