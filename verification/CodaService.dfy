// The remote Coda service: any function of everything that was asked so far.
module CodaService {
  import opened Wrappers

  // Bodies of writing requests.
  datatype Json =
    | JNull
    | JBool(b: bool)
    | JInt(n: int)
    | JReal(x: real)
    | JString(s: string)
    | JArray(items: seq<Json>)
    | JObject(members: seq<(string, Json)>)

  // An absent token is the empty string.
  datatype Request =
    | ListTables(pageToken: string)
    | ListColumns(tableId: string, pageToken: string)
    | ListRows(tableId: string, query: string, sortBy: string, limit: nat, pageToken: string, syncToken: string)
    | UpsertRows(tableId: string, payload: Json)
    | UpdateRow(tableId: string, rowId: string, payload: Json)
    | DeleteRows(tableId: string, payload: Json)

  // Response bodies after JSON parsing; None is a missing or ill-typed member.
  datatype TableItem = TableItem(id: Option<string>, name: Option<string>, tableType: Option<string>)
  datatype TablesBody = TablesBody(items: Option<seq<TableItem>>, nextPageToken: Option<string>)

  datatype ColumnFormat = ColumnFormat(formatType: Option<string>, isArray: Option<bool>)
  datatype ColumnItem = ColumnItem(id: Option<string>, name: Option<string>, format: Option<ColumnFormat>,
                                   calculated: Option<bool>)
  datatype ColumnsBody = ColumnsBody(items: Option<seq<ColumnItem>>, nextPageToken: Option<string>)

  // A cell of a row; numbers, arrays and objects are kept as their JSON text.
  datatype CellJson = CellNull | CellBool(b: bool) | CellString(s: string) | CellOther(text: string)
  datatype RowItem = RowItem(id: Option<string>, createdAt: Option<string>, updatedAt: Option<string>,
                             deleted: Option<bool>, isDeleted: Option<bool>,
                             values: Option<seq<(string, CellJson)>>)
  datatype RowsBody = RowsBody(items: Option<seq<RowItem>>, nextPageToken: Option<string>,
                               nextSyncToken: Option<string>)

  // An answer may depend on the whole log; the request answered is the last one in it.
  datatype Service = Service(
    tables: seq<Request> -> Result<TablesBody, Error>,
    columns: seq<Request> -> Result<ColumnsBody, Error>,
    rows: seq<Request> -> Result<RowsBody, Error>,
    accepts: seq<Request> -> bool
  )

  class Remote {
    const service: Service
    var log: seq<Request>

    constructor (service: Service)
      ensures this.service == service && log == []
    {
      this.service := service;
      log := [];
    }

    method SendListTables(request: Request) returns (reply: Result<TablesBody, Error>)
      modifies this
      ensures log == old(log) + [request] && reply == service.tables(log)
    {
      log := log + [request];
      reply := service.tables(log);
    }

    method SendListColumns(request: Request) returns (reply: Result<ColumnsBody, Error>)
      modifies this
      ensures log == old(log) + [request] && reply == service.columns(log)
    {
      log := log + [request];
      reply := service.columns(log);
    }

    method SendListRows(request: Request) returns (reply: Result<RowsBody, Error>)
      modifies this
      ensures log == old(log) + [request] && reply == service.rows(log)
    {
      log := log + [request];
      reply := service.rows(log);
    }

    method SendWrite(request: Request) returns (accepted: bool)
      modifies this
      ensures log == old(log) + [request] && accepted == service.accepts(log)
    {
      log := log + [request];
      accepted := service.accepts(log);
    }
  }
}
