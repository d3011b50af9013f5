// Filter and order pushdown: what moves from the plan into the request.
module Pushdown {
  import opened BridgeWrite
  import opened CatalogClient
  import opened CatalogRules
  import opened CodaJson
  import opened CodaService
  import opened DuckValues
  import opened QueryText
  import opened ScanValues
  import opened Wrappers

  // Filter expressions, as far as pushdown tells them apart.
  datatype Expr =
    | ColumnRef(tableIndex: nat, columnIndex: nat)
    | Constant(value: Value)
    | Equal(left: Expr, right: Expr)
    | OtherFilter(id: nat)

  // The part of a LogicalGet that pushdown looks at.
  datatype Get = Get(tableIndex: nat, columnIds: seq<ColumnIndex>)

  // ------------------------------------------------------- eligible filters

  predicate NamesColumn(get: Get, table: CatalogTableInfo, e: Expr, c: nat) {
    && e.ColumnRef? && e.tableIndex == get.tableIndex
    && e.columnIndex < |get.columnIds| && get.columnIds[e.columnIndex] == Physical(c)
    && c < |table.columns| && Has(table.columns[c].capabilities, COLUMN_FILTER_EQUALITY)
  }

  // `column = constant` or `constant = column`, for a filterable column and a constant that
  // is not NULL.
  predicate IsEquality(get: Get, table: CatalogTableInfo, e: Expr, c: nat, v: Value) {
    && e.Equal? && !v.Null?
    && ((NamesColumn(get, table, e.left, c) && e.right == Constant(v))
        || (e.left == Constant(v) && NamesColumn(get, table, e.right, c)))
  }

  ghost predicate Eligible(get: Get, table: CatalogTableInfo, e: Expr) {
    exists c: nat, v :: IsEquality(get, table, e, c, v)
  }

  // It reads `column = constant` or `constant = column`.
  ghost predicate Reads(get: Get, e: Expr, i: nat, v: Value) {
    || e == Equal(ColumnRef(get.tableIndex, i), Constant(v))
    || e == Equal(Constant(v), ColumnRef(get.tableIndex, i))
  }

  ghost predicate Filterable(get: Get, table: CatalogTableInfo, i: nat) {
    && i < |get.columnIds| && get.columnIds[i].Physical? && get.columnIds[i].index < |table.columns|
    && Has(table.columns[get.columnIds[i].index].capabilities, COLUMN_FILTER_EQUALITY)
  }

  // A filter is eligible exactly when it reads so, for a filterable column and a constant that is
  // not NULL.
  lemma {:induction false} EligibleIff(get: Get, table: CatalogTableInfo, e: Expr)
    ensures Eligible(get, table, e)
            <==> exists i: nat, v :: Reads(get, e, i, v) && Filterable(get, table, i) && v != Null
  {
    if c: nat, v :| IsEquality(get, table, e, c, v) {
      var column := if e.left.ColumnRef? && e.right == Constant(v) then e.left else e.right;
      assert Reads(get, e, column.columnIndex, v) && Filterable(get, table, column.columnIndex);
    }
    if i: nat, v :| Reads(get, e, i, v) && Filterable(get, table, i) && v != Null {
      assert IsEquality(get, table, e, get.columnIds[i].index, v);
    }
  }

  // The query text that says the same as an eligible filter, and its description.
  ghost predicate IsQueryFor(numbers: Numbers, get: Get, table: CatalogTableInfo, e: Expr, query: string, description: string) {
    exists c: nat, v :: IsEquality(get, table, e, c, v)
                   && BuildEqualityQuery(numbers, table.columns[c].id, table.columns[c].name, InputOf(v))
                      == Success((query, description))
  }

  // TryExtractRustBridgeEqualityFilter
  method TryExtract(numbers: Numbers, get: Get, table: CatalogTableInfo, e: Expr)
      returns (ok: bool, query: string, description: string)
    ensures ok <==> Eligible(get, table, e)
    ensures ok ==> IsQueryFor(numbers, get, table, e, query, description)
  {
    ok, query, description := false, "", "";
    if !e.Equal? {
      return;
    }
    var left, right := e.left, e.right;
    if !left.ColumnRef? || !right.Constant? {
      left, right := right, left;
    }
    if !left.ColumnRef? || !right.Constant? {
      return;
    }
    if left.tableIndex != get.tableIndex {
      return;
    }
    if left.columnIndex >= |get.columnIds| {
      return;
    }
    var columnIndex := get.columnIds[left.columnIndex];
    if !columnIndex.Physical? {
      return;
    }
    var colIdx := columnIndex.index;
    if colIdx >= |table.columns| {
      return;
    }
    var column := table.columns[colIdx];
    if !Has(column.capabilities, COLUMN_FILTER_EQUALITY) {
      return;
    }
    var constant := right.value;
    if constant.Null? {
      return;
    }
    assert IsEquality(get, table, e, colIdx, constant);
    var buffer := new StringVector();
    var value := Convert(buffer, constant);
    var inputs := ReadInputs(buffer, [value], [InputOf(constant)]);
    var built := BuildEqualityQuery(numbers, column.id, column.name, inputs[0]);
    if built.Failure? {
      return;
    }
    ok, query, description := true, built.value.0, built.value.1;
  }

  // ------------------------------------------------------- the bind data

  // The first eligible filter; |filters| if there is none.
  ghost predicate IsFirstEligible(get: Get, table: CatalogTableInfo, filters: seq<Expr>, k: nat) {
    && k <= |filters|
    && (forall i :: 0 <= i < k ==> !Eligible(get, table, filters[i]))
    && (k < |filters| ==> Eligible(get, table, filters[k]))
  }

  datatype OrderOptions = OrderOptions(rowLimit: Option<nat>, descending: bool, columnIndex: ColumnIndex)

  // The column an order may be pushed for.
  predicate Sortable(table: CatalogTableInfo, order: OrderOptions) {
    && order.rowLimit.Some? && !order.descending && order.columnIndex.Physical?
    && order.columnIndex.index < |table.columns|
    && Has(table.columns[order.columnIndex.index].capabilities, COLUMN_SORT_ASC)
  }

  // RustBridgeScanBindData
  class BindData {
    const table: CatalogTableInfo
    var pushedQuery: string
    var pushedQueryDescription: string
    var pushedSortBy: string
    var pushedLimit: nat

    constructor (table: CatalogTableInfo)
      ensures this.table == table && pushedQuery == "" && pushedSortBy == "" && pushedLimit == 0
    {
      this.table := table;
      pushedQuery, pushedQueryDescription, pushedSortBy, pushedLimit := "", "", "", 0;
    }

    // RustBridgeScanPushdownComplexFilter
    method PushdownComplexFilter(numbers: Numbers, get: Get, filters: seq<Expr>)
        returns (rest: seq<Expr>, ghost k: nat)
      modifies `pushedQuery, `pushedQueryDescription
      ensures old(pushedQuery) == "" ==> IsFirstEligible(get, table, filters, k)
      ensures old(pushedQuery) == "" && k < |filters| ==>
                && rest == filters[..k] + filters[k + 1..] && pushedQuery != ""
                && IsQueryFor(numbers, get, table, filters[k], pushedQuery, pushedQueryDescription)
      ensures old(pushedQuery) != "" || k == |filters| ==>
                && rest == filters
                && pushedQuery == old(pushedQuery) && pushedQueryDescription == old(pushedQueryDescription)
    {
      rest, k := filters, |filters|;
      if pushedQuery != "" {
        return;
      }
      for filterIdx := 0 to |filters|
        invariant pushedQuery == "" && pushedQueryDescription == old(pushedQueryDescription)
        invariant forall i :: 0 <= i < filterIdx ==> !Eligible(get, table, filters[i])
      {
        var ok, query, description := TryExtract(numbers, get, table, filters[filterIdx]);
        if !ok {
          continue;
        }
        pushedQuery := query;
        pushedQueryDescription := description;
        rest, k := filters[..filterIdx] + filters[filterIdx + 1..], filterIdx;
        return;
      }
    }

    // RustBridgeScanSetScanOrder
    method SetScanOrder(order: Option<OrderOptions>)
      modifies `pushedSortBy, `pushedLimit
      ensures order.Some? && order.value.rowLimit.Some? && !order.value.descending && order.value.columnIndex.Physical?
              && order.value.columnIndex.index < |table.columns|
              && Has(table.columns[order.value.columnIndex.index].capabilities, COLUMN_SORT_ASC) ==>
                && pushedSortBy == table.columns[order.value.columnIndex.index].id
                && pushedLimit == order.value.rowLimit.value
      ensures !(order.Some? && Sortable(table, order.value)) ==>
                pushedSortBy == old(pushedSortBy) && pushedLimit == old(pushedLimit)
      ensures pushedSortBy != old(pushedSortBy) || pushedLimit != old(pushedLimit) ==>
                && order.Some? && order.value.rowLimit.Some? && !order.value.descending
                && order.value.columnIndex.Physical? && order.value.columnIndex.index < |table.columns|
                && Has(table.columns[order.value.columnIndex.index].capabilities, COLUMN_SORT_ASC)
    {
      if order.None? || order.value.rowLimit.None? {
        return;
      }
      if order.value.descending {
        return;
      }
      // A virtual column's primary index is beyond any table.
      var index := order.value.columnIndex;
      if !index.Physical? || index.index >= |table.columns| {
        return;
      }
      var column := table.columns[index.index];
      if !Has(column.capabilities, COLUMN_SORT_ASC) {
        return;
      }
      pushedSortBy := column.id;
      pushedLimit := order.value.rowLimit.value;
    }
  }

  // A second pushdown changes nothing.
  method PushdownTwice(bind: BindData, numbers: Numbers, get: Get, filters: seq<Expr>)
      returns (rest: seq<Expr>, again: seq<Expr>, query: string)
    modifies bind
    ensures again == rest && bind.pushedQuery == query
  {
    ghost var k;
    rest, k := bind.PushdownComplexFilter(numbers, get, filters);
    query := bind.pushedQuery;
    ghost var j;
    again, j := bind.PushdownComplexFilter(numbers, get, rest);
  }

  // On the tables of a loaded catalog only the row metadata columns are sorted by the service.
  lemma OnlyMetadataIsSorted(s: Service, withMetadata: bool, log: seq<Request>, pages: seq<TablePage>, t: nat,
                             order: OrderOptions)
    requires IsCatalogRun(s, "", log, pages) && t < |CatalogOf(withMetadata, pages)|
    requires Sortable(CatalogOf(withMetadata, pages)[t], order)
    ensures var column := CatalogOf(withMetadata, pages)[t].columns[order.columnIndex.index];
            Has(column.capabilities, COLUMN_SYSTEM) && (column.id == "createdAt" || column.id == "updatedAt")
  {
    CatalogSound(s, withMetadata, log, pages);
    var table := CatalogOf(withMetadata, pages)[t];
    assert SoundTable(table) && SoundColumn(table.columns[order.columnIndex.index]);
  }
}
