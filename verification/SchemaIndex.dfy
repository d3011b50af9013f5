// The schema's index of tables: a map that ignores the case of its keys.
module SchemaIndex {
  import opened AsciiText
  import opened CatalogClient
  import opened CodaService
  import opened Ffi
  import opened Owners
  import opened Sequences
  import opened Wrappers

  // The key under which a case-insensitive map files a name.
  function Fold(name: string): string {
    Map(ToLower, name)
  }

  lemma FoldIsEquality(a: string, b: string)
    ensures Fold(a) == Fold(b) <==> EqIgnoreCase(a, b)
  {
    forall i | 0 <= i < |a| ensures Fold(a)[i] == ToLower(a[i]) {
      MapAt(ToLower, a, i);
    }
    forall i | 0 <= i < |b| ensures Fold(b)[i] == ToLower(b[i]) {
      MapAt(ToLower, b, i);
    }
    if Fold(a) == Fold(b) {
      assert forall i :: 0 <= i < |a| ==> Fold(a)[i] == Fold(b)[i];
    }
  }

  // The reference: a linear search for the last table of that name (-1 if there is none).
  function LastIndex(tables: seq<CatalogTableInfo>, name: string): (i: int)
    ensures -1 <= i < |tables|
    ensures i >= 0 ==> EqIgnoreCase(tables[i].name, name)
    ensures forall j :: i < j < |tables| ==> !EqIgnoreCase(tables[j].name, name)
  {
    if tables == [] then -1
    else if EqIgnoreCase(tables[|tables| - 1].name, name) then |tables| - 1
    else
      var front := tables[..|tables| - 1];
      var i := LastIndex(front, name);
      assert forall j :: i < j < |front| ==> front[j] == tables[j];
      i
  }

  function LastNamed(tables: seq<CatalogTableInfo>, name: string): Option<CatalogTableInfo> {
    var i := LastIndex(tables, name);
    if i < 0 then None else Some(tables[i])
  }

  // The same search by the key.
  function LastKeyed(tables: seq<CatalogTableInfo>, key: string): Option<CatalogTableInfo> {
    if tables == [] then None
    else if Fold(tables[|tables| - 1].name) == key then Some(tables[|tables| - 1])
    else LastKeyed(tables[..|tables| - 1], key)
  }

  lemma {:induction false} LastKeyedIsLastNamed(tables: seq<CatalogTableInfo>, name: string)
    ensures LastKeyed(tables, Fold(name)) == LastNamed(tables, name)
  {
    if tables != [] {
      FoldIsEquality(tables[|tables| - 1].name, name);
      LastKeyedIsLastNamed(tables[..|tables| - 1], name);
    }
  }

  lemma {:induction false} LastKeyedName(tables: seq<CatalogTableInfo>, key: string)
    ensures var r := LastKeyed(tables, key);
            r.Some? ==> Fold(r.value.name) == key && exists i :: 0 <= i < |tables| && tables[i] == r.value
  {
    if tables != [] && Fold(tables[|tables| - 1].name) != key {
      LastKeyedName(tables[..|tables| - 1], key);
    }
  }

  function Entry(entries: map<string, CatalogTableInfo>, key: string): Option<CatalogTableInfo> {
    if key in entries then Some(entries[key]) else None
  }

  // The index agrees with the search on every key.
  ghost predicate Indexes(entries: map<string, CatalogTableInfo>, tables: seq<CatalogTableInfo>) {
    forall key :: Entry(entries, key) == LastKeyed(tables, key)
  }

  // Filing one more table keeps the index in agreement with the search.
  lemma IndexOneMore(entries: map<string, CatalogTableInfo>, tables: seq<CatalogTableInfo>, table: CatalogTableInfo)
    requires Indexes(entries, tables)
    ensures Indexes(entries[Fold(table.name) := table], tables + [table])
  {
    assert (tables + [table])[..|tables|] == tables;
    forall key ensures Entry(entries[Fold(table.name) := table], key) == LastKeyed(tables + [table], key) {
      assert Entry(entries, key) == LastKeyed(tables, key);
    }
  }

  // Exactly the tables that are found under their names, each once.
  ghost predicate OnePerName(visited: seq<CatalogTableInfo>, tables: seq<CatalogTableInfo>) {
    && (forall v :: v in visited ==> LastNamed(tables, v.name) == Some(v))
    && (forall i :: 0 <= i < |tables| ==> LastNamed(tables, tables[i].name).Some?
                                          && LastNamed(tables, tables[i].name).value in visited)
    && (forall i, j :: 0 <= i < j < |visited| ==> !EqIgnoreCase(visited[i].name, visited[j].name))
  }

  class SchemaEntry {
    var entries: map<string, CatalogTableInfo>

    ghost predicate Valid(tables: seq<CatalogTableInfo>)
      reads this
    {
      Indexes(entries, tables)
    }

    constructor (tables: seq<CatalogTableInfo>)
      ensures Valid(tables)
    {
      entries := map[];
      new;
      for i := 0 to |tables|
        invariant Indexes(entries, tables[..i])
      {
        IndexOneMore(entries, tables[..i], tables[i]);
        assert tables[..i + 1] == tables[..i] + [tables[i]];
        entries := entries[Fold(tables[i].name) := tables[i]];
      }
      assert tables[..|tables|] == tables;
    }

    // LookupEntry
    method Lookup(name: string, ghost tables: seq<CatalogTableInfo>) returns (r: Option<CatalogTableInfo>)
      requires Valid(tables)
      ensures r == LastNamed(tables, name)
    {
      LastKeyedIsLastNamed(tables, name);
      assert Entry(entries, Fold(name)) == LastKeyed(tables, Fold(name));
      if Fold(name) !in entries {
        return None;
      }
      r := Some(entries[Fold(name)]);
    }

    // Scan: the callback sees one table for every name, in no particular order.
    method Scan(wanted: bool, ghost tables: seq<CatalogTableInfo>) returns (visited: seq<CatalogTableInfo>)
      requires Valid(tables)
      ensures !wanted ==> visited == []
      ensures wanted ==> OnePerName(visited, tables)
    {
      if !wanted {
        return [];
      }
      var keys := KeySeq(entries);
      var index := entries;
      visited := seq(|keys|, i requires 0 <= i < |keys| => index[keys[i]]);
      EntriesOnce(entries, tables, keys, visited);
    }
  }

  method KeySeq<T>(entries: map<string, T>) returns (keys: seq<string>)
    ensures forall key :: key in keys <==> key in entries
    ensures forall i, j :: 0 <= i < j < |keys| ==> keys[i] != keys[j]
  {
    keys := [];
    var rest := entries.Keys;
    while rest != {}
      invariant rest <= entries.Keys
      invariant forall key :: key in keys <==> key in entries && key !in rest
      invariant forall i, j :: 0 <= i < j < |keys| ==> keys[i] != keys[j]
      decreases |rest|
    {
      var key :| key in rest;
      keys := keys + [key];
      rest := rest - {key};
    }
  }

  lemma EntriesOnce(entries: map<string, CatalogTableInfo>, tables: seq<CatalogTableInfo>, keys: seq<string>,
                    visited: seq<CatalogTableInfo>)
    requires Indexes(entries, tables) && |visited| == |keys|
    requires forall key :: key in keys <==> key in entries
    requires forall i, j :: 0 <= i < j < |keys| ==> keys[i] != keys[j]
    requires forall i :: 0 <= i < |keys| ==> visited[i] == entries[keys[i]]
    ensures OnePerName(visited, tables)
  {
    forall v | v in visited ensures LastNamed(tables, v.name) == Some(v) {
      var k :| 0 <= k < |visited| && visited[k] == v;
      assert Entry(entries, keys[k]) == LastKeyed(tables, keys[k]);
      LastKeyedName(tables, keys[k]);
      LastKeyedIsLastNamed(tables, v.name);
    }
    forall i | 0 <= i < |tables| ensures LastNamed(tables, tables[i].name).Some?
                                         && LastNamed(tables, tables[i].name).value in visited {
      var key := Fold(tables[i].name);
      LastKeyedIsLastNamed(tables, tables[i].name);
      assert EqIgnoreCase(tables[i].name, tables[i].name);
      assert Entry(entries, key) == LastKeyed(tables, key);
      var k :| 0 <= k < |keys| && keys[k] == key;
      assert visited[k] == entries[key];
    }
    forall i, j | 0 <= i < j < |visited| ensures !EqIgnoreCase(visited[i].name, visited[j].name) {
      assert Entry(entries, keys[i]) == LastKeyed(tables, keys[i]) && Entry(entries, keys[j]) == LastKeyed(tables, keys[j]);
      LastKeyedName(tables, keys[i]);
      LastKeyedName(tables, keys[j]);
      FoldIsEquality(visited[i].name, visited[j].name);
    }
  }

  // A table is found under its own name exactly when no later table has that name.
  lemma FoundUnderOwnName(tables: seq<CatalogTableInfo>, i: nat)
    requires i < |tables|
    ensures LastIndex(tables, tables[i].name) == i
            <==> forall j :: i < j < |tables| ==> !EqIgnoreCase(tables[j].name, tables[i].name)
  {
    var last := LastIndex(tables, tables[i].name);
    assert EqIgnoreCase(tables[i].name, tables[i].name);
    assert last >= i;
  }

  // A catalog is loaded, its tables are indexed, a name is looked up, and all is dropped.
  method LookupInCatalog(service: Service, watched: Ptr, withMetadata: bool, name: string, ghost pages: seq<TablePage>)
      returns (found: Option<CatalogTableInfo>, loaded: bool, live: nat)
    requires IsCatalogRun(service, "", [], pages)
    ensures loaded == !CatalogFails(pages)
    ensures loaded ==> found == LastNamed(CatalogOf(withMetadata, pages), name) && live == 0
  {
    var remote := new Remote(service);
    var heap := new Heap(watched);
    var catalog := LoadCatalog(remote, heap, withMetadata, pages);
    found, loaded := None, catalog.Success?;
    if loaded {
      var response := new CatalogOwner(catalog.value);
      var info := new CatalogOwner.Move(response);
      response.Reset(heap);
      var tables := Map(CatalogTableText, info.catalog.items);
      var schema := new SchemaEntry(tables);
      found := schema.Lookup(name, tables);
      info.Reset(heap);
    }
    live := heap.live;
  }
}
