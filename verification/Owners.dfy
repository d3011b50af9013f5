// The move-only owners on the C++ side: each block they hold is freed once, wherever it moves.
module Owners {
  import opened CatalogClient
  import opened CodaJson
  import opened CodaService
  import opened Ffi
  import opened ScanClient
  import opened Sequences
  import opened Wrappers

  const NO_BATCH: ScanBatch := ScanBatch(Raw(0, []), false)
  const NO_CATALOG: Raw<CatalogTable> := Raw(0, [])
  const NO_HANDLE: Ptr := 0

  // RustBridgeScanBatch
  class BatchOwner {
    var batch: ScanBatch

    // What it owns of a block.
    ghost function Owned(p: Ptr): nat
      reads this
    {
      BatchOwns(p, batch)
    }

    constructor (batch: ScanBatch)
      ensures this.batch == batch
    {
      this.batch := batch;
    }

    constructor Move(other: BatchOwner)
      modifies other
      ensures batch == old(other.batch) && other.batch == NO_BATCH
    {
      batch := other.batch;
      new;
      other.batch := NO_BATCH;
    }

    // Move assignment: what was held before is freed, and the other owner is left empty.
    method Assign(other: BatchOwner, heap: Heap)
      requires heap.Valid() && (this != other ==> Owned(heap.watched) <= heap.live)
      modifies this, other, heap
      ensures heap.Valid() && batch == old(other.batch)
      ensures this == other ==> heap.live == old(heap.live)
      ensures this != other ==> other.batch == NO_BATCH && heap.live == old(heap.live) - old(Owned(heap.watched))
    {
      if this != other {
        Reset(heap);
        batch := other.batch;
        other.batch := NO_BATCH;
      }
    }

    // Also the destructor.
    method Reset(heap: Heap)
      requires heap.Valid() && Owned(heap.watched) <= heap.live
      modifies this, heap
      ensures heap.Valid() && batch == NO_BATCH
      ensures heap.live == old(heap.live) - old(Owned(heap.watched))
    {
      FreeRows(batch.rows, heap);
      batch := NO_BATCH;
    }
  }

  // RustBridgeCatalogResponse
  class CatalogOwner {
    var catalog: Raw<CatalogTable>

    // What it owns of a block.
    ghost function Owned(p: Ptr): nat
      reads this
    {
      CatalogOwns(p, catalog)
    }

    constructor (catalog: Raw<CatalogTable>)
      ensures this.catalog == catalog
    {
      this.catalog := catalog;
    }

    constructor Move(other: CatalogOwner)
      modifies other
      ensures catalog == old(other.catalog) && other.catalog == NO_CATALOG
    {
      catalog := other.catalog;
      new;
      other.catalog := NO_CATALOG;
    }

    // Move assignment: what was held before is freed, and the other owner is left empty.
    method Assign(other: CatalogOwner, heap: Heap)
      requires heap.Valid() && (this != other ==> Owned(heap.watched) <= heap.live)
      modifies this, other, heap
      ensures heap.Valid() && catalog == old(other.catalog)
      ensures this == other ==> heap.live == old(heap.live)
      ensures this != other ==> other.catalog == NO_CATALOG && heap.live == old(heap.live) - old(Owned(heap.watched))
    {
      if this != other {
        Reset(heap);
        catalog := other.catalog;
        other.catalog := NO_CATALOG;
      }
    }

    // Also the destructor.
    method Reset(heap: Heap)
      requires heap.Valid() && Owned(heap.watched) <= heap.live
      modifies this, heap
      ensures heap.Valid() && catalog == NO_CATALOG
      ensures heap.live == old(heap.live) - old(Owned(heap.watched))
    {
      FreeCatalog(catalog, heap);
      catalog := NO_CATALOG;
    }
  }

  // RustBridgeScanHandle; the block is the boxed ScanHandle, whose strings Rust frees by itself
  class HandleOwner {
    var handle: Ptr

    // What it owns of a block.
    ghost function Owned(p: Ptr): nat
      reads this
    {
      Owns(p, handle)
    }

    constructor (handle: Ptr)
      ensures this.handle == handle
    {
      this.handle := handle;
    }

    constructor Move(other: HandleOwner)
      modifies other
      ensures handle == old(other.handle) && other.handle == NO_HANDLE
    {
      handle := other.handle;
      new;
      other.handle := NO_HANDLE;
    }

    // Move assignment: what was held before is freed, and the other owner is left empty.
    method Assign(other: HandleOwner, heap: Heap)
      requires heap.Valid() && (this != other ==> Owned(heap.watched) <= heap.live)
      modifies this, other, heap
      ensures heap.Valid() && handle == old(other.handle)
      ensures this == other ==> heap.live == old(heap.live)
      ensures this != other ==> other.handle == NO_HANDLE && heap.live == old(heap.live) - old(Owned(heap.watched))
    {
      if this != other {
        Reset(heap);
        handle := other.handle;
        other.handle := NO_HANDLE;
      }
    }

    // Also the destructor.
    method Reset(heap: Heap)
      requires heap.Valid() && Owned(heap.watched) <= heap.live
      modifies this, heap
      ensures heap.Valid() && handle == NO_HANDLE
      ensures heap.live == old(heap.live) - old(Owned(heap.watched))
    {
      if handle != 0 {
        heap.Release(handle);
      }
      handle := NO_HANDLE;
    }
  }

  // RustBridgeClient::OpenScan: the boxed handle is returned by move.
  method OpenScan(heap: Heap) returns (scan: HandleOwner)
    requires heap.Valid()
    modifies heap
    ensures fresh(scan) && heap.Valid() && heap.live == old(heap.live) + scan.Owned(heap.watched)
  {
    var box := heap.Allocate();
    var temporary := new HandleOwner(box);
    scan := new HandleOwner.Move(temporary);
    temporary.Reset(heap);
  }

  // A catalog that is loaded, returned by move, kept by the attached database and dropped with it.
  method RunCatalog(service: Service, watched: Ptr, withMetadata: bool, ghost pages: seq<TablePage>)
      returns (catalog: Option<seq<CatalogTableInfo>>, sent: seq<Request>, live: nat)
    requires IsCatalogRun(service, "", [], pages)
    ensures sent == LogAfterCatalog("", [], pages)
    ensures catalog == if CatalogFails(pages) then None else Some(CatalogOf(withMetadata, pages))
    ensures catalog.Some? ==> live == 0
  {
    var remote := new Remote(service);
    var heap := new Heap(watched);
    var loaded := LoadCatalog(remote, heap, withMetadata, pages);
    sent, catalog := remote.log, None;
    if loaded.Success? {
      var response := new CatalogOwner(loaded.value);
      var kept := new CatalogOwner.Move(response);
      response.Reset(heap);
      catalog := Some(Map(CatalogTableText, kept.catalog.items));
      kept.Reset(heap);
    }
    live := heap.live;
  }
}
