// Whatever is done with the move-only owners, each block they were given is freed once.
module OwnerRuns {
  import opened CatalogClient
  import opened Ffi
  import opened Owners
  import opened ScanClient
  import opened Wrappers

  // What can be done with owners, which are numbered in the order they are made: an owner of a value
  // is made, or made by a move; one is assigned to another (or to itself) by a move; one is reset,
  // as its destructor does.
  datatype OwnerOp<T> = Make(value: T) | MakeFrom(source: nat) | MoveTo(target: nat, source: nat) | Clear(owner: nat) {
    predicate Fits(owners: nat) {
      match this
      case Make(_) => true
      case MakeFrom(source) => source < owners
      case MoveTo(target, source) => target < owners && source < owners
      case Clear(owner) => owner < owners
    }

    predicate Makes() {
      Make? || MakeFrom?
    }

    // What the owners hold afterwards ...
    function After(held: seq<T>, empty: T): seq<T>
      requires Fits(|held|)
    {
      match this
      case Make(value) => held + [value]
      case MakeFrom(source) => held[source := empty] + [held[source]]
      case MoveTo(target, source) => if target == source then held else held[target := held[source]][source := empty]
      case Clear(owner) => held[owner := empty]
    }

    // ... what is freed, and what is new.
    function Freed(held: seq<T>): seq<T>
      requires Fits(|held|)
    {
      match this
      case MoveTo(target, source) => if target == source then [] else [held[target]]
      case Clear(owner) => [held[owner]]
      case _ => []
    }

    function New(): seq<T> {
      if Make? then [value] else []
    }
  }

  predicate AllFit<T>(ops: seq<OwnerOp<T>>) {
    ops == [] || (AllFit(ops[..|ops| - 1]) && ops[|ops| - 1].Fits(Made(ops[..|ops| - 1])))
  }

  // How many owners were made.
  function Made<T>(ops: seq<OwnerOp<T>>): nat {
    if ops == [] then 0 else Made(ops[..|ops| - 1]) + if ops[|ops| - 1].Makes() then 1 else 0
  }

  // What they were given, and what they hold.
  function Given<T>(ops: seq<OwnerOp<T>>): seq<T> {
    if ops == [] then [] else Given(ops[..|ops| - 1]) + ops[|ops| - 1].New()
  }

  function Held<T>(ops: seq<OwnerOp<T>>, empty: T): (held: seq<T>)
    requires AllFit(ops)
    ensures |held| == Made(ops)
  {
    if ops == [] then [] else ops[|ops| - 1].After(Held(ops[..|ops| - 1], empty), empty)
  }

  // An operation neither loses nor doubles a block: what is held and freed afterwards is what was
  // held and is new.
  lemma OpKeeps<T>(own: (Ptr, T) -> nat, p: Ptr, op: OwnerOp<T>, held: seq<T>, empty: T)
    requires op.Fits(|held|) && own(p, empty) == 0
    ensures AllOwn(own, p, op.After(held, empty)) + AllOwn(own, p, op.Freed(held))
            == AllOwn(own, p, held) + AllOwn(own, p, op.New())
  {
    match op {
      case Make(value) =>
        AllOwnPush(own, p, held, value);
        OwnOne(own, p, value);
      case MakeFrom(source) =>
        AllOwnUpdate(own, p, held, source, empty);
        AllOwnPush(own, p, held[source := empty], held[source]);
      case MoveTo(target, source) =>
        if target != source {
          AllOwnUpdate(own, p, held, target, held[source]);
          AllOwnUpdate(own, p, held[target := held[source]], source, empty);
          OwnOne(own, p, held[target]);
        }
      case Clear(owner) =>
        AllOwnUpdate(own, p, held, owner, empty);
        OwnOne(own, p, held[owner]);
    }
  }

  lemma OwnOne<T>(own: (Ptr, T) -> nat, p: Ptr, x: T)
    ensures AllOwn(own, p, [x]) == own(p, x)
  {
    assert [x][..0] == [];
  }

  // Nothing was given twice, so what an operation frees is still live.
  lemma FreedIsLive<T>(own: (Ptr, T) -> nat, p: Ptr, op: OwnerOp<T>, held: seq<T>)
    requires op.Fits(|held|)
    ensures AllOwn(own, p, op.Freed(held)) <= AllOwn(own, p, held)
  {
    match op {
      case MoveTo(target, source) =>
        if target != source {
          OwnOne(own, p, held[target]);
          AllOwnUpdate(own, p, held, target, held[target]);
        }
      case Clear(owner) =>
        OwnOne(own, p, held[owner]);
        AllOwnUpdate(own, p, held, owner, held[owner]);
      case _ =>
    }
  }

  // Operations that make sense, with all that they give in place.
  predicate Playable<T>(own: (Ptr, T) -> nat, p: Ptr, ops: seq<OwnerOp<T>>, live: nat) {
    AllFit(ops) && AllOwn(own, p, Given(ops)) <= live
  }

  // What has come of them: the owners hold what they should, and every block that was given is
  // held, or was freed once. (Folded, as Wrappers.LookAt says.)
  ghost predicate Played<T>(own: (Ptr, T) -> nat, p: Ptr, ops: seq<OwnerOp<T>>, empty: T, held: seq<T>,
                            before: nat, live: nat)
  {
    forall look {:trigger LookAt(look, |ops|)} :: LookAt(look, |ops|) ==>
      && Playable(own, p, ops, before) && held == Held(ops, empty)
      && live == before - AllOwn(own, p, Given(ops)) + AllOwn(own, p, held)
  }

  lemma PlayNothing<T>(own: (Ptr, T) -> nat, p: Ptr, empty: T, live: nat)
    ensures Played(own, p, [], empty, [], live, live)
  {
  }

  lemma PlayFront<T>(own: (Ptr, T) -> nat, p: Ptr, ops: seq<OwnerOp<T>>, live: nat)
    requires Playable(own, p, ops, live) && ops != []
    ensures Playable(own, p, ops[..|ops| - 1], live)
  {
    var n := |ops| - 1;
    AllOwnConcat(own, p, Given(ops[..n]), ops[n].New());
  }

  lemma PlayNext<T>(own: (Ptr, T) -> nat, p: Ptr, ops: seq<OwnerOp<T>>, empty: T, held: seq<T>, before: nat, live: nat)
    requires Playable(own, p, ops, before) && ops != [] && own(p, empty) == 0
    requires Played(own, p, ops[..|ops| - 1], empty, held, before, live)
    ensures var op := ops[|ops| - 1];
            && op.Fits(|held|) && AllOwn(own, p, op.Freed(held)) <= AllOwn(own, p, held) <= live
            && Played(own, p, ops, empty, op.After(held, empty), before, live - AllOwn(own, p, op.Freed(held)))
  {
    var front, op := ops[..|ops| - 1], ops[|ops| - 1];
    assert LookAt(0, |front|);
    FreedIsLive(own, p, op, held);
    OpKeeps(own, p, op, held, empty);
    AllOwnConcat(own, p, Given(front), op.New());
  }

  lemma PlayEnd<T>(own: (Ptr, T) -> nat, p: Ptr, ops: seq<OwnerOp<T>>, empty: T, held: seq<T>, before: nat, live: nat)
    requires Played(own, p, ops, empty, held, before, live)
    ensures AllOwn(own, p, Given(ops)) <= before
    ensures live == before - AllOwn(own, p, Given(ops)) + AllOwn(own, p, held)
  {
    assert LookAt(0, |ops|);
  }

  // ------------------------------------------------------- batches

  ghost predicate BatchesHold(owners: seq<BatchOwner>, held: seq<ScanBatch>)
    reads owners
  {
    |owners| == |held| && forall look {:trigger LookInside(look)} :: LookInside(look) ==>
      && (forall i, j :: 0 <= i < j < |owners| ==> owners[i] != owners[j])
      && forall i :: 0 <= i < |owners| ==> owners[i].batch == held[i]
  }

  method MoveBatch(owners: seq<BatchOwner>, op: OwnerOp<ScanBatch>, heap: Heap, ghost held: seq<ScanBatch>)
    requires heap.Valid() && BatchesHold(owners, held) && op.Fits(|held|) && !op.Makes()
    requires AllOwn(BatchOwns, heap.watched, held) <= heap.live
    modifies owners, heap
    ensures heap.Valid() && BatchesHold(owners, op.After(held, NO_BATCH))
    ensures heap.live == old(heap.live) - AllOwn(BatchOwns, heap.watched, op.Freed(held))
  {
    assert LookInside(0);
    FreedIsLive(BatchOwns, heap.watched, op, held);
    if op.MoveTo? {
      owners[op.target].Assign(owners[op.source], heap);
    } else {
      owners[op.owner].Reset(heap);
    }
  }

  method DoBatch(owners: seq<BatchOwner>, op: OwnerOp<ScanBatch>, heap: Heap, ghost held: seq<ScanBatch>)
      returns (after: seq<BatchOwner>)
    requires heap.Valid() && BatchesHold(owners, held) && op.Fits(|held|)
    requires AllOwn(BatchOwns, heap.watched, held) <= heap.live
    modifies owners, heap
    ensures heap.Valid() && BatchesHold(after, op.After(held, NO_BATCH))
    ensures heap.live == old(heap.live) - AllOwn(BatchOwns, heap.watched, op.Freed(held))
    ensures owners <= after && forall i :: |owners| <= i < |after| ==> fresh(after[i])
  {
    if !op.Makes() {
      MoveBatch(owners, op, heap, held);
      return owners;
    }
    assert LookInside(0);
    var owner;
    if op.Make? {
      owner := new BatchOwner(op.value);
    } else {
      owner := new BatchOwner.Move(owners[op.source]);
    }
    after := owners + [owner];
  }

  // Any operations: what was given is held, or freed once.
  method PlayBatches(ops: seq<OwnerOp<ScanBatch>>, heap: Heap) returns (owners: seq<BatchOwner>, ghost held: seq<ScanBatch>)
    requires heap.Valid() && Playable(BatchOwns, heap.watched, ops, heap.live)
    modifies heap
    ensures heap.Valid() && BatchesHold(owners, held) && forall i :: 0 <= i < |owners| ==> fresh(owners[i])
    ensures Played(BatchOwns, heap.watched, ops, NO_BATCH, held, old(heap.live), heap.live)
  {
    if ops == [] {
      owners, held := [], [];
      PlayNothing(BatchOwns, heap.watched, NO_BATCH, heap.live);
      return;
    }
    var n := |ops| - 1;
    PlayFront(BatchOwns, heap.watched, ops, heap.live);
    owners, held := PlayBatches(ops[..n], heap);
    PlayNext(BatchOwns, heap.watched, ops, NO_BATCH, held, old(heap.live), heap.live);
    owners := DoBatch(owners, ops[n], heap, held);
    held := ops[n].After(held, NO_BATCH);
  }

  // Any operations, and then the end of all owners: every block that was given is freed once.
  method ReleaseBatches(ops: seq<OwnerOp<ScanBatch>>, heap: Heap)
    requires heap.Valid() && Playable(BatchOwns, heap.watched, ops, heap.live)
    modifies heap
    ensures heap.Valid() && heap.live == old(heap.live) - AllOwn(BatchOwns, heap.watched, Given(ops))
  {
    var owners;
    ghost var held;
    owners, held := PlayBatches(ops, heap);
    PlayEnd(BatchOwns, heap.watched, ops, NO_BATCH, held, old(heap.live), heap.live);
    assert LookInside(0) && held[0..] == held;
    for i := 0 to |owners|
      invariant heap.Valid() && forall j :: i <= j < |owners| ==> owners[j].batch == held[j]
      invariant heap.live == old(heap.live) - AllOwn(BatchOwns, heap.watched, Given(ops)) + AllOwn(BatchOwns, heap.watched, held[i..])
    {
      AllOwnHead(BatchOwns, heap.watched, held, i);
      owners[i].Reset(heap);
    }
  }

  // ------------------------------------------------------- catalogs

  ghost predicate CatalogsHold(owners: seq<CatalogOwner>, held: seq<Raw<CatalogTable>>)
    reads owners
  {
    |owners| == |held| && forall look {:trigger LookInside(look)} :: LookInside(look) ==>
      && (forall i, j :: 0 <= i < j < |owners| ==> owners[i] != owners[j])
      && forall i :: 0 <= i < |owners| ==> owners[i].catalog == held[i]
  }

  method MoveCatalog(owners: seq<CatalogOwner>, op: OwnerOp<Raw<CatalogTable>>, heap: Heap, ghost held: seq<Raw<CatalogTable>>)
    requires heap.Valid() && CatalogsHold(owners, held) && op.Fits(|held|) && !op.Makes()
    requires AllOwn(CatalogOwns, heap.watched, held) <= heap.live
    modifies owners, heap
    ensures heap.Valid() && CatalogsHold(owners, op.After(held, NO_CATALOG))
    ensures heap.live == old(heap.live) - AllOwn(CatalogOwns, heap.watched, op.Freed(held))
  {
    assert LookInside(0);
    FreedIsLive(CatalogOwns, heap.watched, op, held);
    if op.MoveTo? {
      owners[op.target].Assign(owners[op.source], heap);
    } else {
      owners[op.owner].Reset(heap);
    }
  }

  method DoCatalog(owners: seq<CatalogOwner>, op: OwnerOp<Raw<CatalogTable>>, heap: Heap, ghost held: seq<Raw<CatalogTable>>)
      returns (after: seq<CatalogOwner>)
    requires heap.Valid() && CatalogsHold(owners, held) && op.Fits(|held|)
    requires AllOwn(CatalogOwns, heap.watched, held) <= heap.live
    modifies owners, heap
    ensures heap.Valid() && CatalogsHold(after, op.After(held, NO_CATALOG))
    ensures heap.live == old(heap.live) - AllOwn(CatalogOwns, heap.watched, op.Freed(held))
    ensures owners <= after && forall i :: |owners| <= i < |after| ==> fresh(after[i])
  {
    if !op.Makes() {
      MoveCatalog(owners, op, heap, held);
      return owners;
    }
    assert LookInside(0);
    var owner;
    if op.Make? {
      owner := new CatalogOwner(op.value);
    } else {
      owner := new CatalogOwner.Move(owners[op.source]);
    }
    after := owners + [owner];
  }

  // Any operations: what was given is held, or freed once.
  method PlayCatalogs(ops: seq<OwnerOp<Raw<CatalogTable>>>, heap: Heap) returns (owners: seq<CatalogOwner>, ghost held: seq<Raw<CatalogTable>>)
    requires heap.Valid() && Playable(CatalogOwns, heap.watched, ops, heap.live)
    modifies heap
    ensures heap.Valid() && CatalogsHold(owners, held) && forall i :: 0 <= i < |owners| ==> fresh(owners[i])
    ensures Played(CatalogOwns, heap.watched, ops, NO_CATALOG, held, old(heap.live), heap.live)
  {
    if ops == [] {
      owners, held := [], [];
      PlayNothing(CatalogOwns, heap.watched, NO_CATALOG, heap.live);
      return;
    }
    var n := |ops| - 1;
    PlayFront(CatalogOwns, heap.watched, ops, heap.live);
    owners, held := PlayCatalogs(ops[..n], heap);
    PlayNext(CatalogOwns, heap.watched, ops, NO_CATALOG, held, old(heap.live), heap.live);
    owners := DoCatalog(owners, ops[n], heap, held);
    held := ops[n].After(held, NO_CATALOG);
  }

  // Any operations, and then the end of all owners: every block that was given is freed once.
  method ReleaseCatalogs(ops: seq<OwnerOp<Raw<CatalogTable>>>, heap: Heap)
    requires heap.Valid() && Playable(CatalogOwns, heap.watched, ops, heap.live)
    modifies heap
    ensures heap.Valid() && heap.live == old(heap.live) - AllOwn(CatalogOwns, heap.watched, Given(ops))
  {
    var owners;
    ghost var held;
    owners, held := PlayCatalogs(ops, heap);
    PlayEnd(CatalogOwns, heap.watched, ops, NO_CATALOG, held, old(heap.live), heap.live);
    assert LookInside(0) && held[0..] == held;
    for i := 0 to |owners|
      invariant heap.Valid() && forall j :: i <= j < |owners| ==> owners[j].catalog == held[j]
      invariant heap.live == old(heap.live) - AllOwn(CatalogOwns, heap.watched, Given(ops)) + AllOwn(CatalogOwns, heap.watched, held[i..])
    {
      AllOwnHead(CatalogOwns, heap.watched, held, i);
      owners[i].Reset(heap);
    }
  }

  // ------------------------------------------------------- scan handles

  ghost predicate HandlesHold(owners: seq<HandleOwner>, held: seq<Ptr>)
    reads owners
  {
    |owners| == |held| && forall look {:trigger LookInside(look)} :: LookInside(look) ==>
      && (forall i, j :: 0 <= i < j < |owners| ==> owners[i] != owners[j])
      && forall i :: 0 <= i < |owners| ==> owners[i].handle == held[i]
  }

  method MoveHandle(owners: seq<HandleOwner>, op: OwnerOp<Ptr>, heap: Heap, ghost held: seq<Ptr>)
    requires heap.Valid() && HandlesHold(owners, held) && op.Fits(|held|) && !op.Makes()
    requires AllOwn(Owns, heap.watched, held) <= heap.live
    modifies owners, heap
    ensures heap.Valid() && HandlesHold(owners, op.After(held, NO_HANDLE))
    ensures heap.live == old(heap.live) - AllOwn(Owns, heap.watched, op.Freed(held))
  {
    assert LookInside(0);
    FreedIsLive(Owns, heap.watched, op, held);
    if op.MoveTo? {
      owners[op.target].Assign(owners[op.source], heap);
    } else {
      owners[op.owner].Reset(heap);
    }
  }

  method DoHandle(owners: seq<HandleOwner>, op: OwnerOp<Ptr>, heap: Heap, ghost held: seq<Ptr>)
      returns (after: seq<HandleOwner>)
    requires heap.Valid() && HandlesHold(owners, held) && op.Fits(|held|)
    requires AllOwn(Owns, heap.watched, held) <= heap.live
    modifies owners, heap
    ensures heap.Valid() && HandlesHold(after, op.After(held, NO_HANDLE))
    ensures heap.live == old(heap.live) - AllOwn(Owns, heap.watched, op.Freed(held))
    ensures owners <= after && forall i :: |owners| <= i < |after| ==> fresh(after[i])
  {
    if !op.Makes() {
      MoveHandle(owners, op, heap, held);
      return owners;
    }
    assert LookInside(0);
    var owner;
    if op.Make? {
      owner := new HandleOwner(op.value);
    } else {
      owner := new HandleOwner.Move(owners[op.source]);
    }
    after := owners + [owner];
  }

  // Any operations: what was given is held, or freed once.
  method PlayHandles(ops: seq<OwnerOp<Ptr>>, heap: Heap) returns (owners: seq<HandleOwner>, ghost held: seq<Ptr>)
    requires heap.Valid() && Playable(Owns, heap.watched, ops, heap.live)
    modifies heap
    ensures heap.Valid() && HandlesHold(owners, held) && forall i :: 0 <= i < |owners| ==> fresh(owners[i])
    ensures Played(Owns, heap.watched, ops, NO_HANDLE, held, old(heap.live), heap.live)
  {
    if ops == [] {
      owners, held := [], [];
      PlayNothing(Owns, heap.watched, NO_HANDLE, heap.live);
      return;
    }
    var n := |ops| - 1;
    PlayFront(Owns, heap.watched, ops, heap.live);
    owners, held := PlayHandles(ops[..n], heap);
    PlayNext(Owns, heap.watched, ops, NO_HANDLE, held, old(heap.live), heap.live);
    owners := DoHandle(owners, ops[n], heap, held);
    held := ops[n].After(held, NO_HANDLE);
  }

  // Any operations, and then the end of all owners: every block that was given is freed once.
  method ReleaseHandles(ops: seq<OwnerOp<Ptr>>, heap: Heap)
    requires heap.Valid() && Playable(Owns, heap.watched, ops, heap.live)
    modifies heap
    ensures heap.Valid() && heap.live == old(heap.live) - AllOwn(Owns, heap.watched, Given(ops))
  {
    var owners;
    ghost var held;
    owners, held := PlayHandles(ops, heap);
    PlayEnd(Owns, heap.watched, ops, NO_HANDLE, held, old(heap.live), heap.live);
    assert LookInside(0) && held[0..] == held;
    for i := 0 to |owners|
      invariant heap.Valid() && forall j :: i <= j < |owners| ==> owners[j].handle == held[j]
      invariant heap.live == old(heap.live) - AllOwn(Owns, heap.watched, Given(ops)) + AllOwn(Owns, heap.watched, held[i..])
    {
      AllOwnHead(Owns, heap.watched, held, i);
      owners[i].Reset(heap);
    }
  }
}
