// Memory that crosses the C ABI: strings and arrays that are allocated,
// handed over and freed by hand.
module Ffi {
  // Address of a block; 0 is the null pointer.
  type Ptr = nat

  // RustExtString. An empty string is never allocated: it is the null pointer.
  datatype RustExtString = Str(ptr: Ptr, text: string)
  type Str = s: RustExtString | s.ptr == 0 <==> s.text == "" witness Str(0, "")

  const EMPTY: Str := Str(0, "")

  // A (pointer, length) pair made from a Vec. An empty Vec is the null pointer.
  datatype RawParts<T> = Raw(ptr: Ptr, items: seq<T>)
  type Raw<T> = r: RawParts<T> | r.ptr == 0 <==> r.items == [] witness Raw(0, [])

  // How many times a value owns block p. A sum of such counts says who owns what:
  // two owners of one block would make it exceed 1.
  function Owns(p: Ptr, block: Ptr): nat {
    if block != 0 && block == p then 1 else 0
  }

  function StrOwns(p: Ptr, s: Str): nat {
    Owns(p, s.ptr)
  }

  // A pointer owns the one block it points to, and the null pointer none.
  lemma OwnsOneBlock(p: Ptr, q: Ptr)
    ensures Owns(p, q) == 1 <==> p == q && q != 0
    ensures Owns(p, q) == 0 <==> p != q || q == 0
  {
  }

  function AllOwn<T>(own: (Ptr, T) -> nat, p: Ptr, items: seq<T>): nat {
    if items == [] then 0
    else AllOwn(own, p, items[..|items| - 1]) + own(p, items[|items| - 1])
  }

  lemma {:induction false} AllOwnConcat<T>(own: (Ptr, T) -> nat, p: Ptr, a: seq<T>, b: seq<T>)
    ensures AllOwn(own, p, a + b) == AllOwn(own, p, a) + AllOwn(own, p, b)
  {
    if b == [] {
      assert a + b == a;
    } else {
      var n := |b| - 1;
      assert (a + b)[..|a + b| - 1] == a + b[..n];
      AllOwnConcat(own, p, a, b[..n]);
    }
  }

  lemma AllOwnPush<T>(own: (Ptr, T) -> nat, p: Ptr, items: seq<T>, x: T)
    ensures AllOwn(own, p, items + [x]) == AllOwn(own, p, items) + own(p, x)
  {
    assert (items + [x])[..|items|] == items;
  }

  lemma AllOwnHead<T>(own: (Ptr, T) -> nat, p: Ptr, items: seq<T>, i: nat)
    requires i < |items|
    ensures AllOwn(own, p, items[i..]) == own(p, items[i]) + AllOwn(own, p, items[i + 1..])
  {
    assert items[i..] == [items[i]] + items[i + 1..];
    AllOwnConcat(own, p, [items[i]], items[i + 1..]);
    AllOwnPush(own, p, [], items[i]);
    assert [] + [items[i]] == [items[i]];
  }

  lemma AllOwnUpdate<T>(own: (Ptr, T) -> nat, p: Ptr, items: seq<T>, i: nat, x: T)
    requires i < |items|
    ensures own(p, items[i]) <= AllOwn(own, p, items)
    ensures AllOwn(own, p, items[i := x]) == AllOwn(own, p, items) - own(p, items[i]) + own(p, x)
  {
    var after := items[i := x];
    assert items == items[..i] + items[i..] && after == after[..i] + after[i..];
    AllOwnConcat(own, p, items[..i], items[i..]);
    AllOwnConcat(own, p, after[..i], after[i..]);
    AllOwnHead(own, p, items, i);
    AllOwnHead(own, p, after, i);
    assert after[..i] == items[..i] && after[i + 1..] == items[i + 1..];
  }

  // The allocator, seen from one block. `watched` is any address at all, so what is
  // proved of it holds for every block. An address stands for one block for ever,
  // and freeing or reading demands that the block is live.
  class Heap {
    const watched: Ptr
    var next: Ptr
    var live: nat
    var freed: nat

    ghost predicate Valid()
      reads this
    {
      next > 0 && live + freed == if 0 < watched < next then 1 else 0
    }

    constructor (watched: Ptr)
      ensures Valid() && this.watched == watched && live == 0 && freed == 0
    {
      this.watched := watched;
      next, live, freed := 1, 0, 0;
    }

    method Allocate() returns (p: Ptr)
      requires Valid()
      modifies this
      ensures Valid() && p != 0
      ensures live == old(live) + Owns(watched, p) && freed == old(freed)
    {
      p := next;
      next := next + 1;
      live := live + Owns(watched, p);
    }

    method Release(p: Ptr)
      requires Valid() && Owns(watched, p) <= live
      modifies this
      ensures Valid()
      ensures live == old(live) - Owns(watched, p) && freed == old(freed) + Owns(watched, p)
    {
      live, freed := live - Owns(watched, p), freed + Owns(watched, p);
    }

    method AllocString(text: string) returns (s: Str)
      requires Valid()
      modifies this
      ensures Valid() && s.text == text
      ensures live == old(live) + StrOwns(watched, s) && freed == old(freed)
    {
      if text == "" {
        return EMPTY;
      }
      var p := Allocate();
      s := Str(p, text);
    }

    method FreeString(s: Str)
      requires Valid() && StrOwns(watched, s) <= live
      modifies this
      ensures Valid()
      ensures live == old(live) - StrOwns(watched, s) && freed == old(freed) + StrOwns(watched, s)
    {
      Release(s.ptr);
    }

    // as_str
    method Read(s: Str) returns (text: string)
      requires StrOwns(watched, s) <= live
      ensures text == s.text
    {
      text := s.text;
    }

    method IntoRaw<T>(items: seq<T>) returns (raw: Raw<T>)
      requires Valid()
      modifies this
      ensures Valid() && raw.items == items
      ensures live == old(live) + Owns(watched, raw.ptr) && freed == old(freed)
    {
      if items == [] {
        return Raw(0, []);
      }
      var p := Allocate();
      raw := Raw(p, items);
    }

    // The Vec made here frees the block when it goes out of scope.
    method FromRaw<T>(raw: Raw<T>) returns (items: seq<T>)
      requires Valid() && Owns(watched, raw.ptr) <= live
      modifies this
      ensures Valid() && items == raw.items
      ensures live == old(live) - Owns(watched, raw.ptr) && freed == old(freed) + Owns(watched, raw.ptr)
    {
      Release(raw.ptr);
      items := raw.items;
    }
  }
}
