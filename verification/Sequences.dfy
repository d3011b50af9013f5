// Mapping, filtering and flattening of sequences.
module Sequences {
  import opened Wrappers

  lemma Assoc<A>(a: seq<A>, b: seq<A>, c: seq<A>)
    ensures a + (b + c) == a + b + c
    ensures c == [] ==> b + c == b
  {
  }

  function Map<A, B>(f: A -> B, s: seq<A>): (r: seq<B>)
    ensures |r| == |s|
  {
    if s == [] then [] else Map(f, s[..|s| - 1]) + [f(s[|s| - 1])]
  }

  lemma MapPush<A, B>(f: A -> B, s: seq<A>, x: A)
    ensures Map(f, s + [x]) == Map(f, s) + [f(x)]
  {
    assert (s + [x])[..|s|] == s;
  }

  lemma {:induction false} MapConcat<A, B>(f: A -> B, a: seq<A>, b: seq<A>)
    ensures Map(f, a + b) == Map(f, a) + Map(f, b)
  {
    if b == [] {
      assert a + b == a;
    } else {
      var n := |b| - 1;
      assert (a + b)[..|a + b| - 1] == a + b[..n];
      MapConcat(f, a, b[..n]);
    }
  }

  lemma MapSplit<A, B>(f: A -> B, s: seq<A>, k: nat)
    requires k <= |s|
    ensures Map(f, s)[..k] == Map(f, s[..k]) && Map(f, s)[k..] == Map(f, s[k..])
  {
    assert s == s[..k] + s[k..];
    MapConcat(f, s[..k], s[k..]);
  }

  lemma {:induction false} MapAt<A, B>(f: A -> B, s: seq<A>, i: nat)
    requires i < |s|
    ensures Map(f, s)[i] == f(s[i])
  {
    if i < |s| - 1 {
      MapAt(f, s[..|s| - 1], i);
    }
  }

  function Filter<A>(keep: A -> bool, s: seq<A>): (r: seq<A>)
    ensures |r| <= |s|
  {
    if s == [] then []
    else
      var n := |s| - 1;
      if keep(s[n]) then Filter(keep, s[..n]) + [s[n]] else Filter(keep, s[..n])
  }

  lemma FilterPush<A>(keep: A -> bool, s: seq<A>, x: A)
    ensures Filter(keep, s + [x]) == if keep(x) then Filter(keep, s) + [x] else Filter(keep, s)
  {
    assert (s + [x])[..|s|] == s;
  }

  function Flatten<A>(s: seq<seq<A>>): seq<A> {
    if s == [] then [] else s[0] + Flatten(s[1..])
  }

  lemma {:induction false} FlattenConcat<A>(s: seq<seq<A>>, t: seq<seq<A>>)
    ensures Flatten(s + t) == Flatten(s) + Flatten(t)
  {
    if s == [] {
      assert s + t == t;
    } else {
      assert (s + t)[1..] == s[1..] + t;
      FlattenConcat(s[1..], t);
    }
  }

  lemma FlattenPush<A>(s: seq<seq<A>>, x: seq<A>)
    ensures Flatten(s + [x]) == Flatten(s) + x
  {
    FlattenConcat(s, [x]);
    assert Flatten([x]) == x + Flatten([x][1..]);
  }

  // The parsers' loops: every element is converted, the first error wins.
  function ParseAll<A, B>(parse: A -> Result<B, Error>, items: seq<A>): (r: Result<seq<B>, Error>)
    ensures r.Success? ==> |r.value| == |items|
  {
    if items == [] then Success([])
    else
      var n := |items| - 1;
      match ParseAll(parse, items[..n])
      case Failure(e) => Failure(e)
      case Success(front) =>
        match parse(items[n])
        case Failure(e) => Failure(e)
        case Success(last) => Success(front + [last])
  }

  lemma {:induction false} ParseAllAt<A, B>(parse: A -> Result<B, Error>, items: seq<A>, i: nat)
    requires i < |items| && ParseAll(parse, items).Success?
    ensures parse(items[i]) == Success(ParseAll(parse, items).value[i])
  {
    if i < |items| - 1 {
      ParseAllAt(parse, items[..|items| - 1], i);
    }
  }

  lemma {:induction false} ParseAllStops<A, B>(parse: A -> Result<B, Error>, items: seq<A>, n: nat)
    requires n <= |items| && ParseAll(parse, items[..n]).Failure?
    ensures ParseAll(parse, items) == ParseAll(parse, items[..n])
  {
    if n == |items| {
      assert items[..n] == items;
    } else {
      var front := items[..|items| - 1];
      assert front[..n] == items[..n];
      ParseAllStops(parse, front, n);
    }
  }

  lemma ParseAllNext<A, B>(parse: A -> Result<B, Error>, items: seq<A>, i: nat)
    requires i < |items| && ParseAll(parse, items[..i]).Success?
    ensures parse(items[i]).Failure? ==> ParseAll(parse, items) == Failure(parse(items[i]).error)
    ensures parse(items[i]).Success? ==>
              ParseAll(parse, items[..i + 1]) == Success(ParseAll(parse, items[..i]).value + [parse(items[i]).value])
  {
    assert items[..i + 1][..i] == items[..i];
    if parse(items[i]).Failure? {
      ParseAllStops(parse, items, i + 1);
    }
  }
}
