// Column names: every column gets a name of its own, ignoring case.
module Naming {
  import opened AsciiText
  import opened CodaJson
  import opened Ffi
  import opened Sequences

  predicate Taken(names: seq<string>, name: string) {
    exists i :: 0 <= i < |names| && EqIgnoreCase(names[i], name)
  }

  lemma TakenPush(names: seq<string>, x: string, name: string)
    ensures Taken(names + [x], name) <==> Taken(names, name) || EqIgnoreCase(x, name)
  {
    var all := names + [x];
    assert all[|names|] == x && forall i :: 0 <= i < |names| ==> all[i] == names[i];
  }

  function Base(original: string): string {
    if original == "" then "column" else original
  }

  // The k-th name that is tried.
  function Candidate(base: string, k: nat): string {
    if k <= 1 then base else base + "_" + Decimal(k)
  }

  // The names are pairwise different ignoring case, and none is empty.
  ghost predicate Distinct(names: seq<string>) {
    && (forall i :: 0 <= i < |names| ==> names[i] != "")
    && (forall i, j :: 0 <= i < j < |names| ==> !EqIgnoreCase(names[i], names[j]))
  }

  // ---------------------------------------------- some candidate is always free

  // No two candidates are alike.
  lemma CandidatesDiffer(base: string, j: nat, k: nat)
    requires 1 <= j < k
    ensures !EqIgnoreCase(Candidate(base, j), Candidate(base, k))
  {
    var a, b := Candidate(base, j), Candidate(base, k);
    if EqIgnoreCase(a, b) && j > 1 {
      var n := |base| + 1;
      assert a[n..] == Decimal(j) && b[n..] == Decimal(k);
      assert forall i :: 0 <= i < |a[n..]| ==> a[n..][i] == a[n + i] && b[n..][i] == b[n + i];
      assert EqIgnoreCase(Decimal(j), Decimal(k));
      DecimalInjective(j, k);
    }
  }

  lemma OneCandidate(name: string, base: string, j: nat, k: nat)
    requires j >= 1 && k >= 1
    requires EqIgnoreCase(name, Candidate(base, j)) && EqIgnoreCase(name, Candidate(base, k))
    ensures j == k
  {
    if j != k {
      CandidatesDiffer(base, if j < k then j else k, if j < k then k else j);
    }
  }

  // Pigeonhole: n names take at most n candidates.
  lemma {:induction false} TakenBound(names: seq<string>, base: string, ks: set<nat>)
    requires forall k :: k in ks ==> k >= 1 && Taken(names, Candidate(base, k))
    ensures |ks| <= |names|
  {
    if names == [] {
      assert forall k: nat :: !Taken(names, Candidate(base, k));
      assert ks == {};
    } else {
      var n := |names| - 1;
      var last, front := names[n], names[..n];
      var rest := set k | k in ks && !EqIgnoreCase(last, Candidate(base, k));
      forall k | k in rest ensures Taken(front, Candidate(base, k)) {
        var i :| 0 <= i < |names| && EqIgnoreCase(names[i], Candidate(base, k));
        assert front[i] == names[i];
      }
      TakenBound(front, base, rest);
      if k :| k in ks && k !in rest {
        forall j | j in ks && j !in rest ensures j == k {
          OneCandidate(last, base, j, k);
        }
        assert ks == rest + {k};
      } else {
        assert ks == rest;
      }
    }
  }

  ghost predicate TakenBelow(names: seq<string>, base: string, k: nat) {
    forall j :: 1 <= j < k ==> Taken(names, Candidate(base, j))
  }

  lemma SuffixBound(names: seq<string>, base: string, k: nat)
    requires k >= 1 && TakenBelow(names, base, k)
    ensures k <= |names| + 1
  {
    BelowCount(k);
    TakenBound(names, base, Below(k));
  }

  // The numbers from 1 up to but not including k.
  function Below(k: nat): set<nat> {
    if k <= 1 then {} else Below(k - 1) + {k - 1}
  }

  lemma {:induction false} BelowCount(k: nat)
    requires k >= 1
    ensures |Below(k)| == k - 1 && forall j :: j in Below(k) <==> 1 <= j < k
  {
    if k > 1 {
      BelowCount(k - 1);
    }
  }

  // ------------------------------------------------------- the prepared names

  // The least number whose candidate is free, searched for from a number that is not above it.
  function Suffix(names: seq<string>, base: string, from: nat): (k: nat)
    requires from >= 1 && TakenBelow(names, base, from)
    decreases |names| + 2 - from
  {
    SuffixBound(names, base, from);
    if Taken(names, Candidate(base, from)) then
      SuffixBound(names, base, from + 1);
      Suffix(names, base, from + 1)
    else from
  }

  // It is never more than one above the number of names before it.
  lemma {:induction false} SuffixIsFree(names: seq<string>, base: string, from: nat)
    requires from >= 1 && TakenBelow(names, base, from)
    ensures var k := Suffix(names, base, from);
            && from <= k <= |names| + 1
            && !Taken(names, Candidate(base, k)) && TakenBelow(names, base, k)
    decreases |names| + 2 - from
  {
    SuffixBound(names, base, from);
    if Taken(names, Candidate(base, from)) {
      SuffixBound(names, base, from + 1);
      SuffixIsFree(names, base, from + 1);
    }
  }

  function FreshName(names: seq<string>, original: string): string {
    Candidate(Base(original), Suffix(names, Base(original), 1))
  }

  function Prepared(names: seq<string>): (r: seq<string>)
    ensures |r| == |names|
  {
    if names == [] then []
    else
      var front := Prepared(names[..|names| - 1]);
      front + [FreshName(front, names[|names| - 1])]
  }

  // The suffix is the only number with a free candidate and none below it.
  lemma SuffixUnique(names: seq<string>, base: string, k: nat)
    requires k >= 1 && TakenBelow(names, base, k) && !Taken(names, Candidate(base, k))
    ensures Suffix(names, base, 1) == k
  {
    var s := Suffix(names, base, 1);
    SuffixIsFree(names, base, 1);
  }

  // The bound on the suffix is met for every number of names.
  function Candidates(base: string, n: nat): (names: seq<string>)
    ensures |names| == n
  {
    if n == 0 then [] else Candidates(base, n - 1) + [Candidate(base, n)]
  }

  lemma {:induction false} CandidatesTaken(base: string, n: nat)
    ensures TakenBelow(Candidates(base, n), base, n + 1)
  {
    if n > 0 {
      CandidatesTaken(base, n - 1);
      var front, names := Candidates(base, n - 1), Candidates(base, n);
      forall j | 1 <= j < n + 1 ensures Taken(names, Candidate(base, j)) {
        if j < n {
          var i :| 0 <= i < |front| && EqIgnoreCase(front[i], Candidate(base, j));
          assert names[i] == front[i];
        } else {
          assert names[n - 1] == Candidate(base, n);
        }
      }
    }
  }

  lemma SuffixBoundIsMet(base: string, n: nat)
    ensures Suffix(Candidates(base, n), base, 1) == n + 1
  {
    CandidatesTaken(base, n);
    var names := Candidates(base, n);
    SuffixIsFree(names, base, 1);
    assert !Taken(names, Candidate(base, Suffix(names, base, 1)));
  }

  lemma {:induction false} PreparedDistinct(names: seq<string>)
    ensures Distinct(Prepared(names))
  {
    if names != [] {
      var n := |names| - 1;
      var front := Prepared(names[..n]);
      PreparedDistinct(names[..n]);
      var name := FreshName(front, names[n]);
      SuffixIsFree(front, Base(names[n]), 1);
      assert !Taken(front, name);
      assert Prepared(names) == front + [name];
    }
  }

  // A longer list gives the same names to the columns it begins with.
  lemma {:induction false} PreparedPrefix(names: seq<string>, more: seq<string>)
    ensures Prepared(names + more)[..|names|] == Prepared(names)
  {
    if more == [] {
      assert names + more == names;
    } else {
      var n := |more| - 1;
      assert (names + more)[..|names + more| - 1] == names + more[..n];
      PreparedPrefix(names, more[..n]);
      assert Prepared(names + more)[..|names|] == Prepared(names + more[..n])[..|names|];
    }
  }

  lemma PreparedFirst(names: seq<string>, i: nat)
    requires i <= |names|
    ensures Prepared(names[..i]) == Prepared(names)[..i]
  {
    assert names == names[..i] + names[i..];
    PreparedPrefix(names[..i], names[i..]);
  }

  lemma {:induction false} PreparedAt(names: seq<string>, i: nat)
    requires i < |names|
    ensures Prepared(names)[i] == FreshName(Prepared(names)[..i], names[i])
  {
    var upTo := names[..i + 1];
    assert upTo[..i] == names[..i];
    PreparedFirst(names, i);
    PreparedFirst(names, i + 1);
    assert Prepared(names)[i] == Prepared(upTo)[i];
  }

  lemma FreshIsRenamed(names: seq<string>, original: string)
    ensures FreshName(names, original) != original <==> original == "" || Taken(names, original)
  {
    var base := Base(original);
    var k := Suffix(names, base, 1);
    SuffixIsFree(names, base, 1);
    assert Candidate(base, 1) == base;
    if k > 1 {
      assert Taken(names, Candidate(base, 1));
      assert |Candidate(base, k)| > |base|;
    }
  }

  // A column is renamed exactly when its name is empty or taken by an earlier column, as
  // that one is named in the end.
  lemma RenamedIff(names: seq<string>, i: nat)
    requires i < |names|
    ensures Prepared(names)[i] != names[i] <==> names[i] == "" || Taken(Prepared(names)[..i], names[i])
  {
    PreparedAt(names, i);
    FreshIsRenamed(Prepared(names)[..i], names[i]);
  }

  // A name is the one it is made from - "column" for an empty one -, or that with an underscore
  // and a number.
  ghost predicate MadeFrom(original: string, name: string) {
    var base := if original == "" then "column" else original;
    name == base || exists k: nat :: k >= 2 && name == base + "_" + Decimal(k)
  }

  lemma PreparedForm(names: seq<string>, i: nat)
    requires i < |names|
    ensures MadeFrom(names[i], Prepared(names)[i])
  {
    PreparedAt(names, i);
    var front, base := Prepared(names)[..i], Base(names[i]);
    SuffixIsFree(front, base, 1);
    var k := Suffix(front, base, 1);
    assert Candidate(base, k) == if k <= 1 then base else base + "_" + Decimal(k);
  }

  // Names are left alone exactly when they are already non-empty and distinct, so
  // preparing twice is the same as preparing once.
  lemma {:induction false} PreparedFixpoint(names: seq<string>)
    ensures Prepared(names) == names <==> Distinct(names)
  {
    PreparedDistinct(names);
    if names != [] && Distinct(names) {
      var n := |names| - 1;
      PreparedFixpoint(names[..n]);
      assert names == names[..n] + [names[n]];
      assert forall i :: 0 <= i < n ==> names[..n][i] == names[i];
      RenamedIff(names, n);
      PreparedAt(names, n);
    }
  }

  lemma PreparedTwice(names: seq<string>)
    ensures Prepared(Prepared(names)) == Prepared(names)
  {
    PreparedDistinct(names);
    PreparedFixpoint(Prepared(names));
  }

  // ---------------------------------------------------------- row metadata

  const ROW_METADATA: seq<string> := ["createdAt", "updatedAt"]

  // Appending the metadata columns renames no column of the table, and a metadata column
  // keeps its own name exactly when no column of the table has it.
  lemma MetadataNames(names: seq<string>)
    ensures KeepsUnlessTaken(Prepared(names), Prepared(names + ROW_METADATA), "createdAt", "updatedAt")
  {
    NotUpdatedAt(Suffix(Prepared(names), "createdAt", 1));
    TwoNamesKept(names, "createdAt", "updatedAt");
  }

  // `all` is `front` with two more names, c and u before they are made distinct.
  ghost predicate KeepsUnlessTaken(front: seq<string>, all: seq<string>, c: string, u: string) {
    && |all| == |front| + 2 && all[..|front|] == front
    && (all[|front|] == c <==> !Taken(front, c))
    && (all[|front| + 1] == u <==> !Taken(front, u))
  }

  lemma TwoNamesKept(names: seq<string>, c: string, u: string)
    requires c != "" && u != "" && !EqIgnoreCase(FreshName(Prepared(names), c), u)
    ensures KeepsUnlessTaken(Prepared(names), Prepared(names + [c, u]), c, u)
  {
    TwoMoreNames(names, c, u);
    TwoFresh(Prepared(names), c, u);
  }

  lemma TwoMoreNames(names: seq<string>, c: string, u: string)
    ensures var front := Prepared(names);
            Prepared(names + [c, u]) == front + [FreshName(front, c)] + [FreshName(front + [FreshName(front, c)], u)]
  {
    PreparedPush(names, c);
    PreparedPush(names + [c], u);
    assert names + [c, u] == names + [c] + [u];
  }

  lemma TwoFresh(front: seq<string>, c: string, u: string)
    requires c != "" && u != "" && !EqIgnoreCase(FreshName(front, c), u)
    ensures KeepsUnlessTaken(front, front + [FreshName(front, c)] + [FreshName(front + [FreshName(front, c)], u)], c, u)
  {
    FreshIsRenamed(front, c);
    FreshIsRenamed(front + [FreshName(front, c)], u);
    TakenPush(front, FreshName(front, c), u);
  }

  lemma PreparedPush(names: seq<string>, name: string)
    ensures Prepared(names + [name]) == Prepared(names) + [FreshName(Prepared(names), name)]
  {
    assert (names + [name])[..|names|] == names;
  }

  lemma NotUpdatedAt(k: nat)
    ensures !EqIgnoreCase(Candidate("createdAt", k), "updatedAt")
  {
    assert Candidate("createdAt", k)[0] == 'c' && "updatedAt"[0] == 'u';
  }

  // ------------------------------------------------------- the loops in place

  function NameOf(c: Column): string {
    c.name.text
  }

  function NamesOf(columns: seq<Column>): seq<string> {
    Map(NameOf, columns)
  }

  function ArrayOwns(p: Ptr, columns: seq<Column>): nat {
    AllOwn(ColumnOwns, p, columns)
  }

  // The search for a free name.
  method FreeName(names: seq<string>, original: string) returns (candidate: string)
    ensures candidate == FreshName(names, original)
  {
    var base := if original == "" then "column" else original;
    candidate := base;
    var suffix: nat := 1;
    while Taken(names, candidate)
      invariant suffix >= 1 && candidate == Candidate(base, suffix)
      invariant TakenBelow(names, base, suffix)
      invariant suffix <= |names| + 1
      decreases |names| + 1 - suffix
    {
      SuffixBound(names, base, suffix + 1);
      suffix := suffix + 1;
      candidate := base + "_" + Decimal(suffix);
    }
    SuffixUnique(names, base, suffix);
  }

  lemma PreparedStep(original: seq<string>, idx: nat)
    requires idx < |original|
    ensures var front := Prepared(original[..idx]);
            Prepared(original[..idx + 1]) == front + [FreshName(front, original[idx])]
  {
    assert original[..idx + 1][..idx] == original[..idx];
  }

  // Nothing but the name differs.
  predicate Renamed(c: Column, d: Column) {
    d == c.(name := d.name)
  }

  // One turn of the loop: column idx gets its name.
  method NameColumn(columns: array<Column>, idx: nat, heap: Heap)
    requires idx < columns.Length
    requires heap.Valid() && ArrayOwns(heap.watched, columns[..]) <= heap.live
    modifies columns, heap
    ensures heap.Valid()
    ensures heap.live - ArrayOwns(heap.watched, columns[..]) == old(heap.live - ArrayOwns(heap.watched, columns[..]))
    ensures columns[..] == old(columns[..])[idx := columns[idx]] && Renamed(old(columns[idx]), columns[idx])
    ensures NameOf(columns[idx]) == old(FreshName(NamesOf(columns[..idx]), NameOf(columns[idx])))
  {
    var column := columns[idx];
    ghost var before := columns[..];
    AllOwnUpdate(ColumnOwns, heap.watched, before, idx, column);
    var original := heap.Read(column.name);
    var candidate := FreeName(NamesOf(columns[..idx]), original);
    if candidate != original {
      heap.FreeString(column.name);
      var name := heap.AllocString(candidate);
      AllOwnUpdate(ColumnOwns, heap.watched, before, idx, column.(name := name));
      columns[idx] := column.(name := name);
    }
    assert columns[..] == before[idx := column.(name := columns[idx].name)];
  }

  // The first idx columns are named, and the others are as they were given.
  ghost predicate NamedUpTo(given: seq<Column>, now: seq<Column>, idx: nat) {
    && |now| == |given| && idx <= |given|
    && NamesOf(now[..idx]) == Prepared(NamesOf(given)[..idx])
    && (forall i :: idx <= i < |now| ==> now[i] == given[i])
    && (forall i :: 0 <= i < idx ==> Renamed(given[i], now[i]))
  }

  lemma NamesNext(given: seq<Column>, now: seq<Column>, next: seq<Column>, idx: nat)
    requires idx < |now| == |next| == |given| && now[idx] == given[idx]
    requires NamesOf(now[..idx]) == Prepared(NamesOf(given)[..idx])
    requires next == now[idx := next[idx]]
    requires NameOf(next[idx]) == FreshName(NamesOf(now[..idx]), NameOf(now[idx]))
    ensures NamesOf(next[..idx + 1]) == Prepared(NamesOf(given)[..idx + 1])
  {
    MapAt(NameOf, given, idx);
    PreparedStep(NamesOf(given), idx);
    assert next[..idx + 1] == now[..idx] + [next[idx]];
    MapPush(NameOf, now[..idx], next[idx]);
  }

  lemma NamedNext(given: seq<Column>, now: seq<Column>, next: seq<Column>, idx: nat)
    requires idx < |now| == |next| && NamedUpTo(given, now, idx)
    requires next == now[idx := next[idx]] && Renamed(now[idx], next[idx])
    requires NameOf(next[idx]) == FreshName(NamesOf(now[..idx]), NameOf(now[idx]))
    ensures NamedUpTo(given, next, idx + 1)
  {
    NamesNext(given, now, next, idx);
  }

  // prepare_columns
  method PrepareColumns(columns: array<Column>, heap: Heap)
    requires heap.Valid() && ArrayOwns(heap.watched, columns[..]) <= heap.live
    modifies columns, heap
    ensures heap.Valid()
    ensures heap.live - ArrayOwns(heap.watched, columns[..]) == old(heap.live - ArrayOwns(heap.watched, columns[..]))
    ensures NamesOf(columns[..]) == Prepared(NamesOf(old(columns[..])))
    ensures forall i :: 0 <= i < columns.Length ==> Renamed(old(columns[i]), columns[i])
  {
    ghost var given := columns[..];
    for idx := 0 to columns.Length
      invariant heap.Valid()
      invariant heap.live - ArrayOwns(heap.watched, columns[..]) == old(heap.live - ArrayOwns(heap.watched, columns[..]))
      invariant NamedUpTo(given, columns[..], idx)
    {
      ghost var now := columns[..];
      assert columns[..idx] == now[..idx];
      NameColumn(columns, idx, heap);
      NamedNext(given, now, columns[..], idx);
    }
    assert columns[..][..columns.Length] == columns[..];
    assert NamesOf(given)[..columns.Length] == NamesOf(given);
  }
}
