// Is it sound to let the service order the rows and to stop fetching at the limit?
module TopN {
  import opened BridgeScan
  import opened CodaJson
  import opened CodaService
  import opened Pushdown
  import opened RowCap
  import opened ScanClient
  import opened ScanProtocol
  import opened Sequences
  import opened Wrappers

  predicate Ascending(s: seq<int>) {
    forall i, j :: 0 <= i < j < |s| ==> s[i] <= s[j]
  }

  function Insert(s: seq<int>, x: int): (r: seq<int>)
    ensures |r| == |s| + 1
  {
    if s == [] then [x]
    else
      var n := |s| - 1;
      if s[n] <= x then s + [x] else Insert(s[..n], x) + [s[n]]
  }

  // The sort that stays in the plan above the scan.
  function Sort(s: seq<int>): (r: seq<int>)
    ensures |r| == |s|
  {
    if s == [] then []
    else
      var n := |s| - 1;
      Insert(Sort(s[..n]), s[n])
  }

  lemma {:induction false} InsertAdds(s: seq<int>, x: int)
    ensures multiset(Insert(s, x)) == multiset(s) + multiset{x}
  {
    if s != [] {
      InsertAdds(s[..|s| - 1], x);
      assert s == s[..|s| - 1] + [s[|s| - 1]];
    }
  }

  lemma {:induction false} SortPermutes(s: seq<int>)
    ensures multiset(Sort(s)) == multiset(s)
  {
    if s != [] {
      SortPermutes(s[..|s| - 1]);
      InsertAdds(Sort(s[..|s| - 1]), s[|s| - 1]);
      assert s == s[..|s| - 1] + [s[|s| - 1]];
    }
  }

  lemma {:induction false} InsertAscending(s: seq<int>, x: int)
    requires Ascending(s)
    ensures Ascending(Insert(s, x))
    ensures Insert(s, x)[|s|] == if s != [] && s[|s| - 1] > x then s[|s| - 1] else x
  {
    if s != [] {
      InsertAscending(s[..|s| - 1], x);
    }
  }

  lemma {:induction false} SortAscending(s: seq<int>)
    ensures Ascending(Sort(s))
  {
    if s != [] {
      SortAscending(s[..|s| - 1]);
      InsertAscending(Sort(s[..|s| - 1]), s[|s| - 1]);
    }
  }

  lemma {:induction false} SortOfAscending(s: seq<int>)
    requires Ascending(s)
    ensures Sort(s) == s
  {
    if s != [] {
      SortOfAscending(s[..|s| - 1]);
    }
  }

  lemma SortPush(s: seq<int>, x: int)
    ensures Sort(s + [x]) == Insert(Sort(s), x)
  {
    assert (s + [x])[..|s|] == s;
  }

  // ------------------------------------------------------- what the first n keys depend on

  function Sum(s: seq<int>): int {
    if s == [] then 0 else Sum(s[..|s| - 1]) + s[|s| - 1]
  }

  lemma {:induction false} SumPush(s: seq<int>, x: int)
    ensures Sum(s + [x]) == Sum(s) + x
  {
    assert (s + [x])[..|s|] == s;
  }

  lemma {:induction false} InsertSum(s: seq<int>, x: int)
    ensures Sum(Insert(s, x)) == Sum(s) + x
  {
    if s != [] {
      var n := |s| - 1;
      if s[n] <= x {
        SumPush(s, x);
      } else {
        InsertSum(s[..n], x);
        SumPush(Insert(s[..n], x), s[n]);
      }
    } else {
      assert [x][..0] == [];
    }
  }

  // A new key leaves the first n keys as they are, or lowers their sum.
  lemma {:induction false} InsertFirst(s: seq<int>, x: int, n: nat)
    requires Ascending(s) && 0 < n <= |s|
    ensures x >= s[n - 1] ==> Insert(s, x)[..n] == s[..n]
    ensures x < s[n - 1] ==> Sum(Insert(s, x)[..n]) < Sum(s[..n])
  {
    var m := |s| - 1;
    if s[m] <= x {
      assert (s + [x])[..n] == s[..n];
    } else if n <= m {
      InsertFirst(s[..m], x, n);
      assert s[..m][..n] == s[..n];
      assert Insert(s, x)[..n] == Insert(s[..m], x)[..n];
    } else {
      assert Insert(s, x)[..n] == Insert(s[..m], x);
      InsertSum(s[..m], x);
      assert s[..n] == s;
    }
  }

  lemma OneKeyLowersSum(s: seq<int>, x: int, n: nat)
    requires 0 < n <= |s|
    ensures Sum(Sort(s + [x])[..n]) <= Sum(Sort(s)[..n])
  {
    SortPush(s, x);
    SortAscending(s);
    InsertFirst(Sort(s), x, n);
  }

  // More keys never raise the sum of the first n.
  lemma {:induction false} MoreKeysLowerSum(a: seq<int>, b: seq<int>, n: nat)
    requires 0 < n <= |a|
    ensures Sum(Sort(a + b)[..n]) <= Sum(Sort(a)[..n])
  {
    if b == [] {
      assert a + b == a;
    } else {
      var front, x := b[..|b| - 1], b[|b| - 1];
      MoreKeysLowerSum(a, front, n);
      assert a + b == a + front + [x];
      OneKeyLowersSum(a + front, x, n);
    }
  }

  predicate NoneBelow(keys: seq<int>, bound: int) {
    forall i :: 0 <= i < |keys| ==> keys[i] >= bound
  }

  lemma NoneBelowPush(keys: seq<int>, x: int, bound: int)
    ensures NoneBelow(keys + [x], bound) <==> NoneBelow(keys, bound) && x >= bound
  {
    assert forall i :: 0 <= i < |keys| ==> (keys + [x])[i] == keys[i];
    assert (keys + [x])[|keys|] == x;
  }

  lemma InsertKeepsFirst(first: seq<int>, s: seq<int>, x: int)
    requires Ascending(s) && 0 < |first| <= |s| && Sum(s[..|first|]) <= Sum(first)
    ensures Insert(s, x)[..|first|] == first <==> s[..|first|] == first && x >= first[|first| - 1]
  {
    InsertFirst(s, x, |first|);
    assert s[|first| - 1] == s[..|first|][|first| - 1];
  }

  lemma FirstKeysPush(a: seq<int>, b: seq<int>, x: int, n: nat)
    requires 0 < n <= |a|
    requires Sort(a + b)[..n] == Sort(a)[..n] <==> NoneBelow(b, Sort(a)[n - 1])
    ensures Sort(a + b + [x])[..n] == Sort(a)[..n] <==> NoneBelow(b + [x], Sort(a)[n - 1])
  {
    var first, all := Sort(a)[..n], Sort(a + b);
    MoreKeysLowerSum(a, b, n);
    SortAscending(a + b);
    InsertKeepsFirst(first, all, x);
    SortPush(a + b, x);
    NoneBelowPush(b, x, Sort(a)[n - 1]);
    assert first[n - 1] == Sort(a)[n - 1] && Sort(a + b + [x]) == Insert(all, x);
  }

  // The n smallest keys of a + b are those of a exactly when no key of b is below the n-th
  // of a.
  lemma {:induction false} FirstKeysIff(a: seq<int>, b: seq<int>, n: nat)
    requires 0 < n <= |a|
    ensures Sort(a + b)[..n] == Sort(a)[..n] <==> NoneBelow(b, Sort(a)[n - 1])
  {
    if b == [] {
      assert a + b == a;
    } else {
      var front, x := b[..|b| - 1], b[|b| - 1];
      assert a + b == a + front + [x] && b == front + [x];
      FirstKeysIff(a, front, n);
      FirstKeysPush(a, front, x, n);
    }
  }

  function Min(a: nat, b: nat): nat {
    if a <= b then a else b
  }

  // The first n keys in order, or all if there are fewer.
  function TopKeys(keys: seq<int>, n: nat): (r: seq<int>)
    ensures |r| == Min(n, |keys|)
  {
    Sort(keys)[..Min(n, |keys|)]
  }

  // ------------------------------------------------------- the pushed top-n

  // The keys of a pushed top-n: the plan sorts what the scan hands out and takes n. They are
  // those of all rows exactly when no row left out is below the n-th row handed out.
  lemma TopKeysIff(emitted: seq<int>, omitted: seq<int>, n: nat)
    requires n > 0 && |emitted| >= Min(n, |emitted + omitted|)
    ensures TopKeys(emitted, n) == TopKeys(emitted + omitted, n)
            <==> omitted == [] || NoneBelow(omitted, Sort(emitted)[n - 1])
  {
    if omitted == [] {
      assert emitted + omitted == emitted;
    } else {
      FirstKeysIff(emitted, omitted, n);
    }
  }

  // The same for a capped scan, on the order of the rows under any key.
  lemma PushedTopNIff(replies: seq<Reply>, limit: nat, key: RowInfo -> int)
    requires limit > 0
    requires forall i :: 0 <= i < |replies| && replies[i].Success? ==> |replies[i].value.rows| <= PageSize(limit)
    ensures var emitted, all := Emitted(Batches(replies), limit), VisibleRows(replies);
            && emitted <= all && |emitted| >= Min(limit, |all|)
            && (TopKeys(Map(key, emitted), limit) == TopKeys(Map(key, all), limit)
                <==> emitted == all || NoneBelow(Map(key, all[|emitted|..]), Sort(Map(key, emitted))[limit - 1]))
  {
    var emitted, all := Emitted(Batches(replies), limit), VisibleRows(replies);
    CappedScan(replies, limit);
    var omitted := all[|emitted|..];
    assert all == emitted + omitted;
    MapConcat(key, emitted, omitted);
    TopKeysIff(Map(key, emitted), Map(key, omitted), limit);
  }

  lemma TopKeysOfPrefix(keys: seq<int>, n: nat, limit: nat)
    requires Ascending(keys) && Min(limit, |keys|) <= n <= |keys|
    ensures TopKeys(keys[..n], limit) == TopKeys(keys, limit)
  {
    SortOfAscending(keys);
    SortOfAscending(keys[..n]);
  }

  // It is sound when the main chain is in order and nothing was synced.
  lemma PushedTopNSound(replies: seq<Reply>, k: nat, limit: nat, key: RowInfo -> int)
    requires limit > 0 && k <= |replies|
    requires forall i :: 0 <= i < |replies| && replies[i].Success? ==> |replies[i].value.rows| <= PageSize(limit)
    requires Ascending(Map(key, VisibleRows(replies[..k]))) && VisibleRows(replies[k..]) == []
    ensures TopKeys(Map(key, Emitted(Batches(replies), limit)), limit) == TopKeys(Map(key, VisibleRows(replies)), limit)
  {
    var emitted, all := Emitted(Batches(replies), limit), VisibleRows(replies);
    SplitRows(replies, k);
    assert all == VisibleRows(replies[..k]);
    CappedScan(replies, limit);
    MapSplit(key, all, |emitted|);
    assert all[..|emitted|] == emitted;
    TopKeysOfPrefix(Map(key, all), |emitted|, limit);
  }

  // The same in either direction: what the plan above a scan keeps of an ordered query.
  function Negated(keys: seq<int>): seq<int> {
    Map((x: int) => -x, keys)
  }

  function OrderedKeys(descending: bool, keys: seq<int>, n: nat): seq<int> {
    if descending then Negated(TopKeys(Negated(keys), n)) else TopKeys(keys, n)
  }

  // The service gives pages as asked for, the main chain in ascending order, and nothing to sync.
  ghost predicate InOrder(replies: seq<Reply>, limit: nat, key: RowInfo -> int, k: nat) {
    && k <= |replies|
    && (forall i :: 0 <= i < |replies| && replies[i].Success? ==> |replies[i].value.rows| <= PageSize(limit))
    && Ascending(Map(key, VisibleRows(replies[..k]))) && VisibleRows(replies[k..]) == []
  }

  // Whatever order a query has, and whether or not it is pushed: if the service then keeps to it,
  // the query gets the keys, in its own direction, that it would get of all rows.
  method PushedOrderIsSound(bind: BindData, order: OrderOptions, ghost replies: seq<Reply>, ghost key: RowInfo -> int,
                            ghost k: nat)
    requires bind.pushedLimit == 0 && bind.pushedSortBy == "" && order.rowLimit.Some?
    modifies bind
    ensures (bind.pushedLimit > 0 ==> InOrder(replies, bind.pushedLimit, key, k)) ==>
              OrderedKeys(order.descending, Map(key, Emitted(Batches(replies), bind.pushedLimit)), order.rowLimit.value)
              == OrderedKeys(order.descending, Map(key, VisibleRows(replies)), order.rowLimit.value)
    ensures bind.pushedLimit > 0 ==> bind.pushedLimit == order.rowLimit.value
  {
    bind.SetScanOrder(Some(order));
    if bind.pushedLimit == 0 {
      NoCap(Batches(replies));
    } else if InOrder(replies, bind.pushedLimit, key, k) {
      PushedTopNSound(replies, k, bind.pushedLimit, key);
    }
  }

  // Synced rows may break it: a main page of one row, then a synced row that comes before it
  // in the order, and a limit of one.
  function SyncsOneRow(a: RowItem, b: RowItem): Service {
    Service(_ => Failure(Transport), _ => Failure(Transport),
            log => Success(if |log| == 1 then RowsBody(Some([a]), None, Some("sync")) else RowsBody(Some([b]), None, None)),
            _ => true)
  }

  function MainAndSynced(a: RowItem, b: RowItem): seq<Reply> {
    [ParseRows(Success(RowsBody(Some([a]), None, Some("sync")))), ParseRows(Success(RowsBody(Some([b]), None, None)))]
  }

  lemma ParseOneRow(item: RowItem, syncToken: Option<string>)
    requires ParseRow(item).Success?
    ensures ParseRows(Success(RowsBody(Some([item]), None, syncToken)))
            == Success(RowsPage([ParseRow(item).value], "", syncToken.GetOr("")))
  {
    var row := ParseRow(item).value;
    assert [item][..0] == [] && [] + [row] == [row];
    assert ParseAll(ParseRow, [item]) == Success([row]);
  }

  // Those are the answers of a service to every scan, and each is a page of one row.
  lemma SyncedRowsAreRun(q: Query, a: RowItem, b: RowItem)
    requires ParseRow(a).Success? && ParseRow(b).Success?
    ensures IsRun(SyncsOneRow(a, b), q, START, [], MainAndSynced(a, b))
    ensures forall i :: 0 <= i < 2 ==> |MainAndSynced(a, b)[i].value.rows| <= PageSize(1)
  {
    ParseOneRow(a, Some("sync"));
    ParseOneRow(b, None);
    var s, replies := SyncsOneRow(a, b), MainAndSynced(a, b);
    var log := [RequestFor(q, START)];
    assert [] + log == log;
    var next := AfterPage(START, replies[0].value);
    assert next == Cursor("", "sync", false, false);
    var log2 := log + [RequestFor(q, next)];
    var last := AfterPage(next, replies[1].value);
    assert last.finished;
    assert replies[1..][1..] == [];
    assert IsRun(s, q, last, log2, replies[1..][1..]);
    assert IsRun(s, q, next, log, replies[1..]);
  }

  lemma SyncedRowMissed(q: Query, a: RowItem, b: RowItem, key: RowInfo -> int)
    requires ParseRow(a).Success? && Shown(ParseRow(a).value) && ParseRow(b).Success? && Shown(ParseRow(b).value)
    requires key(ParseRow(b).value) < key(ParseRow(a).value)
    ensures IsRun(SyncsOneRow(a, b), q, START, [], MainAndSynced(a, b))
    ensures forall i :: 0 <= i < 2 ==> |MainAndSynced(a, b)[i].value.rows| <= PageSize(1)
    ensures var replies := MainAndSynced(a, b);
            TopKeys(Map(key, Emitted(Batches(replies), 1)), 1) != TopKeys(Map(key, VisibleRows(replies)), 1)
  {
    SyncedRowsAreRun(q, a, b);
    ParseOneRow(a, Some("sync"));
    ParseOneRow(b, None);
    var first, second := ParseRow(a).value, ParseRow(b).value;
    OneShown(first);
    OneShown(second);
    var replies := MainAndSynced(a, b);
    OneRowPages(replies[0], replies[1], first, second);
    assert [first] + [second] == [first, second];
    MapPush(key, [first], second);
    MapPush(key, [], first);
    TopKeysIff([key(first)], [key(second)], 1);
  }

  lemma OneShown(row: RowInfo)
    requires Shown(row)
    ensures Filter(Shown, [row]) == [row]
  {
    FilterPush(Shown, [], row);
    assert [] + [row] == [row];
  }

  lemma OneRowPages(first: Reply, second: Reply, a: RowInfo, b: RowInfo)
    requires ShownRows(first) == [a] && ShownRows(second) == [b]
    ensures Batches([first, second]) == [[a], [b]]
    ensures Emitted([[a], [b]], 1) == [a] && Flatten([[a], [b]]) == [a, b]
  {
    MapPush(ShownRows, [], first);
    MapPush(ShownRows, [first], second);
    assert [] + [first] == [first] && [first] + [second] == [first, second];
    FlattenPush([], [a]);
    FlattenPush([[a]], [b]);
    assert [] + [[a]] == [[a]] && [[a]] + [[b]] == [[a], [b]];
  }

  lemma SplitRows(replies: seq<Reply>, k: nat)
    requires k <= |replies|
    ensures VisibleRows(replies) == VisibleRows(replies[..k]) + VisibleRows(replies[k..])
  {
    BatchesSplit(replies, k);
    FlattenConcat(Batches(replies[..k]), Batches(replies[k..]));
    assert Batches(replies) == Batches(replies)[..k] + Batches(replies)[k..];
  }
}
