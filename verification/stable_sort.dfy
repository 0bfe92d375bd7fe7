/** A stable sort into non-increasing order of a numeric key: the ordering
    Python's `sorted(items, key=lambda x: -k(x))` produces, and the one a
    descending `ORDER BY` gives when ties are left in scan order. */
module StableSort {

  /** `xs` is in non-increasing order of `key`. */
  predicate SortedDesc<T>(xs: seq<T>, key: T -> real) {
    forall i, j :: 0 <= i < j < |xs| ==> key(xs[i]) >= key(xs[j])
  }

  /** The elements of `xs` whose key is `k`, in their order in `xs`. A sort is
      stable when it leaves every such subsequence as it found it. */
  function Keep<T>(xs: seq<T>, key: T -> real, k: real): seq<T> {
    if |xs| == 0 then []
    else (if key(xs[0]) == k then [xs[0]] else []) + Keep(xs[1..], key, k)
  }

  /** Only elements of `xs` with key `k` are kept. */
  lemma {:induction false} KeepMembers<T>(xs: seq<T>, key: T -> real, k: real, y: T)
    requires y in Keep(xs, key, k)
    ensures y in xs && key(y) == k
  {
    if key(xs[0]) == k && y == xs[0] {
    } else {
      assert y in Keep(xs[1..], key, k);
      KeepMembers(xs[1..], key, k, y);
    }
  }

  /** Places `x` in front of the first element whose key does not exceed its
      own, so that `x` precedes the elements it ties with. */
  function InsertDesc<T>(x: T, xs: seq<T>, key: T -> real): (r: seq<T>)
    ensures |r| == |xs| + 1
  {
    if |xs| == 0 then [x]
    else if key(xs[0]) <= key(x) then [x] + xs
    else [xs[0]] + InsertDesc(x, xs[1..], key)
  }

  /** Insertion sort: sorts the tail, then inserts the head in front of its ties. */
  function SortDesc<T>(xs: seq<T>, key: T -> real): (r: seq<T>)
    ensures |r| == |xs|
  {
    if |xs| == 0 then []
    else InsertDesc(xs[0], SortDesc(xs[1..], key), key)
  }

  lemma {:induction false} InsertDescPermutes<T>(x: T, xs: seq<T>, key: T -> real)
    ensures multiset(InsertDesc(x, xs, key)) == multiset(xs) + multiset{x}
  {
    if |xs| > 0 && key(xs[0]) > key(x) {
      InsertDescPermutes(x, xs[1..], key);
      assert xs == [xs[0]] + xs[1..];
    }
  }

  /** The sort rearranges its input: nothing is added, dropped or duplicated. */
  lemma {:induction false} SortDescPermutes<T>(xs: seq<T>, key: T -> real)
    ensures multiset(SortDesc(xs, key)) == multiset(xs)
  {
    if |xs| > 0 {
      SortDescPermutes(xs[1..], key);
      InsertDescPermutes(xs[0], SortDesc(xs[1..], key), key);
      assert xs == [xs[0]] + xs[1..];
    }
  }

  lemma SortedTail<T>(xs: seq<T>, key: T -> real)
    requires |xs| > 0 && SortedDesc(xs, key)
    ensures SortedDesc(xs[1..], key)
  {
    forall i, j | 0 <= i < j < |xs[1..]| ensures key(xs[1..][i]) >= key(xs[1..][j]) {
      assert xs[1..][i] == xs[i + 1] && xs[1..][j] == xs[j + 1];
    }
  }

  /** The head of a sorted sequence carries its largest key. */
  lemma SortedHeadIsMax<T>(xs: seq<T>, key: T -> real, y: T)
    requires SortedDesc(xs, key) && y in xs
    ensures key(y) <= key(xs[0])
  {
    var k :| 0 <= k < |xs| && xs[k] == y;
    if k > 0 {
      assert key(xs[0]) >= key(xs[k]);
    }
  }

  lemma {:induction false} InsertDescSorted<T>(x: T, xs: seq<T>, key: T -> real)
    requires SortedDesc(xs, key)
    ensures SortedDesc(InsertDesc(x, xs, key), key)
    decreases |xs|
  {
    if |xs| == 0 {
    } else if key(xs[0]) <= key(x) {
      PrependLargest(x, xs, key);
    } else {
      SortedTail(xs, key);
      InsertDescSorted(x, xs[1..], key);
      InsertDescPermutes(x, xs[1..], key);
      assert [xs[0]] + xs[1..] == xs;
      KeepHeadOnTop(xs[0], InsertDesc(x, xs[1..], key), x, xs[1..], key);
    }
  }

  /** An element at least as large as the head of a sorted sequence can go in front. */
  lemma PrependLargest<T>(x: T, xs: seq<T>, key: T -> real)
    requires |xs| > 0 && key(xs[0]) <= key(x) && SortedDesc(xs, key)
    ensures SortedDesc([x] + xs, key)
  {
    var r := [x] + xs;
    forall i, j | 0 <= i < j < |r| ensures key(r[i]) >= key(r[j]) {
      assert r[j] == xs[j - 1];
      if i == 0 {
        assert key(xs[0]) >= key(xs[j - 1]) || j - 1 == 0;
      } else {
        assert r[i] == xs[i - 1];
      }
    }
  }

  /** The old head stays in front of the sorted insertion into the tail,
      since it beats both the inserted element and every tail element. */
  lemma KeepHeadOnTop<T>(h: T, rest: seq<T>, x: T, tail: seq<T>, key: T -> real)
    requires SortedDesc([h] + tail, key) && SortedDesc(rest, key)
    requires key(x) < key(h)
    requires multiset(rest) == multiset(tail) + multiset{x}
    ensures SortedDesc([h] + rest, key)
  {
    var r := [h] + rest;
    forall i, j | 0 <= i < j < |r| ensures key(r[i]) >= key(r[j]) {
      var y := rest[j - 1];
      assert r[j] == y;
      if i == 0 {
        assert y in multiset(rest);
        if y != x {
          assert y in [h] + tail;
          SortedHeadIsMax([h] + tail, key, y);
        }
      } else {
        assert r[i] == rest[i - 1];
      }
    }
  }

  /** The result of the sort is in non-increasing key order. */
  lemma {:induction false} SortDescSorted<T>(xs: seq<T>, key: T -> real)
    ensures SortedDesc(SortDesc(xs, key), key)
  {
    if |xs| > 0 {
      SortDescSorted(xs[1..], key);
      InsertDescSorted(xs[0], SortDesc(xs[1..], key), key);
    }
  }

  lemma KeepCons<T>(y: T, ys: seq<T>, key: T -> real, k: real)
    ensures Keep([y] + ys, key, k) == (if key(y) == k then [y] else []) + Keep(ys, key, k)
  {
    assert ([y] + ys)[0] == y && ([y] + ys)[1..] == ys;
  }

  lemma {:induction false} InsertDescKeep<T>(x: T, xs: seq<T>, key: T -> real, k: real)
    ensures Keep(InsertDesc(x, xs, key), key, k)
         == (if key(x) == k then [x] else []) + Keep(xs, key, k)
  {
    if |xs| == 0 {
      KeepCons(x, [], key, k);
      assert [x] + [] == [x];
    } else if key(xs[0]) <= key(x) {
      KeepCons(x, xs, key, k);
    } else {
      var rest := InsertDesc(x, xs[1..], key);
      assert InsertDesc(x, xs, key) == [xs[0]] + rest;
      InsertDescKeep(x, xs[1..], key, k);
      KeepCons(xs[0], rest, key, k);
      KeepCons(xs[0], xs[1..], key, k);
      assert [xs[0]] + xs[1..] == xs;
      if key(x) == k {
        // xs[0] outranks x, so it is not kept
        assert Keep(xs, key, k) == Keep(xs[1..], key, k);
        assert Keep(InsertDesc(x, xs, key), key, k) == Keep(rest, key, k);
      } else {
        assert Keep(rest, key, k) == Keep(xs[1..], key, k);
      }
    }
  }

  lemma {:induction false} SortDescKeep<T>(xs: seq<T>, key: T -> real, k: real)
    ensures Keep(SortDesc(xs, key), key, k) == Keep(xs, key, k)
  {
    if |xs| > 0 {
      SortDescKeep(xs[1..], key, k);
      InsertDescKeep(xs[0], SortDesc(xs[1..], key), key, k);
    }
  }

  /** Stability: elements with equal keys leave the sort in the order they
      entered it. */
  lemma SortDescStable<T>(xs: seq<T>, key: T -> real)
    ensures forall k :: Keep(SortDesc(xs, key), key, k) == Keep(xs, key, k)
  {
    forall k ensures Keep(SortDesc(xs, key), key, k) == Keep(xs, key, k) {
      SortDescKeep(xs, key, k);
    }
  }

  /** Two sequences in non-increasing key order that agree on the order of
      every group of tied elements are the same sequence. */
  lemma {:induction false} StableArrangementUnique<T>(xs: seq<T>, ys: seq<T>, key: T -> real)
    requires SortedDesc(xs, key) && SortedDesc(ys, key)
    requires forall k :: Keep(xs, key, k) == Keep(ys, key, k)
    ensures xs == ys
    decreases |xs|
  {
    if |ys| > 0 {
      KeepCons(ys[0], ys[1..], key, key(ys[0]));
      assert [ys[0]] + ys[1..] == ys;
    }
    if |xs| > 0 {
      KeepCons(xs[0], xs[1..], key, key(xs[0]));
      assert [xs[0]] + xs[1..] == xs;
    }
    if |xs| == 0 || |ys| == 0 {
    } else {
      SameHead(xs, ys, key);
      SameTailGroups(xs, ys, key);
      SortedTail(xs, key);
      SortedTail(ys, key);
      StableArrangementUnique(xs[1..], ys[1..], key);
      assert xs == [xs[0]] + xs[1..];
      assert ys == [ys[0]] + ys[1..];
    }
  }

  /** Both arrangements start with the same element: the first of the
      largest-key group. */
  lemma SameHead<T>(xs: seq<T>, ys: seq<T>, key: T -> real)
    requires |xs| > 0 && |ys| > 0
    requires SortedDesc(xs, key) && SortedDesc(ys, key)
    requires forall k :: Keep(xs, key, k) == Keep(ys, key, k)
    ensures xs[0] == ys[0]
  {
    var a, b := key(xs[0]), key(ys[0]);
    KeepCons(ys[0], ys[1..], key, b);
    assert [ys[0]] + ys[1..] == ys;
    assert ys[0] in Keep(xs, key, b);
    KeepMembers(xs, key, b, ys[0]);
    SortedHeadIsMax(xs, key, ys[0]);
    KeepCons(xs[0], xs[1..], key, a);
    assert [xs[0]] + xs[1..] == xs;
    assert xs[0] in Keep(ys, key, a);
    KeepMembers(ys, key, a, xs[0]);
    SortedHeadIsMax(ys, key, xs[0]);
    assert Keep(xs, key, a)[0] == xs[0];
    assert Keep(ys, key, a)[0] == ys[0];
  }

  /** Dropping a common head keeps the groups of ties in agreement. */
  lemma SameTailGroups<T>(xs: seq<T>, ys: seq<T>, key: T -> real)
    requires |xs| > 0 && |ys| > 0 && xs[0] == ys[0]
    requires forall k :: Keep(xs, key, k) == Keep(ys, key, k)
    ensures forall k :: Keep(xs[1..], key, k) == Keep(ys[1..], key, k)
  {
    forall k ensures Keep(xs[1..], key, k) == Keep(ys[1..], key, k) {
      var p := if key(xs[0]) == k then [xs[0]] else [];
      KeepCons(xs[0], xs[1..], key, k);
      KeepCons(ys[0], ys[1..], key, k);
      assert [xs[0]] + xs[1..] == xs;
      assert [ys[0]] + ys[1..] == ys;
      assert Keep(xs[1..], key, k) == Keep(xs, key, k)[|p|..];
      assert Keep(ys[1..], key, k) == Keep(ys, key, k)[|p|..];
    }
  }

  /** `SortDesc` is the only stable arrangement in non-increasing key order:
      any sequence that is sorted and keeps every group of ties in input order
      is exactly its result. */
  lemma SortDescIsTheStableSort<T>(xs: seq<T>, ys: seq<T>, key: T -> real)
    requires SortedDesc(ys, key)
    requires forall k :: Keep(ys, key, k) == Keep(xs, key, k)
    ensures ys == SortDesc(xs, key)
  {
    SortDescSorted(xs, key);
    SortDescStable(xs, key);
    StableArrangementUnique(ys, SortDesc(xs, key), key);
  }
}
