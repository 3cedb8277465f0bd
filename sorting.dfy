/** Python's stable `sort`/`sorted` with a key function, as used by
    `DinnerInstance.__init__` (the addresses, by event id) and by the
    solution decoding (the hosts, by `host_event_id`). A stable sort by a key
    has exactly one possible result; insertion sort is the reference. */
module StableSort {

  /** Inserts `x` after every element whose key is at most `key(x)`. */
  function Insert<T>(s: seq<T>, x: T, key: T -> int): (r: seq<T>)
    ensures |r| == |s| + 1
  {
    if s == [] || key(s[|s| - 1]) <= key(x) then s + [x]
    else Insert(s[..|s| - 1], x, key) + [s[|s| - 1]]
  }

  /** Stable insertion sort: each element, in order, is inserted into the
      sorted version of the elements before it. */
  function SortBy<T>(s: seq<T>, key: T -> int): (r: seq<T>)
    ensures |r| == |s|
  {
    if s == [] then [] else Insert(SortBy(s[..|s| - 1], key), s[|s| - 1], key)
  }

  predicate SortedBy<T>(s: seq<T>, key: T -> int)
  {
    forall i, j :: 0 <= i < j < |s| ==> key(s[i]) <= key(s[j])
  }

  /** The elements of `s` whose key is `k`, in their order in `s`. */
  function WithKey<T>(s: seq<T>, key: T -> int, k: int): seq<T>
  {
    if s == [] then []
    else WithKey(s[..|s| - 1], key, k) + (if key(s[|s| - 1]) == k then [s[|s| - 1]] else [])
  }

  lemma WithKeyAppend<T>(s: seq<T>, t: seq<T>, key: T -> int, k: int)
    ensures WithKey(s + t, key, k) == WithKey(s, key, k) + WithKey(t, key, k)
    decreases |t|
  {
    if t == [] {
      assert s + t == s;
    } else {
      assert (s + t)[..|s + t| - 1] == s + t[..|t| - 1];
      WithKeyAppend(s, t[..|t| - 1], key, k);
    }
  }

  lemma {:induction false} InsertPermutes<T>(s: seq<T>, x: T, key: T -> int)
    ensures multiset(Insert(s, x, key)) == multiset(s) + multiset{x}
  {
    if s != [] && key(s[|s| - 1]) > key(x) {
      var init := s[..|s| - 1];
      assert s == init + [s[|s| - 1]];
      InsertPermutes(init, x, key);
    }
  }

  lemma {:induction false} InsertSorted<T>(s: seq<T>, x: T, key: T -> int)
    requires SortedBy(s, key)
    ensures SortedBy(Insert(s, x, key), key)
  {
    if s != [] && key(s[|s| - 1]) > key(x) {
      var init, last := s[..|s| - 1], s[|s| - 1];
      assert s == init + [last];
      InsertSorted(init, x, key);
      InsertPermutes(init, x, key);
      var r := Insert(init, x, key);
      forall i | 0 <= i < |r| ensures key(r[i]) <= key(last) {
        assert r[i] in multiset(r);
        if r[i] != x {
          assert r[i] in multiset(init);
          var j :| 0 <= j < |init| && init[j] == r[i];
          assert s[j] == init[j];
        }
      }
    }
  }

  lemma {:induction false} InsertStable<T>(s: seq<T>, x: T, key: T -> int, k: int)
    ensures WithKey(Insert(s, x, key), key, k) == WithKey(s + [x], key, k)
  {
    if s != [] && key(s[|s| - 1]) > key(x) {
      var init, last := s[..|s| - 1], s[|s| - 1];
      assert s == init + [last];
      InsertStable(init, x, key, k);
      var r := Insert(init, x, key);
      assert (r + [last])[..|r|] == r;
      assert (init + [x])[..|init|] == init;
      assert (s + [x])[..|s|] == s;
    }
  }

  /** The result of `SortBy` is sorted by the key. */
  lemma {:induction false} SortBySorted<T>(s: seq<T>, key: T -> int)
    ensures SortedBy(SortBy(s, key), key)
    ensures multiset(SortBy(s, key)) == multiset(s)
    ensures forall k :: WithKey(SortBy(s, key), key, k) == WithKey(s, key, k)
  {
    if s != [] {
      var init, last := s[..|s| - 1], s[|s| - 1];
      assert s == init + [last];
      SortBySorted(init, key);
      InsertSorted(SortBy(init, key), last, key);
      InsertPermutes(SortBy(init, key), last, key);
      forall k ensures WithKey(SortBy(s, key), key, k) == WithKey(s, key, k) {
        InsertStable(SortBy(init, key), last, key, k);
        WithKeyAppend(SortBy(init, key), [last], key, k);
        WithKeyAppend(init, [last], key, k);
      }
    }
  }

  /** Sorting something already sorted changes nothing. */
  lemma {:induction false} SortBySortedIsIdentity<T>(s: seq<T>, key: T -> int)
    requires SortedBy(s, key)
    ensures SortBy(s, key) == s
  {
    if s != [] {
      var init := s[..|s| - 1];
      assert SortedBy(init, key);
      SortBySortedIsIdentity(init, key);
      assert s == init + [s[|s| - 1]];
    }
  }

  /** No element has key `k` exactly when none is listed for it. */
  lemma {:induction false} WithKeyEmpty<T>(s: seq<T>, key: T -> int, k: int)
    ensures |WithKey(s, key, k)| == 0 <==> forall i :: 0 <= i < |s| ==> key(s[i]) != k
  {
    if s != [] {
      WithKeyEmpty(s[..|s| - 1], key, k);
    }
  }

  lemma {:induction false} WithKeyAll<T>(s: seq<T>, key: T -> int, k: int)
    requires forall i :: 0 <= i < |s| ==> key(s[i]) == k
    ensures WithKey(s, key, k) == s
  {
    if s != [] {
      WithKeyAll(s[..|s| - 1], key, k);
    }
  }

  /** The step of `OnePerKey`: the last element holds the largest key, and
      the rest meets the same conditions one key lower. */
  lemma DropLargestKey<T>(s: seq<T>, key: T -> int, r: nat) returns (init: seq<T>)
    requires r >= 2 && SortedBy(s, key)
    requires forall i :: 0 <= i < |s| ==> 1 <= key(s[i]) <= r
    requires forall k :: 1 <= k <= r ==> |WithKey(s, key, k)| == 1
    ensures |s| > 0 && init == s[..|s| - 1] && key(s[|s| - 1]) == r
    ensures SortedBy(init, key)
    ensures forall i :: 0 <= i < |init| ==> 1 <= key(init[i]) <= r - 1
    ensures forall k :: 1 <= k <= r - 1 ==> |WithKey(init, key, k)| == 1
  {
    WithKeyEmpty(s, key, r);
    var i :| 0 <= i < |s| && key(s[i]) == r;
    var last := s[|s| - 1];
    init := s[..|s| - 1];
    assert key(s[i]) <= key(last);
    assert |WithKey(s, key, r)| == |WithKey(init, key, r)| + 1;
    WithKeyEmpty(init, key, r);
    forall j | 0 <= j < |init| ensures 1 <= key(init[j]) <= r - 1 {
      assert init[j] == s[j];
    }
    forall k | 1 <= k <= r - 1 ensures |WithKey(init, key, k)| == 1 {
      assert WithKey(s, key, k) == WithKey(init, key, k);
    }
    forall i1, j1 | 0 <= i1 < j1 < |init| ensures key(init[i1]) <= key(init[j1]) {
      assert init[i1] == s[i1] && init[j1] == s[j1];
    }
  }

  /** A sorted sequence whose keys lie in 1..r, with exactly one element of
      each of those keys, has its i-th element (from 0) at key i + 1. */
  lemma {:induction false} OnePerKey<T>(s: seq<T>, key: T -> int, r: nat)
    requires r >= 1 && SortedBy(s, key)
    requires forall i :: 0 <= i < |s| ==> 1 <= key(s[i]) <= r
    requires forall k :: 1 <= k <= r ==> |WithKey(s, key, k)| == 1
    ensures |s| == r && forall m :: 0 <= m < r ==> key(s[m]) == m + 1
  {
    if r == 1 {
      WithKeyAll(s, key, 1);
    } else {
      var init := DropLargestKey(s, key, r);
      OnePerKey(init, key, r - 1);
      forall m | 0 <= m < r - 1 ensures key(s[m]) == m + 1 {
        assert s[m] == init[m];
      }
    }
  }

  /** Inserting `x` into `s` lands it at `j` when `j` is the first position
      from which every key is larger than `key(x)`. */
  lemma {:induction false} InsertAt<T>(s: seq<T>, x: T, key: T -> int, j: nat)
    requires j <= |s| && (j == 0 || key(s[j - 1]) <= key(x))
    requires forall k :: j <= k < |s| ==> key(s[k]) > key(x)
    ensures Insert(s, x, key) == s[..j] + [x] + s[j..]
    decreases |s|
  {
    if j < |s| {
      var init := s[..|s| - 1];
      assert init[..j] == s[..j];
      InsertAt(init, x, key, j);
      assert s[j..] == init[j..] + [s[|s| - 1]];
    } else {
      assert s[..j] == s;
    }
  }

  /** One step of insertion sort: `a[i]` moves left past every element of
      the sorted prefix `a[..i]` whose key is larger. */
  method InsertInPlace<T>(a: array<T>, i: nat, key: T -> int)
    requires i < a.Length
    modifies a
    ensures a[..i + 1] == Insert(old(a[..i]), old(a[i]), key)
    ensures a[i + 1..] == old(a[i + 1..])
  {
    var x := a[i];
    ghost var sorted := a[..i];
    var j := i;
    while j > 0 && key(a[j - 1]) > key(x)
      invariant 0 <= j <= i
      invariant forall k :: 0 <= k < j ==> a[k] == sorted[k]
      invariant forall k :: j < k <= i ==> a[k] == sorted[k - 1]
      invariant forall k :: j <= k < i ==> key(sorted[k]) > key(x)
      invariant a[i + 1..] == old(a[i + 1..])
    {
      a[j] := a[j - 1];
      j := j - 1;
    }
    a[j] := x;
    InsertAt(sorted, x, key, j);
    assert a[..i + 1] == sorted[..j] + [x] + sorted[j..];
  }

  /** The sorted prefix grows by inserting the next element. */
  lemma SortPrefixStep<T>(s: seq<T>, i: nat, key: T -> int)
    requires i < |s|
    ensures SortBy(s[..i + 1], key) == Insert(SortBy(s[..i], key), s[i], key)
  {
    assert s[..i + 1][..i] == s[..i];
  }

  /** `list.sort` on an array: stable insertion sort in place. */
  method SortInPlace<T>(a: array<T>, key: T -> int)
    modifies a
    ensures a[..] == SortBy(old(a[..]), key)
  {
    ghost var original := a[..];
    var i := 0;
    while i < a.Length
      invariant 0 <= i <= a.Length
      invariant a[..i] == SortBy(original[..i], key)
      invariant a[i..] == original[i..]
    {
      ghost var before := a[..];
      assert before[i] == original[i] by {
        assert a[i..][0] == a[i];
      }
      SortPrefixStep(original, i, key);
      InsertInPlace(a, i, key);
      assert a[i + 1..] == original[i + 1..] by {
        assert original[i + 1..] == original[i..][1..];
      }
      i := i + 1;
    }
    assert a[..] == a[..a.Length];
    assert original == original[..a.Length];
  }
}
