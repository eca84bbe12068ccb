/** Stable sorting in non-increasing order of an integer key, as Python's
    `list.sort(key=..., reverse=True)` and `sorted(..., reverse=True)` do it.

    Stability is stated without indices: for every key value `k`, the
    subsequence of elements whose key is `k` is the same before and after. */
module StableSort {

  /** The elements of `s` whose key is `k`, in their order in `s`. */
  function FilterKey<T>(s: seq<T>, key: T -> int, k: int): (r: seq<T>)
    ensures |r| <= |s|
    ensures forall x :: x in r ==> x in s && key(x) == k
  {
    if s == [] then []
    else (if key(s[0]) == k then [s[0]] else []) + FilterKey(s[1..], key, k)
  }

  predicate SortedDesc<T>(s: seq<T>, key: T -> int) {
    forall i, j :: 0 <= i < j < |s| ==> key(s[i]) >= key(s[j])
  }

  /** `r` is what a stable sort in non-increasing key order makes of `s`. */
  ghost predicate IsStableSortOf<T>(r: seq<T>, s: seq<T>, key: T -> int) {
    SortedDesc(r, key) && forall k :: FilterKey(r, key, k) == FilterKey(s, key, k)
  }

  lemma {:induction false} FilterKeyAppend<T>(a: seq<T>, b: seq<T>, key: T -> int, k: int)
    ensures FilterKey(a + b, key, k) == FilterKey(a, key, k) + FilterKey(b, key, k)
  {
    if a == [] {
      assert a + b == b;
    } else {
      assert (a + b)[1..] == a[1..] + b;
      FilterKeyAppend(a[1..], b, key, k);
    }
  }

  lemma FilterKeyPair<T>(x: T, y: T, key: T -> int, k: int)
    requires key(x) != key(y)
    ensures FilterKey([x, y], key, k) == FilterKey([y, x], key, k)
  {
    assert [x, y][1..] == [y] && [y, x][1..] == [x];
  }

  /** Swapping two neighbours with different keys leaves every key's subsequence alone;
      this is the step an in-place insertion sort takes. */
  lemma SwapNeighboursKeepsFilters<T>(s: seq<T>, i: nat, key: T -> int)
    requires i + 1 < |s| && key(s[i]) != key(s[i + 1])
    ensures forall k :: FilterKey(s[i := s[i + 1]][i + 1 := s[i]], key, k) == FilterKey(s, key, k)
  {
    var t := s[i := s[i + 1]][i + 1 := s[i]];
    var p, q, x, y := s[..i], s[i + 2..], s[i], s[i + 1];
    assert s == (p + [x, y]) + q;
    assert t == (p + [y, x]) + q;
    forall k ensures FilterKey(t, key, k) == FilterKey(s, key, k) {
      FilterKeyAppend(p + [x, y], q, key, k);
      FilterKeyAppend(p, [x, y], key, k);
      FilterKeyAppend(p + [y, x], q, key, k);
      FilterKeyAppend(p, [y, x], key, k);
      FilterKeyPair(x, y, key, k);
    }
  }

  /** Every element of `s` is in the subsequence of its own key as often as in `s`,
      so a stable sort is a permutation. */
  lemma {:induction false} FilterKeyCounts<T>(s: seq<T>, key: T -> int, x: T)
    ensures multiset(FilterKey(s, key, key(x)))[x] == multiset(s)[x]
  {
    if s != [] {
      FilterKeyCounts(s[1..], key, x);
      assert s == [s[0]] + s[1..];
    }
  }

  lemma StableSortIsPermutation<T>(r: seq<T>, s: seq<T>, key: T -> int)
    requires IsStableSortOf(r, s, key)
    ensures multiset(r) == multiset(s)
  {
    forall x ensures multiset(r)[x] == multiset(s)[x] {
      FilterKeyCounts(r, key, x);
      FilterKeyCounts(s, key, x);
    }
  }

  lemma {:induction false} FilterKeyOfLarger<T>(s: seq<T>, key: T -> int, k: int)
    requires forall i :: 0 <= i < |s| ==> key(s[i]) < k
    ensures FilterKey(s, key, k) == []
  {
    if s != [] {
      FilterKeyOfLarger(s[1..], key, k);
    }
  }

  /** Removing equal heads from two sequences leaves the key subsequences of the tails equal. */
  lemma DropEqualHeads<T>(r1: seq<T>, r2: seq<T>, key: T -> int)
    requires r1 != [] && r2 != [] && r1[0] == r2[0]
    requires forall k :: FilterKey(r1, key, k) == FilterKey(r2, key, k)
    ensures forall k :: FilterKey(r1[1..], key, k) == FilterKey(r2[1..], key, k)
  {
    forall k ensures FilterKey(r1[1..], key, k) == FilterKey(r2[1..], key, k) {
      var head := if key(r1[0]) == k then [r1[0]] else [];
      assert FilterKey(r1, key, k) == head + FilterKey(r1[1..], key, k);
      assert FilterKey(r2, key, k) == head + FilterKey(r2[1..], key, k);
      assert FilterKey(r1[1..], key, k) == FilterKey(r1, key, k)[|head|..];
      assert FilterKey(r2[1..], key, k) == FilterKey(r2, key, k)[|head|..];
    }
  }

  /** In a non-increasing sequence the head leads its own key's subsequence, and no
      larger key occurs. */
  lemma SortedHeadFacts<T>(s: seq<T>, key: T -> int)
    requires SortedDesc(s, key)
    ensures s != [] ==> FilterKey(s, key, key(s[0])) == [s[0]] + FilterKey(s[1..], key, key(s[0]))
    ensures s != [] ==> forall k :: k > key(s[0]) ==> FilterKey(s, key, k) == []
  {
    if s != [] {
      forall k | k > key(s[0]) ensures FilterKey(s, key, k) == [] {
        FilterKeyOfLarger(s, key, k);
      }
    }
  }

  /** Sequences with the same key subsequences are both empty or both not. */
  lemma SameEmptiness<T>(r1: seq<T>, r2: seq<T>, key: T -> int)
    requires forall k :: FilterKey(r1, key, k) == FilterKey(r2, key, k)
    ensures r1 == [] <==> r2 == []
  {
    if r1 != [] {
      assert FilterKey(r1, key, key(r1[0])) != [];
      assert FilterKey(r2, key, key(r1[0])) != [];
    }
    if r2 != [] {
      assert FilterKey(r2, key, key(r2[0])) != [];
      assert FilterKey(r1, key, key(r2[0])) != [];
    }
  }

  /** Two non-increasing sequences with the same key subsequences start with the same element. */
  lemma SameHead<T>(r1: seq<T>, r2: seq<T>, key: T -> int)
    requires SortedDesc(r1, key) && SortedDesc(r2, key)
    requires forall k :: FilterKey(r1, key, k) == FilterKey(r2, key, k)
    requires r1 != [] && r2 != []
    ensures r1[0] == r2[0]
  {
    SortedHeadFacts(r1, key);
    SortedHeadFacts(r2, key);
    var k1, k2 := key(r1[0]), key(r2[0]);
    assert FilterKey(r1, key, k1) == FilterKey(r2, key, k1);
    assert FilterKey(r1, key, k2) == FilterKey(r2, key, k2);
    assert k1 == k2;
    assert r1[0] == FilterKey(r1, key, k1)[0];
  }

  /** There is only one stable sort of a sequence, so every stable sort algorithm
      (the standard library's included) computes the same result as `SortDesc`. */
  lemma {:induction false} StableSortUnique<T>(r1: seq<T>, r2: seq<T>, key: T -> int)
    requires SortedDesc(r1, key) && SortedDesc(r2, key)
    requires forall k :: FilterKey(r1, key, k) == FilterKey(r2, key, k)
    ensures r1 == r2
  {
    SameEmptiness(r1, r2, key);
    if r1 != [] {
      SameHead(r1, r2, key);
      DropEqualHeads(r1, r2, key);
      StableSortUnique(r1[1..], r2[1..], key);
      assert r1 == [r1[0]] + r1[1..] && r2 == [r2[0]] + r2[1..];
    }
  }

  /** Inserts `x` before the first element whose key is not larger, so that `x`
      precedes the elements of equal key already in `s`. */
  function Insert<T>(x: T, s: seq<T>, key: T -> int): (r: seq<T>)
    ensures |r| == |s| + 1
  {
    if s == [] then [x]
    else if key(x) >= key(s[0]) then [x] + s
    else [s[0]] + Insert(x, s[1..], key)
  }

  lemma FilterKeyCons<T>(x: T, s: seq<T>, key: T -> int, k: int)
    ensures FilterKey([x] + s, key, k) == (if key(x) == k then [x] else []) + FilterKey(s, key, k)
  {
    assert ([x] + s)[0] == x && ([x] + s)[1..] == s;
  }

  lemma {:induction false} InsertKeepsFilters<T>(x: T, s: seq<T>, key: T -> int, k: int)
    ensures FilterKey(Insert(x, s, key), key, k) == FilterKey([x] + s, key, k)
  {
    if s != [] && key(x) < key(s[0]) {
      var y, rest := s[0], s[1..];
      assert s == [y] + rest;
      var inserted := Insert(x, rest, key);
      assert Insert(x, s, key) == [y] + inserted;
      InsertKeepsFilters(x, rest, key, k);
      var hx: seq<T> := if key(x) == k then [x] else [];
      var hy: seq<T> := if key(y) == k then [y] else [];
      var tail := FilterKey(rest, key, k);
      FilterKeyCons(y, inserted, key, k);
      FilterKeyCons(x, rest, key, k);
      assert FilterKey(Insert(x, s, key), key, k) == hy + (hx + tail);
      FilterKeyCons(x, s, key, k);
      FilterKeyCons(y, rest, key, k);
      assert FilterKey([x] + s, key, k) == hx + (hy + tail);
      if key(x) == k {
        assert hy == [];
      } else {
        assert hx == [];
      }
    }
  }

  lemma {:induction false} InsertKeepsSorted<T>(x: T, s: seq<T>, key: T -> int)
    requires SortedDesc(s, key)
    ensures SortedDesc(Insert(x, s, key), key)
    ensures forall y :: y in Insert(x, s, key) ==> y == x || y in s
  {
    if s != [] && key(x) < key(s[0]) {
      InsertKeepsSorted(x, s[1..], key);
      var r := Insert(x, s, key);
      assert r == [s[0]] + Insert(x, s[1..], key);
      forall j | 1 <= j < |r| ensures key(s[0]) >= key(r[j]) {
        assert r[j] in Insert(x, s[1..], key);
      }
    }
  }

  /** Stable insertion sort in non-increasing key order. */
  function SortDesc<T>(s: seq<T>, key: T -> int): (r: seq<T>)
    ensures IsStableSortOf(r, s, key)
    ensures |r| == |s|
  {
    if s == [] then []
    else
      var t := SortDesc(s[1..], key);
      InsertKeepsSorted(s[0], t, key);
      assert forall k :: FilterKey(Insert(s[0], t, key), key, k) == FilterKey(s, key, k) by {
        forall k ensures FilterKey(Insert(s[0], t, key), key, k) == FilterKey(s, key, k) {
          InsertKeepsFilters(s[0], t, key, k);
          assert ([s[0]] + t)[1..] == t;
        }
      }
      Insert(s[0], t, key)
  }

  /** Whatever stable sort produced `r`, it is `SortDesc(s, key)`. */
  lemma StableSortIsSortDesc<T>(r: seq<T>, s: seq<T>, key: T -> int)
    requires IsStableSortOf(r, s, key)
    ensures r == SortDesc(s, key)
  {
    var t := SortDesc(s, key);
    forall k ensures FilterKey(r, key, k) == FilterKey(t, key, k) {
      assert FilterKey(r, key, k) == FilterKey(s, key, k);
    }
    StableSortUnique(r, t, key);
  }

  // ---------------------------------------------------------------- ties keep their order

  /** `x` occurs somewhere before `y` in `s`. */
  ghost predicate Before<T>(s: seq<T>, x: T, y: T) {
    exists p, q :: 0 <= p < q < |s| && s[p] == x && s[q] == y
  }

  lemma {:induction false} FilterKeyHas<T>(s: seq<T>, key: T -> int, y: T)
    requires y in s
    ensures y in FilterKey(s, key, key(y))
  {
    if s[0] != y {
      FilterKeyHas(s[1..], key, y);
    }
  }

  lemma {:induction false} FilterKeepsBefore<T>(s: seq<T>, key: T -> int, x: T, y: T)
    requires Before(s, x, y) && key(x) == key(y)
    ensures Before(FilterKey(s, key, key(x)), x, y)
  {
    var k := key(x);
    var p, q :| 0 <= p < q < |s| && s[p] == x && s[q] == y;
    var f := FilterKey(s, key, k);
    var head := if key(s[0]) == k then [s[0]] else [];
    var rest := FilterKey(s[1..], key, k);
    assert f == head + rest;
    if p == 0 {
      assert y in s[1..] by { assert s[1..][q - 1] == y; }
      FilterKeyHas(s[1..], key, y);
      var b :| 0 <= b < |rest| && rest[b] == y;
      assert f[0] == x && f[1 + b] == y;
    } else {
      assert s[1..][p - 1] == x && s[1..][q - 1] == y;
      FilterKeepsBefore(s[1..], key, x, y);
      var a, b :| 0 <= a < b < |rest| && rest[a] == x && rest[b] == y;
      assert f[|head| + a] == x && f[|head| + b] == y;
    }
  }

  lemma {:induction false} FilterReflectsBefore<T>(s: seq<T>, key: T -> int, k: int, x: T, y: T)
    requires Before(FilterKey(s, key, k), x, y)
    ensures Before(s, x, y)
  {
    var f := FilterKey(s, key, k);
    var a, b :| 0 <= a < b < |f| && f[a] == x && f[b] == y;
    var head := if key(s[0]) == k then [s[0]] else [];
    var rest := FilterKey(s[1..], key, k);
    assert f == head + rest;
    if head != [] && a == 0 {
      assert y in rest by { assert rest[b - 1] == y; }
      var q :| 0 <= q < |s[1..]| && s[1..][q] == y;
      assert s[0] == x && s[q + 1] == y;
    } else {
      assert rest[a - |head|] == x && rest[b - |head|] == y;
      FilterReflectsBefore(s[1..], key, k, x, y);
      var p, q :| 0 <= p < q < |s[1..]| && s[1..][p] == x && s[1..][q] == y;
      assert s[p + 1] == x && s[q + 1] == y;
    }
  }

  /** Elements of equal key keep the order they had before a stable sort. */
  lemma StableSortKeepsTieOrder<T>(r: seq<T>, s: seq<T>, key: T -> int, i: nat, j: nat)
    requires IsStableSortOf(r, s, key)
    requires i < j < |r| && key(r[i]) == key(r[j])
    ensures Before(s, r[i], r[j])
  {
    FilterKeepsBefore(r, key, r[i], r[j]);
    FilterReflectsBefore(s, key, key(r[i]), r[i], r[j]);
  }

  // ---------------------------------------------------------------- distinct elements

  predicate Distinct<T(==)>(s: seq<T>) {
    forall i, j :: 0 <= i < j < |s| ==> s[i] != s[j]
  }

  lemma {:induction false} DistinctCounts<T>(s: seq<T>, x: T)
    requires Distinct(s)
    ensures multiset(s)[x] <= 1
  {
    if s != [] {
      assert s == [s[0]] + s[1..];
      DistinctCounts(s[1..], x);
      if s[0] == x {
        assert x !in s[1..] by {
          forall m | 0 <= m < |s[1..]| ensures s[1..][m] != x {
            assert s[1..][m] == s[m + 1];
          }
        }
      }
    }
  }

  lemma RepeatCounts<T>(s: seq<T>, i: nat, j: nat)
    requires i < j < |s| && s[i] == s[j]
    ensures multiset(s)[s[i]] >= 2
  {
    assert s == s[..j] + s[j..];
    assert s[..j][i] == s[i];
    assert s[j..][0] == s[i];
  }

  /** A rearrangement of a sequence without repetitions has none either. */
  lemma PermutationKeepsDistinct<T>(r: seq<T>, s: seq<T>)
    requires multiset(r) == multiset(s) && Distinct(s)
    ensures Distinct(r)
  {
    forall i, j | 0 <= i < j < |r| ensures r[i] != r[j] {
      DistinctCounts(s, r[i]);
      if r[i] == r[j] {
        RepeatCounts(r, i, j);
      }
    }
  }
}
