/**
 * Sequence helpers the rule code gets from JavaScript's built-ins: `Array.prototype.sort`
 * on numbers, `new Set(xs).size`, and sums via `reduce`.
 */
module Ordering {

  predicate Sorted(s: seq<int>) {
    forall i, j :: 0 <= i < j < |s| ==> s[i] <= s[j]
  }

  predicate Distinct<T(==)>(s: seq<T>) {
    forall i, j :: 0 <= i < j < |s| ==> s[i] != s[j]
  }

  function Insert(x: int, s: seq<int>): (r: seq<int>)
    ensures |r| == |s| + 1
  {
    if s == [] || x <= s[0] then [x] + s
    else [s[0]] + Insert(x, s[1..])
  }

  lemma {:induction false} InsertElements(x: int, s: seq<int>)
    ensures multiset(Insert(x, s)) == multiset(s) + multiset{x}
  {
    if s != [] && x > s[0] {
      InsertElements(x, s[1..]);
      assert s == [s[0]] + s[1..];
    }
  }

  lemma {:induction false} InsertSorted(x: int, s: seq<int>)
    requires Sorted(s)
    ensures Sorted(Insert(x, s))
  {
    if s != [] && x > s[0] {
      InsertSorted(x, s[1..]);
      InsertElements(x, s[1..]);
      var r := Insert(x, s);
      var t := Insert(x, s[1..]);
      assert r == [s[0]] + t;
      forall k | 0 <= k < |t| ensures s[0] <= t[k] {
        assert t[k] in multiset(s[1..]) + multiset{x};
        if t[k] in multiset(s[1..]) {
          var m :| 0 <= m < |s[1..]| && s[1..][m] == t[k];
          assert s[m + 1] == t[k];
        }
      }
    }
  }

  /** `[...xs].sort((a, b) => a - b)` */
  function SortInts(xs: seq<int>): (r: seq<int>)
    ensures |r| == |xs|
  {
    if xs == [] then [] else Insert(xs[0], SortInts(xs[1..]))
  }

  /** Sorting yields an ascending arrangement of the same elements. */
  lemma {:induction false} SortIntsSpec(xs: seq<int>)
    ensures Sorted(SortInts(xs)) && multiset(SortInts(xs)) == multiset(xs)
  {
    if xs != [] {
      SortIntsSpec(xs[1..]);
      InsertSorted(xs[0], SortInts(xs[1..]));
      InsertElements(xs[0], SortInts(xs[1..]));
      assert xs == [xs[0]] + xs[1..];
    }
  }

  /** Removing the element at `j` removes one occurrence of it. */
  /** A sequence is its prefix, the element at `j` and its suffix. */
  lemma SplitAround<T>(b: seq<T>, j: nat)
    requires j < |b|
    ensures b == b[..j] + ([b[j]] + b[j + 1..])
  {
    assert b == b[..j] + b[j..] && b[j..] == [b[j]] + b[j + 1..];
  }

  lemma RemoveAt<T>(b: seq<T>, j: nat)
    requires j < |b|
    ensures multiset(b[..j] + b[j + 1..]) == multiset(b) - multiset{b[j]}
  {
    assert b == b[..j] + [b[j]] + b[j + 1..];
  }

  /** A sorted sequence is determined by its multiset of elements. */
  lemma {:induction false} SortedUnique(a: seq<int>, b: seq<int>)
    requires Sorted(a) && Sorted(b) && multiset(a) == multiset(b)
    ensures a == b
  {
    if a != [] {
      assert |a| == |multiset(a)| == |multiset(b)| == |b|;
      SortedHeads(a, b);
      SortedTail(a);
      SortedTail(b);
      SortedUnique(a[1..], b[1..]);
    }
  }

  /** Two ascending sequences with the same elements start with the same element. */
  lemma SortedHeads(a: seq<int>, b: seq<int>)
    requires Sorted(a) && Sorted(b) && multiset(a) == multiset(b) && a != [] && b != []
    ensures a[0] == b[0]
  {
    assert a[0] in multiset(b) && b[0] in multiset(a);
    var i :| 0 <= i < |a| && a[i] == b[0];
    var j :| 0 <= j < |b| && b[j] == a[0];
    assert a[0] <= a[i] && b[0] <= b[j];
  }

  lemma SortedTail(a: seq<int>)
    requires Sorted(a) && a != []
    ensures Sorted(a[1..]) && multiset(a[1..]) == multiset(a) - multiset{a[0]}
  {
    assert a == [a[0]] + a[1..];
  }

  /** Sorting depends only on the multiset of the input. */
  lemma SortPermutation(xs: seq<int>, ys: seq<int>)
    requires multiset(xs) == multiset(ys)
    ensures SortInts(xs) == SortInts(ys)
  {
    SortIntsSpec(xs);
    SortIntsSpec(ys);
    SortedUnique(SortInts(xs), SortInts(ys));
  }

  /** Pairwise distinct exactly when no value occurs twice. */
  lemma {:induction false} DistinctIffCounts<T>(s: seq<T>)
    ensures Distinct(s) <==> forall v :: multiset(s)[v] <= 1
  {
    if s != [] {
      var r := s[1..];
      assert s == [s[0]] + r;
      DistinctIffCounts(r);
      if Distinct(s) {
        assert Distinct(r) by {
          forall i, j | 0 <= i < j < |r| ensures r[i] != r[j] {
            assert r[i] == s[i + 1] && r[j] == s[j + 1];
          }
        }
        assert s[0] !in r;
        forall v ensures multiset(s)[v] <= 1 {
          assert multiset(s)[v] == multiset{s[0]}[v] + multiset(r)[v];
        }
      } else {
        var i, j :| 0 <= i < j < |s| && s[i] == s[j];
        if i == 0 {
          assert s[j] in multiset(r) by { assert r[j - 1] == s[j]; }
          assert multiset(s)[s[0]] == 1 + multiset(r)[s[0]];
        } else {
          assert r[i - 1] == r[j - 1];
          assert !Distinct(r);
          var v :| multiset(r)[v] > 1;
          assert multiset(s)[v] == multiset{s[0]}[v] + multiset(r)[v];
        }
      }
    }
  }

  /** Being pairwise distinct survives any reordering. */
  lemma DistinctPermutation<T>(a: seq<T>, b: seq<T>)
    requires multiset(a) == multiset(b)
    ensures Distinct(a) <==> Distinct(b)
  {
    DistinctIffCounts(a);
    DistinctIffCounts(b);
  }

  /** `new Set(s).size`: the number of distinct values in `s`. */
  function SetSize<T(==)>(s: seq<T>): (n: nat)
    ensures n <= |s|
  {
    if s == [] then 0
    else SetSize(s[1..]) + (if s[0] in s[1..] then 0 else 1)
  }

  /** The JavaScript idiom `new Set(s).size === s.length` tests pairwise distinctness. */
  lemma {:induction false} SetSizeDistinct<T>(s: seq<T>)
    ensures SetSize(s) == |s| <==> Distinct(s)
  {
    if s != [] {
      var r := s[1..];
      SetSizeDistinct(r);
      if Distinct(s) {
        assert Distinct(r) by {
          forall i, j | 0 <= i < j < |r| ensures r[i] != r[j] {
            assert r[i] == s[i + 1] && r[j] == s[j + 1];
          }
        }
        assert s[0] !in r;
      } else {
        var i, j :| 0 <= i < j < |s| && s[i] == s[j];
        if i == 0 {
          assert s[0] in r by { assert r[j - 1] == s[j]; }
        } else {
          assert r[i - 1] == r[j - 1];
        }
      }
    }
  }

  function Sum(s: seq<int>): int {
    if s == [] then 0 else s[0] + Sum(s[1..])
  }

  lemma {:induction false} SumInsert(x: int, s: seq<int>)
    ensures Sum(Insert(x, s)) == x + Sum(s)
  {
    if s != [] && x > s[0] {
      SumInsert(x, s[1..]);
    }
  }

  /** Sorting does not change the sum. */
  lemma {:induction false} SumSort(xs: seq<int>)
    ensures Sum(SortInts(xs)) == Sum(xs)
  {
    if xs != [] {
      SumSort(xs[1..]);
      SumInsert(xs[0], SortInts(xs[1..]));
    }
  }

  lemma {:induction false} SumConcat(a: seq<int>, b: seq<int>)
    ensures Sum(a + b) == Sum(a) + Sum(b)
  {
    if a == [] {
      assert a + b == b;
    } else {
      assert (a + b)[0] == a[0];
      assert (a + b)[1..] == a[1..] + b;
      SumConcat(a[1..], b);
    }
  }

  /** lo + (lo+1) + ... + hi, the loop `for (let n = lo; n <= hi; n++) total += n`. */
  function RangeSum(lo: int, hi: int): int
    decreases hi - lo
  {
    if hi < lo then 0 else RangeSum(lo, hi - 1) + hi
  }

  /** Gauss: twice the range sum is (lo + hi) times the number of terms. */
  lemma {:induction false} RangeSumClosedForm(lo: int, hi: int)
    requires lo <= hi + 1
    ensures 2 * RangeSum(lo, hi) == (lo + hi) * (hi - lo + 1)
    decreases hi - lo
  {
    if hi >= lo {
      RangeSumClosedForm(lo, hi - 1);
      assert (lo + hi) * (hi - lo + 1) == (lo + hi - 1) * (hi - lo) + 2 * hi;
    }
  }

  /** A strictly increasing sequence with no gaps is lo, lo+1, ..., and sums to RangeSum. */
  lemma {:induction false} ConsecutiveSum(s: seq<int>)
    requires |s| >= 1
    requires forall i :: 0 <= i < |s| ==> s[i] == s[0] + i
    ensures Sum(s) == RangeSum(s[0], s[|s| - 1])
    decreases |s|
  {
    if |s| > 1 {
      var init := s[..|s| - 1];
      ConsecutiveSum(init);
      assert s == init + [s[|s| - 1]];
      SumConcat(init, [s[|s| - 1]]);
    }
  }

  /** Adjacent elements strictly increase. */
  predicate Increasing(s: seq<int>) {
    forall i :: 0 < i < |s| ==> s[i - 1] < s[i]
  }

  /** For a sorted sequence, strictly increasing and pairwise distinct are the same. */
  lemma SortedIncreasingIffDistinct(s: seq<int>)
    requires Sorted(s)
    ensures Increasing(s) <==> Distinct(s)
  {
    if Increasing(s) {
      forall i, j | 0 <= i < j < |s| ensures s[i] != s[j] {
        assert s[i] <= s[j - 1] < s[j];
      }
    }
  }

  function MinOf(s: seq<int>): (m: int)
    requires |s| >= 1
    ensures m in s && forall x <- s :: m <= x
  {
    if |s| == 1 then s[0]
    else
      var r := MinOf(s[1..]);
      assert s == [s[0]] + s[1..];
      if s[0] <= r then s[0] else r
  }

  function MaxOf(s: seq<int>): (m: int)
    requires |s| >= 1
    ensures m in s && forall x <- s :: x <= m
  {
    if |s| == 1 then s[0]
    else
      var r := MaxOf(s[1..]);
      assert s == [s[0]] + s[1..];
      if s[0] >= r then s[0] else r
  }

  /** The ends of a sorted permutation of `xs` are the minimum and maximum of `xs`. */
  lemma SortedEnds(s: seq<int>, xs: seq<int>)
    requires Sorted(s) && multiset(s) == multiset(xs) && |xs| >= 1
    ensures |s| == |xs| && s[0] == MinOf(xs) && s[|s| - 1] == MaxOf(xs)
  {
    assert |s| == |multiset(s)| == |multiset(xs)| == |xs|;
    assert s[0] in multiset(xs) && s[|s| - 1] in multiset(xs);
    var lo, hi := MinOf(xs), MaxOf(xs);
    assert lo in multiset(s) && hi in multiset(s);
    var k :| 0 <= k < |s| && s[k] == lo;
    var m :| 0 <= m < |s| && s[m] == hi;
    assert s[0] <= s[k] && s[m] <= s[|s| - 1];
    assert s[0] in xs && s[|s| - 1] in xs;
  }

  /**
   * The key order of a JavaScript `Map` after `delete(x)`: the same keys in the same
   * order, without `x`.
   */
  function Without<T(==)>(s: seq<T>, x: T): (r: seq<T>)
    ensures forall y <- r :: y in s && y != x
    ensures forall y <- s :: y != x ==> y in r
    ensures |r| <= |s|
  {
    if s == [] then []
    else (if s[0] == x then [] else [s[0]]) + Without(s[1..], x)
  }

  /** The position of the first occurrence of `x` in `xs`: `xs.indexOf(x)`. */
  function FirstPos<T(==)>(xs: seq<T>, x: T): (r: nat)
    requires x in xs
    ensures r < |xs| && xs[r] == x
  {
    if xs[0] == x then 0 else 1 + FirstPos(xs[1..], x)
  }

  /** No earlier position holds `x`. */
  lemma {:induction false} FirstPosIsFirst<T>(xs: seq<T>, x: T)
    requires x in xs
    ensures forall q :: 0 <= q < FirstPos(xs, x) ==> xs[q] != x
  {
    if xs[0] != x {
      FirstPosIsFirst(xs[1..], x);
      forall q | 0 < q < FirstPos(xs, x) ensures xs[q] != x {
        assert xs[q] == xs[1..][q - 1];
      }
    }
  }

  /** Deleting a key keeps the order of the keys that remain. */
  lemma {:induction false} WithoutOrder<T>(s: seq<T>, x: T, y: T, z: T)
    requires y in Without(s, x) && z in Without(s, x)
    requires FirstPos(Without(s, x), y) < FirstPos(Without(s, x), z)
    ensures FirstPos(s, y) < FirstPos(s, z)
  {
    var w := Without(s[1..], x);
    if s[0] == x {
      assert Without(s, x) == w;
      WithoutOrder(s[1..], x, y, z);
    } else {
      assert Without(s, x) == [s[0]] + w;
      if y != s[0] {
        assert z != s[0];
        WithoutOrder(s[1..], x, y, z);
      }
    }
  }

  /** Deleting a key keeps the remaining keys pairwise distinct. */
  lemma {:induction false} WithoutDistinct<T>(s: seq<T>, x: T)
    requires Distinct(s)
    ensures Distinct(Without(s, x))
  {
    if s != [] {
      WithoutDistinct(s[1..], x);
      var r := Without(s, x);
      var t := Without(s[1..], x);
      assert Distinct(s[1..]) by {
        forall i, j | 0 <= i < j < |s[1..]| ensures s[1..][i] != s[1..][j] {
          assert s[1..][i] == s[i + 1] && s[1..][j] == s[j + 1];
        }
      }
      if s[0] != x {
        assert s[0] !in s[1..];
        assert s[0] !in t;
        assert r == [s[0]] + t;
        forall i, j | 0 <= i < j < |r| ensures r[i] != r[j] {
          if i == 0 {
            assert r[j] == t[j - 1];
          } else {
            assert r[i] == t[i - 1] && r[j] == t[j - 1];
          }
        }
      }
    }
  }

  /** `s.splice(i, 1)`: the element at `i` leaves, later elements move down by one. */
  function Splice<T>(s: seq<T>, i: nat): (r: seq<T>)
    requires i < |s|
    ensures |r| == |s| - 1
    ensures forall j :: 0 <= j < i ==> r[j] == s[j]
    ensures forall j :: i <= j < |r| ==> r[j] == s[j + 1]
    ensures multiset(r) == multiset(s) - multiset{s[i]}
  {
    RemoveAt(s, i);
    s[..i] + s[i + 1..]
  }

  /** Splicing past the head keeps the head. */
  lemma SpliceCons<T>(s: seq<T>, k: nat)
    requires 0 < k < |s|
    ensures Splice(s, k) == [s[0]] + Splice(s[1..], k - 1)
  {
    var a, b := Splice(s, k), Splice(s[1..], k - 1);
    forall j | 0 <= j < |a| ensures a[j] == ([s[0]] + b)[j] {
      if 0 < j < k {
        assert b[j - 1] == s[1..][j - 1];
      } else if j >= k {
        assert b[j - 1] == s[1..][j];
      }
    }
  }
}
