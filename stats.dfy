/**
 * The median of a non-empty integer column, as `Series.median()` computes
 * it: the middle value of the sorted column, or the mean of the two middle
 * values when the column has an even length. The median can be a half
 * integer, so it is kept doubled: `Median2(s)` is twice the median, and a
 * comparison `x > median` becomes `2 * x > Median2(s)`.
 */
module Stats {
  import opened Sorting

  function Identity(x: int): int { x }

  /** The least value of a non-empty column. */
  function Min(s: seq<int>): int
    requires |s| > 0
  {
    if |s| == 1 then s[0] else var m := Min(s[1..]); if s[0] < m then s[0] else m
  }

  /** The greatest value of a non-empty column. */
  function Max(s: seq<int>): int
    requires |s| > 0
  {
    if |s| == 1 then s[0] else var m := Max(s[1..]); if s[0] > m then s[0] else m
  }

  lemma {:induction false} MinMaxBound(s: seq<int>, x: int)
    requires x in s
    ensures Min(s) <= x <= Max(s)
  {
    if |s| > 1 && x != s[0] {
      assert x in s[1..];
      MinMaxBound(s[1..], x);
    }
  }

  /**
   * Twice the median of `s`: the sum of the two middle values of the sorted
   * column (one value counted twice when the length is odd), so it lies
   * between twice the least and twice the greatest value.
   */
  function Median2(s: seq<int>): (m2: int)
    requires |s| > 0
    ensures 2 * Min(s) <= m2 <= 2 * Max(s)
  {
    var t := SortBy(s, Identity);
    var hi, lo := t[|t| / 2], t[(|t| - 1) / 2];
    assert hi in multiset(s) && lo in multiset(s);
    MinMaxBound(s, hi);
    MinMaxBound(s, lo);
    hi + lo
  }

  /** `x` lies strictly above (`above`) or strictly below (`!above`) m / 2. */
  predicate Beyond(x: int, m2: int, above: bool)
  {
    if above then 2 * x > m2 else 2 * x < m2
  }

  /** How many elements of `s` lie strictly beyond m2 / 2 on the given side. */
  function CountBeyond(s: seq<int>, m2: int, above: bool): (n: nat)
    ensures n <= |s|
  {
    if s == [] then 0
    else (if Beyond(s[0], m2, above) then 1 else 0) + CountBeyond(s[1..], m2, above)
  }

  lemma {:induction false} CountBeyondAppend(a: seq<int>, b: seq<int>, m2: int, above: bool)
    ensures CountBeyond(a + b, m2, above) == CountBeyond(a, m2, above) + CountBeyond(b, m2, above)
  {
    if a != [] {
      assert (a + b)[1..] == a[1..] + b;
      CountBeyondAppend(a[1..], b, m2, above);
    } else {
      assert a + b == b;
    }
  }

  lemma {:induction false} CountBeyondNone(s: seq<int>, m2: int, above: bool)
    requires forall k :: 0 <= k < |s| ==> !Beyond(s[k], m2, above)
    ensures CountBeyond(s, m2, above) == 0
  {
    if s != [] {
      CountBeyondNone(s[1..], m2, above);
    }
  }

  lemma {:induction false} CountBeyondInsert(x: int, t: seq<int>, m2: int, above: bool)
    requires SortedBy(t, Identity)
    ensures CountBeyond(InsertBy(x, t, Identity), m2, above)
         == CountBeyond([x], m2, above) + CountBeyond(t, m2, above)
  {
    if t != [] && Identity(x) > Identity(t[0]) {
      CountBeyondInsert(x, t[1..], m2, above);
    }
  }

  /** Sorting does not change how many elements lie beyond a threshold. */
  lemma {:induction false} CountBeyondSort(s: seq<int>, m2: int, above: bool)
    ensures CountBeyond(SortBy(s, Identity), m2, above) == CountBeyond(s, m2, above)
  {
    if s != [] {
      CountBeyondSort(s[1..], m2, above);
      CountBeyondInsert(s[0], SortBy(s[1..], Identity), m2, above);
    }
  }

  /** Elements not beyond the threshold in the first `k` places leave at most |s| - k beyond it. */
  lemma CountBeyondAfter(s: seq<int>, k: nat, m2: int, above: bool)
    requires k <= |s|
    requires forall i :: 0 <= i < k ==> !Beyond(s[i], m2, above)
    ensures CountBeyond(s, m2, above) <= |s| - k
  {
    assert s == s[..k] + s[k..];
    CountBeyondAppend(s[..k], s[k..], m2, above);
    CountBeyondNone(s[..k], m2, above);
  }

  /** Elements not beyond the threshold from place `k` on leave at most `k` beyond it. */
  lemma CountBeyondBefore(s: seq<int>, k: nat, m2: int, above: bool)
    requires k <= |s|
    requires forall i :: k <= i < |s| ==> !Beyond(s[i], m2, above)
    ensures CountBeyond(s, m2, above) <= k
  {
    assert s == s[..k] + s[k..];
    CountBeyondAppend(s[..k], s[k..], m2, above);
    CountBeyondNone(s[k..], m2, above);
  }

  /** In a sorted column, the two middle elements split the column in half. */
  lemma SortedSplitsInHalf(t: seq<int>, above: bool)
    requires |t| > 0 && SortedBy(t, Identity)
    ensures CountBeyond(t, t[|t| / 2] + t[(|t| - 1) / 2], above) <= |t| / 2
  {
    var n := |t|;
    var lo, hi := (n - 1) / 2, n / 2;
    var m2 := t[hi] + t[lo];
    assert Identity(t[lo]) <= Identity(t[hi]);
    if above {
      forall i | 0 <= i < lo + 1
        ensures !Beyond(t[i], m2, above)
      {
        assert i == lo || Identity(t[i]) <= Identity(t[lo]);
      }
      CountBeyondAfter(t, lo + 1, m2, above);
    } else {
      forall i | hi <= i < n
        ensures !Beyond(t[i], m2, above)
      {
        assert i == hi || Identity(t[hi]) <= Identity(t[i]);
      }
      CountBeyondBefore(t, hi, m2, above);
    }
  }

  /**
   * The defining property of a median: at most half of the elements lie
   * strictly above it, and at most half strictly below it.
   */
  lemma MedianSplitsInHalf(s: seq<int>, above: bool)
    requires |s| > 0
    ensures CountBeyond(s, Median2(s), above) <= |s| / 2
  {
    var t := SortBy(s, Identity);
    var m2 := Median2(s);
    assert m2 == t[|t| / 2] + t[(|t| - 1) / 2];
    assert CountBeyond(t, m2, above) == CountBeyond(s, m2, above) by {
      CountBeyondSort(s, m2, above);
    }
    assert CountBeyond(t, m2, above) <= |t| / 2 by {
      SortedSplitsInHalf(t, above);
    }
  }

  /** The median lies within any bounds that hold for every element. */
  lemma MedianWithin(s: seq<int>, lo: int, hi: int)
    requires |s| > 0
    requires forall k :: 0 <= k < |s| ==> lo <= s[k] <= hi
    ensures 2 * lo <= Median2(s) <= 2 * hi
  {
    var t := SortBy(s, Identity);
    assert |t| == |multiset(t)| == |s|;
    assert t[|t| / 2] in multiset(s) && t[(|t| - 1) / 2] in multiset(s);
  }

  /** The median of one value is that value. */
  lemma MedianSingleton(c: int)
    ensures Median2([c]) == 2 * c
  {
    assert SortBy([c], Identity) == [c];
  }

  /** The median of two values is their mean. */
  lemma MedianPair(x: int, y: int)
    ensures Median2([x, y]) == x + y
  {
    assert [x, y][1..] == [y];
    assert [y][1..] == [];
    assert SortBy([y], Identity) == [y];
    var t := InsertBy(x, [y], Identity);
    if x <= y {
      assert t == [x, y];
    } else {
      assert t == [y, x];
    }
  }
}
