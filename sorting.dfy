/**
 * Ordering by an integer key. This is the ascending sort by rank that both
 * the filter's data frame and the store's SQL query perform; the
 * contracts promise an ascending permutation and nothing about ties.
 */
module Sorting {

  /** `s` is in ascending order of `key`. */
  ghost predicate SortedBy<T>(s: seq<T>, key: T -> int)
  {
    forall i, j :: 0 <= i < j < |s| ==> key(s[i]) <= key(s[j])
  }

  /** Places `x` into the already sorted `s`. */
  function InsertBy<T>(x: T, s: seq<T>, key: T -> int): (r: seq<T>)
    requires SortedBy(s, key)
    ensures SortedBy(r, key)
    ensures multiset(r) == multiset(s) + multiset{x}
  {
    if s == [] || key(x) <= key(s[0]) then
      [x] + s
    else
      var rest := InsertBy(x, s[1..], key);
      assert s == [s[0]] + s[1..];
      HeadPrecedes(s, x, rest, key);
      [s[0]] + rest
  }

  /** The head of a sorted `s` may precede any rearrangement of its tail with a larger `x`. */
  lemma HeadPrecedes<T>(s: seq<T>, x: T, rest: seq<T>, key: T -> int)
    requires s != [] && SortedBy(s, key) && key(s[0]) < key(x)
    requires SortedBy(rest, key)
    requires multiset(rest) == multiset(s[1..]) + multiset{x}
    ensures SortedBy([s[0]] + rest, key)
  {
    forall k | 0 <= k < |rest|
      ensures key(s[0]) <= key(rest[k])
    {
      assert rest[k] in multiset(rest);
      if rest[k] != x {
        assert rest[k] in s[1..];
        var j :| 0 <= j < |s[1..]| && s[1..][j] == rest[k];
        assert s[j + 1] == rest[k];
      }
    }
    var r := [s[0]] + rest;
    forall i, j | 0 <= i < j < |r|
      ensures key(r[i]) <= key(r[j])
    {
      assert r[j] == rest[j - 1];
      if i > 0 {
        assert r[i] == rest[i - 1];
      }
    }
  }

  /** An ascending permutation of `s`. */
  function SortBy<T>(s: seq<T>, key: T -> int): (r: seq<T>)
    ensures SortedBy(r, key)
    ensures multiset(r) == multiset(s)
    ensures |r| == |s|
  {
    if s == [] then
      []
    else
      assert s == [s[0]] + s[1..];
      var r := InsertBy(s[0], SortBy(s[1..], key), key);
      assert |r| == |multiset(r)|;
      r
  }

  /**
   * Two elements whose keys differ have exactly one ascending order: any
   * sorted permutation of them puts the smaller key first.
   */
  lemma {:induction false} OrderOfTwo<T>(out: seq<T>, x: T, y: T, key: T -> int)
    requires SortedBy(out, key)
    requires multiset(out) == multiset{x, y}
    requires key(x) < key(y)
    ensures out == [x, y]
  {
    assert |out| == 2;
    assert out[0] in multiset(out) && out[1] in multiset(out);
    assert multiset(out) == multiset{out[0], out[1]} by {
      assert out == [out[0], out[1]];
    }
  }
}
