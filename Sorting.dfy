/**
 * The two list operations the poll step applies to a machine's readings:
 * an ascending sort (List<double>.Sort) and the maximum it is used to find.
 */
module Sorting {

  ghost predicate SortedAsc(s: seq<int>)
  {
    forall i, j :: 0 <= i < j < |s| ==> s[i] <= s[j]
  }

  /** The largest element of a non-empty sequence: the reference definition. */
  function Max(s: seq<int>): (m: int)
    requires |s| > 0
    ensures m in s
    ensures forall x :: x in s ==> x <= m
  {
    if |s| == 1 then s[0]
    else
      var rest := Max(s[1..]);
      assert forall x :: x in s ==> x == s[0] || x in s[1..];
      if s[0] >= rest then s[0] else rest
  }

  /** Inserts x into an ascending sequence. */
  function Insert(x: int, s: seq<int>): (r: seq<int>)
    requires SortedAsc(s)
    ensures SortedAsc(r)
    ensures multiset(r) == multiset(s) + multiset{x}
  {
    if |s| == 0 then [x]
    else if x <= s[0] then [x] + s
    else
      var tail := Insert(x, s[1..]);
      assert s == [s[0]] + s[1..];
      assert forall i :: 0 <= i < |tail| ==> s[0] <= tail[i] by {
        forall i | 0 <= i < |tail| ensures s[0] <= tail[i] {
          assert tail[i] in multiset(s[1..]) + multiset{x};
        }
      }
      [s[0]] + tail
  }

  /** Ascending sort: the result is ordered and a permutation of the input. */
  function Sort(s: seq<int>): (r: seq<int>)
    ensures SortedAsc(r)
    ensures multiset(r) == multiset(s)
    ensures |r| == |s|
  {
    if |s| == 0 then []
    else
      assert s == [s[0]] + s[1..];
      var r := Insert(s[0], Sort(s[1..]));
      assert |r| == |multiset(r)|;
      r
  }

  /** The last element of an ascending permutation of s is the maximum of s. */
  lemma {:induction false} LastOfSortedIsMax(s: seq<int>, r: seq<int>)
    requires |s| > 0
    requires SortedAsc(r)
    requires multiset(r) == multiset(s)
    ensures |r| == |s|
    ensures r[|r| - 1] == Max(s)
  {
    assert |r| == |multiset(r)| == |multiset(s)| == |s|;
    var m := Max(s);
    assert m in multiset(s);
    assert m in r;
    var k :| 0 <= k < |r| && r[k] == m;
    assert m <= r[|r| - 1];
    assert r[|r| - 1] in multiset(r);
    assert r[|r| - 1] in s;
  }
}
