/** `changes.sort(key=lambda x: x[0], reverse=True)`: Python's stable sort of
    the planned changes by start line, largest first. */
module Sorting {
  import opened Planner

  /** Starts never increase from left to right. */
  predicate NonIncreasing(s: seq<Change>) {
    forall i, j :: 0 <= i < j < |s| ==> s[i].start >= s[j].start
  }

  /** The changes with start line `k`, in their order in `s`. */
  function WithStart(s: seq<Change>, k: nat): (r: seq<Change>)
    ensures forall x :: x in r <==> x in s && x.start == k
  {
    if s == [] then []
    else if s[0].start == k then [s[0]] + WithStart(s[1..], k)
    else WithStart(s[1..], k)
  }

  /** Places `c` in front of the first change whose start is not larger than
      its own, so that `c` stays ahead of the changes with an equal start. */
  function Insert(c: Change, s: seq<Change>): (r: seq<Change>)
    ensures |r| == |s| + 1 && multiset(r) == multiset(s) + multiset{c}
    ensures forall x :: x in r <==> x == c || x in s
  {
    if s == [] || c.start >= s[0].start then [c] + s
    else
      assert s == [s[0]] + s[1..];
      [s[0]] + Insert(c, s[1..])
  }

  /** Putting a change in front of a non-increasing list whose starts are
      all at most its own keeps the list non-increasing. */
  lemma ConsNonIncreasing(x: Change, t: seq<Change>)
    requires NonIncreasing(t) && forall y :: y in t ==> y.start <= x.start
    ensures NonIncreasing([x] + t)
  {
    var r := [x] + t;
    forall i, j | 0 <= i < j < |r| ensures r[i].start >= r[j].start {
      assert r[j] == t[j - 1] && r[j] in t;
      if i > 0 {
        assert r[i] == t[i - 1];
      }
    }
  }

  lemma {:induction false} InsertNonIncreasing(c: Change, s: seq<Change>)
    requires NonIncreasing(s)
    ensures NonIncreasing(Insert(c, s))
  {
    if s == [] || c.start >= s[0].start {
      ConsNonIncreasing(c, s);
      if s != [] {
        NonIncreasingTail(s);
      }
    } else {
      NonIncreasingTail(s);
      InsertNonIncreasing(c, s[1..]);
      ConsNonIncreasing(s[0], Insert(c, s[1..]));
    }
  }

  /** The list after the sort: a rearrangement of the changes, by start line
      from the largest down. */
  function SortDesc(cs: seq<Change>): (r: seq<Change>)
    ensures |r| == |cs| && multiset(r) == multiset(cs)
    ensures NonIncreasing(r)
  {
    if cs == [] then []
    else
      assert cs == [cs[0]] + cs[1..];
      InsertNonIncreasing(cs[0], SortDesc(cs[1..]));
      Insert(cs[0], SortDesc(cs[1..]))
  }

  /** Every change survives the sort, and nothing else appears. */
  lemma SortDescSameMembers(cs: seq<Change>)
    ensures forall x :: x in SortDesc(cs) <==> x in cs
  {
    var r := SortDesc(cs);
    forall x ensures x in r <==> x in cs {
      assert x in r <==> x in multiset(r);
      assert x in cs <==> x in multiset(cs);
    }
  }

  lemma {:induction false} InsertStable(c: Change, s: seq<Change>, k: nat)
    requires NonIncreasing(s)
    ensures WithStart(Insert(c, s), k) == (if c.start == k then [c] else []) + WithStart(s, k)
  {
    if s != [] && c.start < s[0].start {
      InsertStable(c, s[1..], k);
      assert ([s[0]] + Insert(c, s[1..]))[1..] == Insert(c, s[1..]);
    }
  }

  /** The sort is stable: changes that share a start line keep their order. */
  lemma {:induction false} SortDescStable(cs: seq<Change>, k: nat)
    ensures WithStart(SortDesc(cs), k) == WithStart(cs, k)
  {
    if cs != [] {
      SortDescStable(cs[1..], k);
      InsertStable(cs[0], SortDesc(cs[1..]), k);
    }
  }

  lemma NonIncreasingTail(s: seq<Change>)
    requires s != [] && NonIncreasing(s)
    ensures NonIncreasing(s[1..])
    ensures forall x :: x in s ==> x.start <= s[0].start
  {
    forall x | x in s ensures x.start <= s[0].start {
      var i :| 0 <= i < |s| && s[i] == x;
    }
  }

  /** In a non-increasing list the changes with the largest start come first. */
  lemma {:induction false} WithStartFront(s: seq<Change>)
    requires s != [] && NonIncreasing(s)
    ensures WithStart(s, s[0].start) == [s[0]] + WithStart(s[1..], s[0].start)
    ensures forall k :: k != s[0].start ==> WithStart(s, k) == WithStart(s[1..], k)
  {
  }

  /** A non-increasing list is pinned down by its runs of equal starts, so
      the stable descending sort has exactly one possible outcome. */
  lemma {:induction false} NonIncreasingUnique(a: seq<Change>, b: seq<Change>)
    requires NonIncreasing(a) && NonIncreasing(b)
    requires forall k: nat :: WithStart(a, k) == WithStart(b, k)
    ensures a == b
  {
    if a == [] {
      assert b == [] || b[0] in WithStart(b, b[0].start);
    } else {
      assert a[0] in WithStart(a, a[0].start);
      assert a[0] in WithStart(b, a[0].start);
      NonIncreasingTail(a);
      NonIncreasingTail(b);
      assert b[0] in WithStart(a, b[0].start);
      assert a[0].start == b[0].start;
      WithStartFront(a);
      WithStartFront(b);
      assert a[0] == b[0] by {
        assert WithStart(a, a[0].start)[0] == a[0];
        assert WithStart(b, b[0].start)[0] == b[0];
      }
      forall k: nat ensures WithStart(a[1..], k) == WithStart(b[1..], k) {
        if k == a[0].start {
          assert WithStart(a[1..], k) == WithStart(a, k)[1..];
          assert WithStart(b[1..], k) == WithStart(b, k)[1..];
        }
      }
      NonIncreasingUnique(a[1..], b[1..]);
      assert a == [a[0]] + a[1..] && b == [b[0]] + b[1..];
    }
  }

  /** `SortDesc` is Python's stable descending sort: any non-increasing list
      that keeps the order among equal starts is this one. */
  lemma SortDescIsTheStableSort(cs: seq<Change>, r: seq<Change>)
    requires NonIncreasing(r)
    requires forall k: nat :: WithStart(r, k) == WithStart(cs, k)
    ensures r == SortDesc(cs)
  {
    forall k: nat ensures WithStart(r, k) == WithStart(SortDesc(cs), k) {
      SortDescStable(cs, k);
    }
    NonIncreasingUnique(r, SortDesc(cs));
  }

  /** Every change before index `j` starts after `c`. */
  predicate StartsAbove(c: Change, s: seq<Change>, j: nat) {
    j <= |s| && forall k :: 0 <= k < j ==> c.start < s[k].start
  }

  /** `Insert` places `c` just before the first change whose start is not
      larger than its own. */
  lemma {:induction false} InsertAt(c: Change, s: seq<Change>, j: nat)
    requires StartsAbove(c, s, j)
    requires j == |s| || c.start >= s[j].start
    ensures Insert(c, s) == s[..j] + [c] + s[j..]
  {
    if j == 0 {
      InsertFront(c, s);
    } else {
      var t := s[1..];
      StartsAboveTail(c, s, j);
      InsertAt(c, t, j - 1);
      InsertPast(c, s, t[..j - 1] + [c] + t[j - 1..]);
      SpliceShift(s, c, j);
    }
  }

  lemma StartsAboveTail(c: Change, s: seq<Change>, j: nat)
    requires StartsAbove(c, s, j) && j > 0
    ensures c.start < s[0].start && StartsAbove(c, s[1..], j - 1)
  {
    assert forall k :: 0 <= k < j - 1 ==> s[1..][k] == s[k + 1];
  }

  lemma SpliceShift(s: seq<Change>, c: Change, j: nat)
    requires 0 < j <= |s|
    ensures [s[0]] + (s[1..][..j - 1] + [c] + s[1..][j - 1..]) == s[..j] + [c] + s[j..]
  {
    assert s[1..][..j - 1] == s[1..j];
    assert s[1..][j - 1..] == s[j..];
    assert s[..j] == [s[0]] + s[1..j];
  }

  lemma InsertFront(c: Change, s: seq<Change>)
    requires s == [] || c.start >= s[0].start
    ensures Insert(c, s) == s[..0] + [c] + s[0..]
  {
    assert s[..0] + [c] + s[0..] == [c] + s;
  }

  lemma InsertPast(c: Change, s: seq<Change>, r: seq<Change>)
    requires s != [] && c.start < s[0].start && Insert(c, s[1..]) == r
    ensures Insert(c, s) == [s[0]] + r
  {
  }

  /** One insertion of the sort: scan for the place of `c`, then put it there. */
  method InsertChange(c: Change, sorted: seq<Change>) returns (r: seq<Change>)
    ensures r == Insert(c, sorted)
  {
    var j := 0;
    while j < |sorted| && c.start < sorted[j].start
      invariant 0 <= j <= |sorted|
      invariant StartsAbove(c, sorted, j)
    {
      j := j + 1;
    }
    InsertAt(c, sorted, j);
    r := sorted[..j] + [c] + sorted[j..];
  }

  /** `changes.sort(key=lambda x: x[0], reverse=True)`, as an insertion sort
      that takes the changes from the back: the list it leaves is the
      unique stable descending order `SortDesc`. */
  method SortChanges(changes: seq<Change>) returns (sorted: seq<Change>)
    ensures sorted == SortDesc(changes)
  {
    sorted := [];
    var i := |changes|;
    while i > 0
      invariant 0 <= i <= |changes|
      invariant sorted == SortDesc(changes[i..])
    {
      i := i - 1;
      assert changes[i..][1..] == changes[i + 1..];
      sorted := InsertChange(changes[i], sorted);
    }
  }
}
