/** Day 1: two columns of location ids are sorted, paired smallest with
    smallest, and the distances of the pairs are added up. */
module Day1 {

  ghost predicate Sorted(s: seq<nat>)
  {
    forall i, j :: 0 <= i < j < |s| ==> s[i] <= s[j]
  }

  /** The distance between two ids (`u32::abs_diff`). */
  function AbsDiff(l: nat, r: nat): (d: nat)
    ensures d == 0 <==> l == r
    ensures l + d == r || r + d == l
  {
    if l <= r then r - l else l - r
  }

  /** The zipped sum of distances; zipping stops at the shorter column. */
  function TotalDistance(left: seq<nat>, right: seq<nat>): (t: nat)
    ensures t == 0 <==> forall i :: 0 <= i < |left| && i < |right| ==> left[i] == right[i]
  {
    if |left| == 0 || |right| == 0 then 0
    else AbsDiff(left[0], right[0]) + TotalDistance(left[1..], right[1..])
  }

  lemma {:induction false} TotalDistanceSymmetric(left: seq<nat>, right: seq<nat>)
    ensures TotalDistance(left, right) == TotalDistance(right, left)
  {
    if |left| > 0 && |right| > 0 {
      TotalDistanceSymmetric(left[1..], right[1..]);
      assert AbsDiff(left[0], right[0]) == AbsDiff(right[0], left[0]);
    }
  }

  /** Sorting a column in place: ascending, and the same multiset of ids. */
  method Sort(a: array<nat>)
    modifies a
    ensures Sorted(a[..])
    ensures multiset(a[..]) == multiset(old(a[..]))
  {
    var i := 0;
    while i < a.Length
      invariant 0 <= i <= a.Length
      invariant Sorted(a[..i])
      invariant multiset(a[..]) == multiset(old(a[..]))
    {
      InsertAt(a, i);
      i := i + 1;
    }
  }

  /** Moves a[i] left into the sorted prefix a[..i]. */
  method InsertAt(a: array<nat>, i: nat)
    requires i < a.Length && Sorted(a[..i])
    modifies a
    ensures Sorted(a[..i + 1])
    ensures multiset(a[..]) == multiset(old(a[..]))
  {
    var j := i;
    while j > 0 && a[j - 1] > a[j]
      invariant 0 <= j <= i
      invariant forall k, l :: 0 <= k < l <= i && k != j && l != j ==> a[k] <= a[l]
      invariant forall l :: j < l <= i ==> a[j] < a[l]
      invariant multiset(a[..]) == multiset(old(a[..]))
    {
      a[j - 1], a[j] := a[j], a[j - 1];
      j := j - 1;
    }
  }

  /** The first element of a sorted sequence is below everything in it. */
  lemma SortedFirstIsLeast(s: seq<nat>, x: nat)
    requires Sorted(s) && x in multiset(s)
    ensures |s| > 0 && s[0] <= x
  {
    var i :| 0 <= i < |s| && s[i] == x;
  }

  /** Removing the first element keeps a sequence sorted and removes one
      occurrence of it from the multiset. */
  lemma SplitFirst(s: seq<nat>)
    requires Sorted(s) && |s| > 0
    ensures Sorted(s[1..])
    ensures multiset(s) == multiset{s[0]} + multiset(s[1..])
  {
    assert s == [s[0]] + s[1..];
  }

  /** A sorted arrangement of a multiset is unique. */
  lemma {:induction false} SortedUnique(a: seq<nat>, b: seq<nat>)
    requires Sorted(a) && Sorted(b) && multiset(a) == multiset(b)
    ensures a == b
  {
    if |a| == 0 {
      assert |b| == |multiset(b)| == 0;
    } else {
      assert a[0] in multiset(a);
      SortedFirstIsLeast(b, a[0]);
      SortedFirstIsLeast(a, b[0]);
      SplitFirst(a);
      SplitFirst(b);
      assert a[0] == b[0];
      assert multiset(a[1..]) == multiset(a) - multiset{a[0]} == multiset(b[1..]);
      SortedUnique(a[1..], b[1..]);
    }
  }

  /** The lifted body of `main`: sort both columns, then sum the distances. */
  method TotalListDistance(left: array<nat>, right: array<nat>) returns (total: nat)
    requires left != right
    modifies left, right
    ensures Sorted(left[..]) && multiset(left[..]) == multiset(old(left[..]))
    ensures Sorted(right[..]) && multiset(right[..]) == multiset(old(right[..]))
    ensures total == TotalDistance(left[..], right[..])
  {
    Sort(left);
    Sort(right);
    total := TotalDistance(left[..], right[..]);
  }

  /** The answer depends only on the multisets of the two columns, not on
      the order in which the ids were read. */
  lemma OrderIndependent(left1: seq<nat>, right1: seq<nat>, left2: seq<nat>, right2: seq<nat>)
    requires Sorted(left1) && Sorted(left2) && multiset(left1) == multiset(left2)
    requires Sorted(right1) && Sorted(right2) && multiset(right1) == multiset(right2)
    ensures TotalDistance(left1, right1) == TotalDistance(left2, right2)
  {
    SortedUnique(left1, left2);
    SortedUnique(right1, right2);
  }
}
