/** Day 2: a report (a row of levels) is safe when it is strictly monotone
    and every step changes the level by 1 to 3; the dampener forgives one
    bad level. */
module Day2 {

  /** The adjacent pairs of a report, as `windows(2)` yields them. */
  function Windows(report: seq<nat>): (w: seq<(nat, nat)>)
    ensures |w| == if |report| < 2 then 0 else |report| - 1
    ensures forall i :: 0 <= i < |w| ==> w[i] == (report[i], report[i + 1])
  {
    if |report| < 2 then [] else [(report[0], report[1])] + Windows(report[1..])
  }

  function AbsDiff(l: nat, r: nat): nat
  {
    if l <= r then r - l else l - r
  }

  predicate AllIncreasing(report: seq<nat>)
  {
    forall w <- Windows(report) :: w.0 < w.1
  }

  predicate AllDecreasing(report: seq<nat>)
  {
    forall w <- Windows(report) :: w.0 > w.1
  }

  predicate Gradual(report: seq<nat>)
  {
    forall w <- Windows(report) :: 1 <= AbsDiff(w.0, w.1) <= 3
  }

  /** The star-1 filter. */
  predicate Safe(report: seq<nat>)
  {
    (AllIncreasing(report) || AllDecreasing(report)) && Gradual(report)
  }

  /** Every window is a pair of adjacent levels, and every pair of adjacent levels is a window. */
  lemma WindowsAreAdjacentPairs(report: seq<nat>, p: (nat, nat))
    ensures p in Windows(report) <==>
      exists i :: 0 <= i < |report| - 1 && p == (report[i], report[i + 1])
  {
    var w := Windows(report);
    if p in w {
      var i :| 0 <= i < |w| && w[i] == p;
      assert 0 <= i < |report| - 1 && p == (report[i], report[i + 1]);
    }
    if exists i :: 0 <= i < |report| - 1 && p == (report[i], report[i + 1]) {
      var i :| 0 <= i < |report| - 1 && p == (report[i], report[i + 1]);
      assert w[i] == p;
    }
  }

  /** Read over adjacent indices, the window predicates say what their names say. */
  lemma IncreasingAdjacent(report: seq<nat>)
    ensures AllIncreasing(report) <==> forall i :: 0 <= i < |report| - 1 ==> report[i] < report[i + 1]
  {
    if AllIncreasing(report) {
      forall i | 0 <= i < |report| - 1 ensures report[i] < report[i + 1] {
        WindowsAreAdjacentPairs(report, (report[i], report[i + 1]));
      }
    } else {
      var p :| p in Windows(report) && !(p.0 < p.1);
      WindowsAreAdjacentPairs(report, p);
    }
  }

  lemma DecreasingAdjacent(report: seq<nat>)
    ensures AllDecreasing(report) <==> forall i :: 0 <= i < |report| - 1 ==> report[i] > report[i + 1]
  {
    if AllDecreasing(report) {
      forall i | 0 <= i < |report| - 1 ensures report[i] > report[i + 1] {
        WindowsAreAdjacentPairs(report, (report[i], report[i + 1]));
      }
    } else {
      var p :| p in Windows(report) && !(p.0 > p.1);
      WindowsAreAdjacentPairs(report, p);
    }
  }

  lemma GradualAdjacent(report: seq<nat>)
    ensures Gradual(report) <==>
      forall i :: 0 <= i < |report| - 1 ==> 1 <= AbsDiff(report[i], report[i + 1]) <= 3
  {
    if Gradual(report) {
      forall i | 0 <= i < |report| - 1 ensures 1 <= AbsDiff(report[i], report[i + 1]) <= 3 {
        WindowsAreAdjacentPairs(report, (report[i], report[i + 1]));
      }
    } else {
      var p :| p in Windows(report) && !(1 <= AbsDiff(p.0, p.1) <= 3);
      WindowsAreAdjacentPairs(report, p);
    }
  }

  /** An increasing report is strictly increasing between any two levels. */
  lemma {:induction false} IncreasingIsStrictlySorted(report: seq<nat>, i: nat, j: nat)
    requires AllIncreasing(report) && i < j < |report|
    ensures report[i] < report[j]
    decreases j - i
  {
    IncreasingAdjacent(report);
    if i + 1 < j {
      IncreasingIsStrictlySorted(report, i + 1, j);
    }
  }

  /** A report with fewer than two levels has no windows and is safe. */
  lemma ShortReportIsSafe(report: seq<nat>)
    requires |report| < 2
    ensures Safe(report)
  {
    assert Windows(report) == [];
  }

  /** The report with level idx deleted, the others kept in order. */
  function Remove(report: seq<nat>, idx: nat): (r: seq<nat>)
    requires idx < |report|
    ensures |r| == |report| - 1
    ensures forall k :: 0 <= k < |r| ==> r[k] == report[if k < idx then k else k + 1]
  {
    report[..idx] + report[idx + 1..]
  }

  /** The star-2 filter, as a specification. */
  ghost predicate Dampened(report: seq<nat>)
  {
    exists idx :: 0 <= idx < |report| && Safe(Remove(report, idx))
  }

  /** Writes the report without level idx into the scratch buffer. */
  method FillWithout(report: seq<nat>, idx: nat, tmp: array<nat>)
    requires idx < |report| && tmp.Length == |report| - 1
    modifies tmp
    ensures tmp[..] == Remove(report, idx)
  {
    var i, j := 0, 0;
    while j < |report|
      invariant 0 <= j <= |report|
      invariant i == if j <= idx then j else j - 1
      invariant forall k :: 0 <= k < i ==> tmp[k] == report[if k < idx then k else k + 1]
    {
      if j != idx {
        tmp[i] := report[j];
        i := i + 1;
      }
      j := j + 1;
    }
  }

  /** Tries each index in turn (`any` stops at the first success). The source
      allocates a buffer of `len - 1` levels, so it demands a nonempty report. */
  method IsDampenedSafe(report: seq<nat>) returns (b: bool)
    requires |report| > 0
    ensures b <==> Dampened(report)
  {
    var tmp := new nat[|report| - 1];
    var idx := 0;
    while idx < |report|
      invariant 0 <= idx <= |report|
      invariant forall k :: 0 <= k < idx ==> !Safe(Remove(report, k))
    {
      FillWithout(report, idx, tmp);
      if Safe(tmp[..]) {
        return true;
      }
      idx := idx + 1;
    }
    return false;
  }

  /** A safe report stays safe without its first level, so the dampener
      accepts every safe report. */
  lemma SafeIsDampened(report: seq<nat>)
    requires |report| > 0 && Safe(report)
    ensures Dampened(report)
  {
    var r := Remove(report, 0);
    GradualAdjacent(report);
    GradualAdjacent(r);
    if AllIncreasing(report) {
      IncreasingAdjacent(report);
      IncreasingAdjacent(r);
    } else {
      DecreasingAdjacent(report);
      DecreasingAdjacent(r);
    }
    assert Safe(r);
  }

  function CountSafe(reports: seq<seq<nat>>): (c: nat)
    ensures c <= |reports|
    ensures c == |reports| <==> forall r <- reports :: Safe(r)
  {
    if |reports| == 0 then 0
    else (if Safe(reports[0]) then 1 else 0) + CountSafe(reports[1..])
  }

  ghost function CountDampened(reports: seq<seq<nat>>): (c: nat)
    ensures c <= |reports|
  {
    if |reports| == 0 then 0
    else (if Dampened(reports[0]) then 1 else 0) + CountDampened(reports[1..])
  }

  /** The star-2 count: every report is tried with the dampener. */
  method CountDampenedSafe(reports: seq<seq<nat>>) returns (count: nat)
    requires forall r <- reports :: |r| > 0
    ensures count == CountDampened(reports)
  {
    count := 0;
    var n := |reports|;
    assert reports[n..] == [];
    while n > 0
      invariant 0 <= n <= |reports|
      invariant count == CountDampened(reports[n..])
    {
      n := n - 1;
      var b := IsDampenedSafe(reports[n]);
      assert reports[n..] == [reports[n]] + reports[n + 1..];
      if b {
        count := count + 1;
      }
    }
    assert reports[0..] == reports;
  }

  /** The dampener accepts at least every report the strict filter accepts. */
  lemma {:induction false} DampenedCountsMore(reports: seq<seq<nat>>)
    requires forall r <- reports :: |r| > 0
    ensures CountSafe(reports) <= CountDampened(reports)
  {
    if |reports| > 0 {
      if Safe(reports[0]) {
        SafeIsDampened(reports[0]);
      }
      assert forall r <- reports[1..] :: r in reports;
      DampenedCountsMore(reports[1..]);
    }
  }
}
