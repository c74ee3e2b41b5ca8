/** Day 10: hiking trails on a topographic map of digit heights. A trail
    starts at height 0 and climbs by exactly one at every orthogonal step
    up to height 9 (src/bin/day10/main.rs). */
module Day10 {
  import opened Utils

  /** A snapshot of the height grid: rows x cols heights, row-major. */
  datatype Heights = Heights(cells: seq<byte>, rows: nat, cols: nat)
  {
    ghost predicate Valid()
    {
      |cells| == rows * cols
    }

    ghost predicate Inside(c: Coord)
    {
      c.0 < rows && c.1 < cols
    }

    ghost function At(c: Coord): byte
      requires Valid() && Inside(c)
    {
      LinearInBounds(c, rows, cols);
      cells[Linear(c, cols)]
    }
  }

  /** The heights a grid holds. */
  ghost function Snapshot(grid: Grid<byte>): (h: Heights)
    reads grid
    ensures grid.Valid() ==> h.Valid()
    ensures h.cells == grid.data && h.rows == grid.rows && h.cols == grid.cols
  {
    Heights(grid.data, grid.rows, grid.cols)
  }

  /** a and b are orthogonal neighbours. */
  predicate Orthogonal(a: Coord, b: Coord)
  {
    (a.0 == b.0 && (a.1 + 1 == b.1 || b.1 + 1 == a.1))
    || (a.1 == b.1 && (a.0 + 1 == b.0 || b.0 + 1 == a.0))
  }

  /** From position i on, t stays on the map and climbs by one per
      orthogonal step. */
  ghost predicate Climbs(h: Heights, t: seq<Coord>, i: nat)
    requires h.Valid()
  {
    (forall j :: i <= j < |t| ==> h.Inside(t[j]))
    && (forall j :: i <= j < |t| - 1 ==>
          Orthogonal(t[j], t[j + 1]) && h.At(t[j + 1]) as int == h.At(t[j]) as int + 1)
  }

  /** A hiking trail from the trailhead s: it starts at s, every cell i of
      it has height i, consecutive cells are orthogonal neighbours, and it
      ends at height 9. */
  ghost predicate HikingTrail(h: Heights, s: Coord, t: seq<Coord>)
    requires h.Valid()
  {
    |t| == 10 && t[0] == s
    && (forall j :: 0 <= j < |t| ==> h.Inside(t[j]) && h.At(t[j]) as int == j)
    && (forall j :: 0 <= j < |t| - 1 ==> Orthogonal(t[j], t[j + 1]))
  }

  /** A trailhead: a cell of height 0. */
  ghost predicate Trailhead(h: Heights, s: Coord)
    requires h.Valid()
  {
    h.Inside(s) && h.At(s) == 0
  }

  /** A partial trail as the worklist holds it: its last cell is on the
      map and below height 9. */
  ghost predicate Partial(h: Heights, w: seq<Coord>)
    requires h.Valid()
  {
    |w| > 0 && h.Inside(w[|w| - 1]) && h.At(w[|w| - 1]) < 9
  }

  /** t completes the partial trail w: it extends w, climbs from w's last
      cell on, and ends at height 9. */
  ghost predicate Completes(h: Heights, w: seq<Coord>, t: seq<Coord>)
    requires h.Valid()
  {
    0 < |w| < |t| && t[..|w|] == w && Climbs(h, t, |w| - 1) && h.At(t[|t| - 1]) == 9
  }

  /** The neighbour of w's last cell in direction d, when it is on the map
      and one higher. */
  ghost function Child(h: Heights, w: seq<Coord>, d: Direction): (r: Option<Coord>)
    requires h.Valid() && Partial(h, w)
    ensures r.Some? ==> h.Inside(r.value) && Orthogonal(w[|w| - 1], r.value)
    ensures r.Some? ==> h.At(r.value) as int == h.At(w[|w| - 1]) as int + 1
  {
    var n := DirVec(d).TransformCoord(w[|w| - 1], (h.rows, h.cols));
    if n.Some? && h.At(n.value) as int == h.At(w[|w| - 1]) as int + 1 then n else None
  }

  /** The complete trails the worklist search reaches from w: the search
      tree below w, its leaves being the trails that reach height 9. */
  ghost function Complete(h: Heights, w: seq<Coord>): multiset<seq<Coord>>
    requires h.Valid() && Partial(h, w)
    decreases 9 - h.At(w[|w| - 1]), 5
  {
    CompleteFrom(h, w, 0)
  }

  /** The trails below w through the directions DIRECTIONS[k..]. */
  ghost function CompleteFrom(h: Heights, w: seq<Coord>, k: nat): multiset<seq<Coord>>
    requires h.Valid() && Partial(h, w) && k <= 4
    decreases 9 - h.At(w[|w| - 1]), 4 - k
  {
    if k == 4 then multiset{} else Branch(h, w, DIRECTIONS[k]) + CompleteFrom(h, w, k + 1)
  }

  /** The trails below w through direction d. */
  ghost function Branch(h: Heights, w: seq<Coord>, d: Direction): multiset<seq<Coord>>
    requires h.Valid() && Partial(h, w)
    decreases 9 - h.At(w[|w| - 1]), 0
  {
    match Child(h, w, d)
    case None => multiset{}
    case Some(n) => if h.At(n) == 9 then multiset{w + [n]} else Complete(h, w + [n])
  }

  /** The number of partial trails the search pops at and below w. */
  ghost function Nodes(h: Heights, w: seq<Coord>): nat
    requires h.Valid() && Partial(h, w)
    decreases 9 - h.At(w[|w| - 1]), 5
  {
    1 + NodesFrom(h, w, 0)
  }

  ghost function NodesFrom(h: Heights, w: seq<Coord>, k: nat): nat
    requires h.Valid() && Partial(h, w) && k <= 4
    decreases 9 - h.At(w[|w| - 1]), 4 - k
  {
    if k == 4 then 0 else BranchNodes(h, w, DIRECTIONS[k]) + NodesFrom(h, w, k + 1)
  }

  ghost function BranchNodes(h: Heights, w: seq<Coord>, d: Direction): nat
    requires h.Valid() && Partial(h, w)
    decreases 9 - h.At(w[|w| - 1]), 0
  {
    match Child(h, w, d)
    case None => 0
    case Some(n) => if h.At(n) == 9 then 0 else Nodes(h, w + [n])
  }

  /** The trails below every partial trail of a worklist. */
  ghost function Pending(h: Heights, ws: seq<seq<Coord>>): multiset<seq<Coord>>
    requires h.Valid() && forall i :: 0 <= i < |ws| ==> Partial(h, ws[i])
  {
    if |ws| == 0 then multiset{} else Complete(h, ws[0]) + Pending(h, ws[1..])
  }

  ghost function PendingNodes(h: Heights, ws: seq<seq<Coord>>): nat
    requires h.Valid() && forall i :: 0 <= i < |ws| ==> Partial(h, ws[i])
  {
    if |ws| == 0 then 0 else Nodes(h, ws[0]) + PendingNodes(h, ws[1..])
  }

  // ---------------------------------------------------------------------
  // What the search tree holds

  /** Heights along a climbing path grow by one per step. */
  lemma {:induction false} ClimbHeight(h: Heights, t: seq<Coord>, i: nat, j: nat)
    requires h.Valid() && Climbs(h, t, i) && i <= j < |t|
    ensures h.At(t[j]) as int == h.At(t[i]) as int + (j - i)
    decreases j - i
  {
    if j > i {
      ClimbHeight(h, t, i, j - 1);
    }
  }

  /** Where direction d from w's last cell leads, as an Orthogonal step. */
  lemma DirectionOf(h: Heights, a: Coord, b: Coord) returns (k: nat)
    requires h.Valid() && h.Inside(a) && h.Inside(b) && Orthogonal(a, b)
    ensures k < 4 && DirVec(DIRECTIONS[k]).TransformCoord(a, (h.rows, h.cols)) == Some(b)
  {
    if b.0 + 1 == a.0 {
      k := 0;
    } else if a.0 + 1 == b.0 {
      k := 1;
    } else if b.1 + 1 == a.1 {
      k := 2;
    } else {
      k := 3;
    }
  }

  /** Different directions lead to different children. */
  lemma ChildrenDiffer(h: Heights, w: seq<Coord>, i: nat, j: nat)
    requires h.Valid() && Partial(h, w) && i < j < 4
    requires Child(h, w, DIRECTIONS[i]).Some? && Child(h, w, DIRECTIONS[j]).Some?
    ensures Child(h, w, DIRECTIONS[i]).value != Child(h, w, DIRECTIONS[j]).value
  {
  }

  /** A trail stepping from w to a higher neighbour n and completing
      w + [n] completes w. */
  lemma StepCompletes(h: Heights, w: seq<Coord>, n: Coord, t: seq<Coord>)
    requires h.Valid() && Partial(h, w) && h.Inside(n) && Orthogonal(w[|w| - 1], n)
    requires h.At(n) as int == h.At(w[|w| - 1]) as int + 1
    requires t == w + [n] || Completes(h, w + [n], t)
    requires t == w + [n] ==> h.At(n) == 9
    ensures Completes(h, w, t)
  {
    var w' := w + [n];
    assert t[..|w'|] == w';
    assert t[..|w|] == t[..|w'|][..|w|];
    assert t[|w| - 1] == w[|w| - 1] && t[|w|] == n;
  }

  /** Every trail below w through DIRECTIONS[k..] completes w. */
  lemma {:induction false} CompleteSound(h: Heights, w: seq<Coord>, t: seq<Coord>, k: nat)
    requires h.Valid() && Partial(h, w) && k <= 4 && t in CompleteFrom(h, w, k)
    ensures Completes(h, w, t)
    decreases 9 - h.At(w[|w| - 1]), 4 - k
  {
    assert k < 4;
    var d := DIRECTIONS[k];
    if t in Branch(h, w, d) {
      var n := Child(h, w, d).value;
      if h.At(n) != 9 {
        assert t in Complete(h, w + [n]);
        CompleteSound(h, w + [n], t, 0);
      }
      StepCompletes(h, w, n, t);
    } else {
      CompleteSound(h, w, t, k + 1);
    }
  }

  /** A trail below w through DIRECTIONS[k..] continues w with the child
      of one of those directions. */
  lemma {:induction false} CompleteHead(h: Heights, w: seq<Coord>, t: seq<Coord>, k: nat) returns (j: nat)
    requires h.Valid() && Partial(h, w) && k <= 4 && t in CompleteFrom(h, w, k)
    ensures k <= j < 4 && |w| < |t| && Child(h, w, DIRECTIONS[j]) == Some(t[|w|])
    decreases 4 - k
  {
    if t in Branch(h, w, DIRECTIONS[k]) {
      BranchHead(h, w, t, k);
      j := k;
    } else {
      j := CompleteHead(h, w, t, k + 1);
    }
  }

  /** Branch d of w lies inside the search through DIRECTIONS[k..] when d
      is DIRECTIONS[j] for some j >= k. */
  lemma {:induction false} BranchInside(h: Heights, w: seq<Coord>, t: seq<Coord>, k: nat, j: nat)
    requires h.Valid() && Partial(h, w) && k <= j < 4 && t in Branch(h, w, DIRECTIONS[j])
    ensures t in CompleteFrom(h, w, k)
    decreases j - k
  {
    if k < j {
      BranchInside(h, w, t, k + 1, j);
    }
  }

  /** Every completion of w is found below w. */
  lemma {:induction false} CompleteComplete(h: Heights, w: seq<Coord>, t: seq<Coord>)
    requires h.Valid() && Partial(h, w) && Completes(h, w, t)
    ensures t in Complete(h, w)
    decreases 9 - h.At(w[|w| - 1])
  {
    var a := w[|w| - 1];
    assert t[|w| - 1] == a;
    var n := t[|w|];
    var k := DirectionOf(h, a, n);
    assert Child(h, w, DIRECTIONS[k]) == Some(n);
    var w' := w + [n];
    assert t[..|w'|] == w';
    ClimbHeight(h, t, |w|, |t| - 1);
    if h.At(n) == 9 {
      assert t == w';
    } else {
      assert Climbs(h, t, |w'| - 1);
      CompleteComplete(h, w', t);
    }
    BranchInside(h, w, t, 0, k);
  }

  /** The search reaches no trail twice. */
  lemma {:induction false} CompleteOnce(h: Heights, w: seq<Coord>, t: seq<Coord>, k: nat)
    requires h.Valid() && Partial(h, w) && k <= 4
    ensures CompleteFrom(h, w, k)[t] <= 1
    decreases 9 - h.At(w[|w| - 1]), 4 - k
  {
    if k < 4 {
      CompleteOnce(h, w, t, k + 1);
      BranchOnce(h, w, t, k);
      BranchesDisjoint(h, w, t, k);
    }
  }

  lemma {:induction false} BranchOnce(h: Heights, w: seq<Coord>, t: seq<Coord>, k: nat)
    requires h.Valid() && Partial(h, w) && k < 4
    ensures Branch(h, w, DIRECTIONS[k])[t] <= 1
    decreases 9 - h.At(w[|w| - 1]), 0
  {
    var d := DIRECTIONS[k];
    if Child(h, w, d).Some? {
      var n := Child(h, w, d).value;
      if h.At(n) != 9 {
        CompleteOnce(h, w + [n], t, 0);
        assert Branch(h, w, d) == CompleteFrom(h, w + [n], 0);
      }
    }
  }

  /** No trail lies below two different directions of w. */
  lemma BranchesDisjoint(h: Heights, w: seq<Coord>, t: seq<Coord>, k: nat)
    requires h.Valid() && Partial(h, w) && k < 4
    ensures !(t in Branch(h, w, DIRECTIONS[k]) && t in CompleteFrom(h, w, k + 1))
  {
    if t in Branch(h, w, DIRECTIONS[k]) && t in CompleteFrom(h, w, k + 1) {
      var j := CompleteHead(h, w, t, k + 1);
      BranchHead(h, w, t, k);
      ChildrenDiffer(h, w, k, j);
      assert false;
    }
  }

  /** A trail of branch k starts its extension with that branch's child. */
  lemma BranchHead(h: Heights, w: seq<Coord>, t: seq<Coord>, k: nat)
    requires h.Valid() && Partial(h, w) && k < 4 && t in Branch(h, w, DIRECTIONS[k])
    ensures |w| < |t| && Child(h, w, DIRECTIONS[k]) == Some(t[|w|])
  {
    var n := Child(h, w, DIRECTIONS[k]).value;
    if h.At(n) != 9 {
      CompleteSound(h, w + [n], t, 0);
      assert t[|w|] == t[..|w| + 1][|w|];
    }
  }

  /** From a trailhead, the search finds exactly the hiking trails, each
      once. */
  lemma TrailheadSearch(h: Heights, s: Coord, t: seq<Coord>)
    requires h.Valid() && h.Inside(s) && h.At(s) == 0
    ensures Partial(h, [s])
    ensures t in Complete(h, [s]) <==> HikingTrail(h, s, t)
    ensures Complete(h, [s])[t] <= 1
  {
    CompleteOnce(h, [s], t, 0);
    if t in Complete(h, [s]) {
      CompleteSound(h, [s], t, 0);
      assert t[0] == t[..1][0];
      forall j | 0 <= j < |t|
        ensures h.At(t[j]) as int == j
      {
        ClimbHeight(h, t, 0, j);
      }
      ClimbHeight(h, t, 0, |t| - 1);
    }
    if HikingTrail(h, s, t) {
      assert t[..1] == [s];
      CompleteComplete(h, [s], t);
    }
  }

  // ---------------------------------------------------------------------
  // `calculate_trails`

  /** The trailheads, in row-major order: the cells of height 0 at
      positions p.. of the row-major data. */
  function ZerosFrom(cells: seq<byte>, cols: nat, p: nat): (r: seq<Coord>)
    requires 0 < cols && p <= |cells|
    ensures forall i :: 0 <= i < |r| ==> r[i].1 < cols && p <= Linear(r[i], cols) < |cells| && cells[Linear(r[i], cols)] == 0
    ensures forall q :: p <= q < |cells| && cells[q] == 0 ==> CoordAt(q, cols) in r
    decreases |cells| - p
  {
    if p == |cells| then []
    else
      var rest := ZerosFrom(cells, cols, p + 1);
      assert Linear(CoordAt(p, cols), cols) == p;
      if cells[p] == 0 then [CoordAt(p, cols)] + rest else rest
  }

  /** The cells of height 0, which `calculate_trails` explores from. */
  function TrailHeads(grid: Grid<byte>): (r: seq<Coord>)
    reads grid
    requires grid.Valid()
    ensures forall c :: c in r <==> Trailhead(Snapshot(grid), c)
  {
    if grid.cols == 0 then []
    else
      var r := ZerosFrom(grid.data, grid.cols, 0);
      assert forall c :: c in r ==> Snapshot(grid).Inside(c) by {
        forall c | c in r
          ensures Snapshot(grid).Inside(c)
        {
          LinearBelowSize(c, grid.rows, grid.cols);
        }
      }
      assert forall c :: Trailhead(Snapshot(grid), c) ==> c in r by {
        forall c | Trailhead(Snapshot(grid), c)
          ensures c in r
        {
          LinearInBounds(c, grid.rows, grid.cols);
        }
      }
      r
  }

  /** The worklist search from one trailhead (lines 15-37): partial trails
      are popped from the front, and each one-higher neighbour, in the
      order of DIRECTIONS, either completes a trail at height 9 or is
      pushed to the front. The trails found are exactly the search tree's
      leaves. */
  method Explore(grid: Grid<byte>, start: Coord) returns (trails: seq<seq<Coord>>)
    requires grid.Valid() && Trailhead(Snapshot(grid), start)
    ensures Partial(Snapshot(grid), [start])
    ensures multiset(trails) == Complete(Snapshot(grid), [start])
  {
    ghost var h := Snapshot(grid);
    ghost var total := Complete(h, [start]);
    var partialTrails: seq<seq<Coord>> := [[start]];
    trails := [];
    assert Pending(h, partialTrails) == total;
    while |partialTrails| > 0
      invariant forall i :: 0 <= i < |partialTrails| ==> Partial(h, partialTrails[i])
      invariant multiset(trails) + Pending(h, partialTrails) == total
      decreases PendingNodes(h, partialTrails)
    {
      var trail := partialTrails[0];
      ghost var before := PendingNodes(h, partialTrails);
      partialTrails := partialTrails[1..];
      trails, partialTrails := ExpandTrail(grid, h, trail, trails, partialTrails, total);
      assert PendingNodes(h, partialTrails) < before;
    }
  }

  /** The state of the `for dir in DIRECTIONS` loop on trail after k
      directions: what is still to be found is the work list's trails and
      those below directions k.., and a node count that falls. */
  ghost predicate DirLoop(h: Heights, trail: seq<Coord>, k: nat, trails: seq<seq<Coord>>, work: seq<seq<Coord>>,
                          total: multiset<seq<Coord>>, nodes: nat)
    requires h.Valid()
  {
    Partial(h, trail) && k <= 4
    && (forall i :: 0 <= i < |work| ==> Partial(h, work[i]))
    && multiset(trails) + Pending(h, work) + CompleteFrom(h, trail, k) == total
    && PendingNodes(h, work) + NodesFrom(h, trail, k) == nodes
  }

  /** One pop of the worklist: the `for dir in DIRECTIONS` loop on trail. */
  method ExpandTrail(grid: Grid<byte>, ghost h: Heights, trail: seq<Coord>, trails0: seq<seq<Coord>>,
                     work0: seq<seq<Coord>>, ghost total: multiset<seq<Coord>>)
    returns (trails: seq<seq<Coord>>, work: seq<seq<Coord>>)
    requires grid.Valid() && h == Snapshot(grid)
    requires Partial(h, trail) && forall i :: 0 <= i < |work0| ==> Partial(h, work0[i])
    requires multiset(trails0) + Pending(h, work0) + Complete(h, trail) == total
    ensures forall i :: 0 <= i < |work| ==> Partial(h, work[i])
    ensures multiset(trails) + Pending(h, work) == total
    ensures PendingNodes(h, work) < PendingNodes(h, work0) + Nodes(h, trail)
  {
    trails, work := trails0, work0;
    var curr := trail[|trail| - 1];
    LinearInBounds(curr, grid.rows, grid.cols);
    var height := grid.Get(curr);
    ghost var nodes := PendingNodes(h, work0) + NodesFrom(h, trail, 0);
    for k := 0 to 4
      invariant DirLoop(h, trail, k, trails, work, total, nodes)
    {
      trails, work := ExpandDir(grid, h, trail, height, k, trails, work, total, nodes);
    }
  }

  /** One direction of the loop on trail: a one-higher neighbour completes
      a trail at height 9 or is pushed to the front of the work list. */
  method ExpandDir(grid: Grid<byte>, ghost h: Heights, trail: seq<Coord>, height: byte, k: nat,
                   trails0: seq<seq<Coord>>, work0: seq<seq<Coord>>, ghost total: multiset<seq<Coord>>, ghost nodes: nat)
    returns (trails: seq<seq<Coord>>, work: seq<seq<Coord>>)
    requires grid.Valid() && h == Snapshot(grid) && k < 4
    requires DirLoop(h, trail, k, trails0, work0, total, nodes) && height == h.At(trail[|trail| - 1])
    ensures DirLoop(h, trail, k + 1, trails, work, total, nodes)
  {
    trails, work := trails0, work0;
    var curr := trail[|trail| - 1];
    var dir := DIRECTIONS[k];
    assert CompleteFrom(h, trail, k) == Branch(h, trail, dir) + CompleteFrom(h, trail, k + 1);
    assert NodesFrom(h, trail, k) == BranchNodes(h, trail, dir) + NodesFrom(h, trail, k + 1);
    var neighbour := DirVec(dir).TransformCoord(curr, grid.Size());
    if neighbour.Some? {
      var n := neighbour.value;
      LinearInBounds(n, grid.rows, grid.cols);
      var c := grid.Get(n);
      if c as int == height as int + 1 {
        assert Child(h, trail, dir) == Some(n);
        var t := trail + [n];
        if c == 9 {
          trails := trails + [t];
        } else {
          assert ([t] + work)[1..] == work;
          work := [t] + work;
        }
      }
    }
  }

  /** Every entry of m holds the trails the search finds from its key. */
  ghost predicate Explored(h: Heights, m: map<Coord, seq<seq<Coord>>>)
    requires h.Valid()
  {
    forall s :: s in m ==> Partial(h, [s]) && multiset(m[s]) == Complete(h, [s])
  }

  /** `calculate_trails`: for every trailhead, the trails found from it. */
  method CalculateTrails(grid: Grid<byte>) returns (m: map<Coord, seq<seq<Coord>>>)
    requires grid.Valid()
    ensures forall s :: s in m <==> Trailhead(Snapshot(grid), s)
    ensures Explored(Snapshot(grid), m)
  {
    ghost var h := Snapshot(grid);
    var zeros := TrailHeads(grid);
    m := map[];
    for i := 0 to |zeros|
      invariant forall s :: s in m <==> s in zeros[..i]
      invariant Explored(h, m)
    {
      var start := zeros[i];
      var trails := Explore(grid, start);
      m := m[start := trails];
      assert zeros[..i + 1] == zeros[..i] + [start];
    }
    assert zeros[..|zeros|] == zeros;
  }

  // ---------------------------------------------------------------------
  // The two stars

  /** The distinct end cells of a list of trails. */
  function Peaks(trails: seq<seq<Coord>>): set<Coord>
  {
    set i | 0 <= i < |trails| && |trails[i]| > 0 :: trails[i][|trails[i]| - 1]
  }

  /** A trailhead's score: how many peaks its trails reach. */
  function Score(trails: seq<seq<Coord>>): nat
  {
    |Peaks(trails)|
  }

  /** A trailhead's rating: how many trails start there. */
  function Rating(trails: seq<seq<Coord>>): nat
  {
    |trails|
  }

  /** Some key of a nonempty map: the entry the iteration visits first. */
  ghost function Pick(m: map<Coord, seq<seq<Coord>>>): (s: Coord)
    requires |m| > 0
    ensures s in m
  {
    var s :| s in m; s
  }

  /** The sum of f over the entries of m, in an unspecified iteration order. */
  ghost function SumEntries(m: map<Coord, seq<seq<Coord>>>, f: seq<seq<Coord>> -> nat): nat
    decreases |m|
  {
    if |m| == 0 then 0
    else
      var s := Pick(m);
      f(m[s]) + SumEntries(m - {s}, f)
  }

  /** `first_star`: the sum of the trailheads' scores. */
  ghost function FirstStar(m: map<Coord, seq<seq<Coord>>>): nat
  {
    SumEntries(m, Score)
  }

  /** `second_star`: the sum of the trailheads' ratings. */
  ghost function SecondStar(m: map<Coord, seq<seq<Coord>>>): nat
  {
    SumEntries(m, Rating)
  }

  /** A list of trails reaches no more peaks than it has trails. */
  lemma {:induction false} ScoreAtMostRating(trails: seq<seq<Coord>>)
    ensures Score(trails) <= Rating(trails)
  {
    if |trails| > 0 {
      var init := trails[..|trails| - 1];
      ScoreAtMostRating(init);
      var last := trails[|trails| - 1];
      var top: set<Coord> := if |last| > 0 then {last[|last| - 1]} else {};
      assert Peaks(trails) <= Peaks(init) + top by {
        forall p | p in Peaks(trails)
          ensures p in Peaks(init) + top
        {
          var i :| 0 <= i < |trails| && |trails[i]| > 0 && p == trails[i][|trails[i]| - 1];
          if i < |trails| - 1 {
            assert trails[i] == init[i];
          }
        }
      }
      assert |Peaks(init) + top| <= |Peaks(init)| + 1;
      SubsetCard(Peaks(trails), Peaks(init) + top);
    }
  }

  /** A bound on every entry bounds the sums. */
  lemma {:induction false} SumEntriesMono(m: map<Coord, seq<seq<Coord>>>, f: seq<seq<Coord>> -> nat, g: seq<seq<Coord>> -> nat)
    requires forall s :: s in m ==> f(m[s]) <= g(m[s])
    ensures SumEntries(m, f) <= SumEntries(m, g)
    decreases |m|
  {
    if |m| > 0 {
      var s := Pick(m);
      SumEntriesMono(m - {s}, f, g);
    }
  }

  /** The first star never exceeds the second. */
  lemma FirstStarAtMostSecond(m: map<Coord, seq<seq<Coord>>>)
    ensures FirstStar(m) <= SecondStar(m)
  {
    forall s | s in m
      ensures Score(m[s]) <= Rating(m[s])
    {
      ScoreAtMostRating(m[s]);
    }
    SumEntriesMono(m, Score, Rating);
  }

  /** An entry of `calculate_trails` holds exactly the hiking trails from
      its trailhead, each once, so its rating counts them. */
  lemma ExploredTrails(h: Heights, m: map<Coord, seq<seq<Coord>>>, s: Coord)
    requires h.Valid() && Explored(h, m) && s in m && Trailhead(h, s)
    ensures forall t :: t in m[s] <==> HikingTrail(h, s, t)
    ensures forall i, j :: 0 <= i < j < |m[s]| ==> m[s][i] != m[s][j]
  {
    var ts := m[s];
    forall t
      ensures t in ts <==> HikingTrail(h, s, t)
      ensures multiset(ts)[t] <= 1
    {
      TrailheadSearch(h, s, t);
    }
    forall i, j | 0 <= i < j < |ts|
      ensures ts[i] != ts[j]
    {
      if ts[i] == ts[j] {
        TwiceInList(ts, i, j);
        assert false;
      }
    }
  }

  /** The peaks of an entry are exactly the height-9 cells that some
      hiking trail from its trailhead reaches. */
  lemma ExploredPeaks(h: Heights, m: map<Coord, seq<seq<Coord>>>, s: Coord, p: Coord)
    requires h.Valid() && Explored(h, m) && s in m && Trailhead(h, s)
    ensures p in Peaks(m[s]) <==> exists t :: HikingTrail(h, s, t) && t[9] == p
  {
    var ts := m[s];
    if p in Peaks(ts) {
      var i :| 0 <= i < |ts| && |ts[i]| > 0 && p == ts[i][|ts[i]| - 1];
      TrailheadSearch(h, s, ts[i]);
    }
    if exists t :: HikingTrail(h, s, t) && t[9] == p {
      var t :| HikingTrail(h, s, t) && t[9] == p;
      TrailheadSearch(h, s, t);
      var i :| 0 <= i < |ts| && ts[i] == t;
      assert p in Peaks(ts);
    }
  }

  lemma SubsetCard<T>(a: set<T>, b: set<T>)
    requires a <= b
    ensures |a| <= |b|
  {
    assert b == a + (b - a);
  }

  /** An element at two positions of a list occurs twice in its multiset. */
  lemma TwiceInList<T>(ts: seq<T>, i: nat, j: nat)
    requires i < j < |ts| && ts[i] == ts[j]
    ensures multiset(ts)[ts[i]] >= 2
  {
    assert ts == ts[..j] + ts[j..];
    assert ts[i] in ts[..j];
    assert ts[j] in ts[j..];
  }
}
