/** Day 12: garden plots. A flood fill splits the map into regions of
    4-connected plots with the same plant, and collects for each region its
    area and the fence pieces around it (src/bin/day12/main.rs, lines 14-66).
    The fence prices are in Day12Sides. */
module Day12 {
  import opened Utils

  /** A grid position as the Rust code keeps it in the perimeter set
      (`(i32, i32)`); off-grid neighbours have coordinate -1 or the size. */
  type Point = (int, int)

  /** A fence piece: an inside plot and the neighbour it is fenced off from. */
  type Fence = (Point, Point)

  /** A snapshot of the plant map: rows x cols plant bytes, row-major. */
  datatype Plot = Plot(cells: seq<byte>, rows: nat, cols: nat)
  {
    ghost predicate Valid()
    {
      |cells| == rows * cols
    }

    ghost predicate Inside(c: Coord)
    {
      c.0 < rows && c.1 < cols
    }

    ghost function At(c: Coord): byte
      requires Valid() && Inside(c)
    {
      LinearInBounds(c, rows, cols);
      cells[Linear(c, cols)]
    }

    /** The neighbour of c in direction d, if it is on the map. */
    ghost function Step(c: Coord, d: Direction): (r: Option<Coord>)
      ensures r.Some? ==> Inside(r.value) && Adjacent(c, r.value)
      ensures r.Some? ==> r.value.0 as int == c.0 + ToVec2(d).0 && r.value.1 as int == c.1 + ToVec2(d).1
      ensures Inside(c) && r.None? ==> !(0 <= c.0 + ToVec2(d).0 < rows && 0 <= c.1 + ToVec2(d).1 < cols)
    {
      DirVec(d).TransformCoord(c, (rows, cols))
    }
  }

  /** The plants a grid holds. */
  ghost function Snapshot(grid: Grid<byte>): (h: Plot)
    reads grid
    ensures grid.Valid() ==> h.Valid()
    ensures h.cells == grid.data && h.rows == grid.rows && h.cols == grid.cols
  {
    Plot(grid.data, grid.rows, grid.cols)
  }

  /** a and b are orthogonal neighbours. */
  predicate Adjacent(a: Coord, b: Coord)
  {
    (a.0 == b.0 && (a.1 + 1 == b.1 || b.1 + 1 == a.1))
    || (a.1 == b.1 && (a.0 + 1 == b.0 || b.0 + 1 == a.0))
  }

  /** The direction in which b neighbours a. */
  lemma DirectionTo(h: Plot, a: Coord, b: Coord) returns (k: nat)
    requires h.Inside(a) && h.Inside(b) && Adjacent(a, b)
    ensures k < 4 && h.Step(a, DIRECTIONS[k]) == Some(b)
  {
    if b.0 + 1 == a.0 {
      k := 0;
    } else if a.0 + 1 == b.0 {
      k := 1;
    } else if b.1 + 1 == a.1 {
      k := 2;
    } else {
      k := 3;
    }
  }

  // ---------------------------------------------------------------------
  // Regions

  /** a and b are neighbouring plots of the same plant. */
  ghost predicate Link(h: Plot, a: Coord, b: Coord)
    requires h.Valid()
  {
    h.Inside(a) && h.Inside(b) && Adjacent(a, b) && h.At(a) == h.At(b)
  }

  /** A walk through plots of one plant, each step to a neighbour. */
  ghost predicate Walk(h: Plot, w: seq<Coord>)
    requires h.Valid()
  {
    |w| > 0 && h.Inside(w[0]) && forall i :: 0 <= i < |w| - 1 ==> Link(h, w[i], w[i + 1])
  }

  ghost predicate Connected(h: Plot, a: Coord, b: Coord)
    requires h.Valid()
  {
    exists w :: Walk(h, w) && w[0] == a && w[|w| - 1] == b
  }

  /** Every link out of P ends in A. */
  ghost predicate LinksInto(h: Plot, P: set<Coord>, A: set<Coord>)
    requires h.Valid()
  {
    forall a, b :: a in P && Link(h, a, b) ==> b in A
  }

  /** The region of s: exactly the plots s is connected to. */
  ghost predicate Component(h: Plot, s: Coord, A: set<Coord>)
    requires h.Valid()
  {
    forall c :: c in A <==> h.Inside(c) && Connected(h, s, c)
  }

  ghost predicate Region(h: Plot, A: set<Coord>)
    requires h.Valid()
  {
    exists s :: s in A && Component(h, s, A)
  }

  lemma ConnectedStart(h: Plot, a: Coord)
    requires h.Valid() && h.Inside(a)
    ensures Connected(h, a, a)
  {
    assert Walk(h, [a]);
  }

  lemma ConnectedExtend(h: Plot, a: Coord, b: Coord, c: Coord)
    requires h.Valid() && Connected(h, a, b) && Link(h, b, c)
    ensures Connected(h, a, c)
  {
    var w :| Walk(h, w) && w[0] == a && w[|w| - 1] == b;
    var w' := w + [c];
    forall i | 0 <= i < |w'| - 1
      ensures Link(h, w'[i], w'[i + 1])
    {
      if i < |w| - 1 {
        assert w'[i] == w[i] && w'[i + 1] == w[i + 1];
      }
    }
    assert Walk(h, w');
  }

  /** A walk that starts in a set closed under links stays in it. */
  lemma {:induction false} WalkStays(h: Plot, S: set<Coord>, w: seq<Coord>, k: nat)
    requires h.Valid() && Walk(h, w) && w[0] in S && LinksInto(h, S, S) && k < |w|
    ensures w[k] in S
    decreases k
  {
    if k > 0 {
      WalkStays(h, S, w, k - 1);
      assert Link(h, w[k - 1], w[k - 1 + 1]);
    }
  }

  /** A set that holds s and is closed under links holds s's region. */
  lemma ConnectedInClosed(h: Plot, S: set<Coord>, s: Coord, c: Coord)
    requires h.Valid() && s in S && LinksInto(h, S, S) && Connected(h, s, c)
    ensures c in S
  {
    var w :| Walk(h, w) && w[0] == s && w[|w| - 1] == c;
    WalkStays(h, S, w, |w| - 1);
  }

  /** A region is closed under links and all its plots share a plant. */
  lemma RegionClosed(h: Plot, A: set<Coord>, a: Coord, b: Coord)
    requires h.Valid() && Region(h, A) && a in A && Link(h, a, b)
    ensures b in A
  {
    var s :| s in A && Component(h, s, A);
    ConnectedExtend(h, s, a, b);
  }

  // ---------------------------------------------------------------------
  // Fence pieces and the plots that become tasks

  /** The perimeter entry for the side of c facing d: c and the position one
      step away, whether or not that is on the map. */
  function FenceOf(c: Coord, d: Direction): Fence
  {
    ((c.0, c.1), (c.0 + ToVec2(d).0, c.1 + ToVec2(d).1))
  }

  /** The off-grid neighbour of an edge plot, as the Rust writes it. */
  function OffGrid(c: Coord, d: Direction, rows: nat, cols: nat): Point
  {
    match d
    case Up => (-1, c.1 as int)
    case Down => (rows as int, c.1 as int)
    case Left => (c.0 as int, -1)
    case Right => (c.0 as int, cols as int)
  }

  /** Off the map, the Rust's neighbour is the position one step away, and it
      lies on the frame around the map. */
  lemma OffGridIsStep(h: Plot, c: Coord, d: Direction)
    requires h.Inside(c) && h.Step(c, d).None?
    ensures FenceOf(c, d).1 == OffGrid(c, d, h.rows, h.cols)
    ensures var p := FenceOf(c, d).1; p.0 == -1 || p.0 == h.rows || p.1 == -1 || p.1 == h.cols
  {
  }

  /** The side of c facing d needs a fence: it faces the edge of the map or
      a different plant. */
  ghost predicate Borders(h: Plot, c: Coord, d: Direction)
    requires h.Valid()
  {
    h.Inside(c) && (h.Step(c, d).None? || h.At(h.Step(c, d).value) != h.At(c))
  }

  ghost function CellFence(h: Plot, c: Coord, d: Direction): set<Fence>
    requires h.Valid()
  {
    if Borders(h, c, d) then {FenceOf(c, d)} else {}
  }

  /** The neighbour of c in direction d when it has c's plant. */
  ghost function SameTarget(h: Plot, c: Coord, d: Direction): set<Coord>
    requires h.Valid()
  {
    if h.Inside(c) && h.Step(c, d).Some? && h.At(h.Step(c, d).value) == h.At(c)
    then {h.Step(c, d).value} else {}
  }

  /** The neighbour of c in direction d when it has another plant and is not
      in V. */
  ghost function OuterTarget(h: Plot, c: Coord, d: Direction, V: set<Coord>): set<Coord>
    requires h.Valid()
  {
    if h.Inside(c) && h.Step(c, d).Some? && h.At(h.Step(c, d).value) != h.At(c) && h.Step(c, d).value !in V
    then {h.Step(c, d).value} else {}
  }

  /** The neighbour of c in direction d when it has c's plant and is not in V. */
  ghost function PushTarget(h: Plot, c: Coord, d: Direction, V: set<Coord>): seq<Coord>
    requires h.Valid()
  {
    if h.Inside(c) && h.Step(c, d).Some? && h.At(h.Step(c, d).value) == h.At(c) && h.Step(c, d).value !in V
    then [h.Step(c, d).value] else []
  }

  /** The fence pieces of c in the first k directions. */
  ghost function CellFences(h: Plot, c: Coord, k: nat): (r: set<Fence>)
    requires h.Valid() && k <= 4
    ensures forall e :: e in r ==> e.0 == (c.0, c.1)
  {
    if k == 0 then {} else CellFences(h, c, k - 1) + CellFence(h, c, DIRECTIONS[k - 1])
  }

  /** The same-plant neighbours of c in the first k directions. */
  ghost function SameTargets(h: Plot, c: Coord, k: nat): (r: set<Coord>)
    requires h.Valid() && k <= 4
    ensures forall n :: n in r ==> Link(h, c, n)
  {
    if k == 0 then {} else SameTargets(h, c, k - 1) + SameTarget(h, c, DIRECTIONS[k - 1])
  }

  /** The other-plant neighbours of c outside V in the first k directions. */
  ghost function CellOuter(h: Plot, c: Coord, k: nat, V: set<Coord>): (r: set<Coord>)
    requires h.Valid() && k <= 4
    ensures forall n :: n in r ==> h.Inside(c) && h.Inside(n) && h.At(n) != h.At(c) && n !in V
  {
    if k == 0 then {} else CellOuter(h, c, k - 1, V) + OuterTarget(h, c, DIRECTIONS[k - 1], V)
  }

  /** The fence pieces around the plots of S. */
  ghost function Fences(h: Plot, S: set<Coord>): set<Fence>
    requires h.Valid()
  {
    set c, e | c in S && e in CellFences(h, c, 4) :: e
  }

  /** The other-plant neighbours of the plots of S that are not in V. */
  ghost function Outer(h: Plot, S: set<Coord>, V: set<Coord>): set<Coord>
    requires h.Valid()
  {
    set c, n | c in S && n in CellOuter(h, c, 4, V) :: n
  }

  lemma FencesAdd(h: Plot, S: set<Coord>, c: Coord)
    requires h.Valid()
    ensures Fences(h, S + {c}) == Fences(h, S) + CellFences(h, c, 4)
  {
  }

  lemma OuterAdd(h: Plot, S: set<Coord>, c: Coord, V: set<Coord>)
    requires h.Valid()
    ensures Outer(h, S + {c}, V) == Outer(h, S, V) + CellOuter(h, c, 4, V)
  {
  }

  /** Every same-plant neighbour among the first k directions is collected. */
  lemma {:induction false} SameTargetsHas(h: Plot, c: Coord, k: nat, j: nat)
    requires h.Valid() && j < k <= 4 && h.Inside(c)
    requires h.Step(c, DIRECTIONS[j]).Some? && h.At(h.Step(c, DIRECTIONS[j]).value) == h.At(c)
    ensures h.Step(c, DIRECTIONS[j]).value in SameTargets(h, c, k)
  {
    if j < k - 1 {
      SameTargetsHas(h, c, k - 1, j);
    }
  }

  lemma {:induction false} CellOuterHas(h: Plot, c: Coord, k: nat, j: nat, V: set<Coord>)
    requires h.Valid() && j < k <= 4 && h.Inside(c)
    requires h.Step(c, DIRECTIONS[j]).Some? && h.At(h.Step(c, DIRECTIONS[j]).value) != h.At(c)
    requires h.Step(c, DIRECTIONS[j]).value !in V
    ensures h.Step(c, DIRECTIONS[j]).value in CellOuter(h, c, k, V)
  {
    if j < k - 1 {
      CellOuterHas(h, c, k - 1, j, V);
    }
  }

  /** The fence pieces of c are exactly its bordering sides among the first
      k directions. */
  lemma {:induction false} CellFencesMeaning(h: Plot, c: Coord, k: nat, e: Fence)
    requires h.Valid() && k <= 4
    ensures e in CellFences(h, c, k) <==> exists j :: 0 <= j < k && Borders(h, c, DIRECTIONS[j]) && e == FenceOf(c, DIRECTIONS[j])
  {
    if k > 0 {
      CellFencesMeaning(h, c, k - 1, e);
      if e in CellFences(h, c, k) && e !in CellFences(h, c, k - 1) {
        assert Borders(h, c, DIRECTIONS[k - 1]) && e == FenceOf(c, DIRECTIONS[k - 1]);
      }
    }
  }

  /** A perimeter entry pairs a plot of S with the position on the other side
      of one of its bordering sides, and every such side is an entry. */
  lemma FencesMeaning(h: Plot, S: set<Coord>, e: Fence)
    requires h.Valid()
    ensures e in Fences(h, S) <==>
      exists c, j :: c in S && 0 <= j < 4 && Borders(h, c, DIRECTIONS[j]) && e == FenceOf(c, DIRECTIONS[j])
  {
    if e in Fences(h, S) {
      var c :| c in S && e in CellFences(h, c, 4);
      CellFencesMeaning(h, c, 4, e);
    }
    if exists c, j :: c in S && 0 <= j < 4 && Borders(h, c, DIRECTIONS[j]) && e == FenceOf(c, DIRECTIONS[j]) {
      var c, j :| c in S && 0 <= j < 4 && Borders(h, c, DIRECTIONS[j]) && e == FenceOf(c, DIRECTIONS[j]);
      CellFencesMeaning(h, c, 4, e);
    }
  }

  // ---------------------------------------------------------------------
  // One neighbour of the current plot

  /** The body of the `for_each` over DIRECTIONS for the plot curr: a
      same-plant neighbour leaves the tasks, joins the area and is pushed if
      unvisited; another plant's neighbour adds a fence piece and becomes a
      task if unvisited; the edge of the map adds a fence piece. */
  method VisitNeighbour(grid: Grid<byte>, ghost h: Plot, plant: byte, curr: Coord, d: Direction,
                        visited: set<Coord>, tasks: set<Coord>, area: set<Coord>,
                        toVisit: seq<Coord>, perimeter: set<Fence>)
    returns (tasks': set<Coord>, area': set<Coord>, toVisit': seq<Coord>, perimeter': set<Fence>)
    requires grid.Valid() && h == Snapshot(grid) && h.Inside(curr) && plant == h.At(curr)
    ensures perimeter' == perimeter + CellFence(h, curr, d)
    ensures area' == area + SameTarget(h, curr, d)
    ensures tasks' == tasks - SameTarget(h, curr, d) + OuterTarget(h, curr, d, visited)
    ensures toVisit' == toVisit + PushTarget(h, curr, d, visited)
  {
    tasks', area', toVisit', perimeter' := tasks, area, toVisit, perimeter;
    match DirVec(d).TransformCoord(curr, grid.Size())
    case Some(n) =>
      LinearInBounds(n, grid.rows, grid.cols);
      if grid.Get(n) == plant {
        tasks' := tasks' - {n};
        area' := area' + {n};
        if n !in visited {
          toVisit' := toVisit' + [n];
        }
      } else {
        perimeter' := perimeter' + {((curr.0, curr.1), (n.0, n.1))};
        if n !in visited {
          tasks' := tasks' + {n};
        }
      }
    case None =>
      OffGridIsStep(h, curr, d);
      perimeter' := perimeter' + {((curr.0, curr.1), OffGrid(curr, d, grid.rows, grid.cols))};
  }

  // ---------------------------------------------------------------------
  // Exploring one region

  /** All plots of the map. */
  ghost function Cells(h: Plot): (r: set<Coord>)
    ensures forall c :: h.Inside(c) ==> c in r
  {
    var r := set i: nat, j: nat | i < h.rows && j < h.cols :: (i, j);
    assert forall c :: h.Inside(c) ==> (c.0, c.1) in r;
    r
  }

  /** Every plot of the area is on the map, has the plant of task and is
      connected to it. */
  ghost predicate Grown(h: Plot, task: Coord, area: set<Coord>)
    requires h.Valid()
  {
    h.Inside(task) && forall c :: c in area ==> h.Inside(c) && h.At(c) == h.At(task) && Connected(h, task, c)
  }

  /** A visited plot on the stack at i has each same-plant neighbour visited
      or above it on the stack. */
  ghost predicate SettledAt(h: Plot, stack: seq<Coord>, visited: set<Coord>, i: nat)
    requires h.Valid() && i < |stack|
  {
    forall n :: Link(h, stack[i], n) ==> n in visited || n in stack[i + 1..]
  }

  ghost predicate Settled(h: Plot, stack: seq<Coord>, visited: set<Coord>)
    requires h.Valid()
  {
    forall i :: 0 <= i < |stack| && stack[i] in visited ==> SettledAt(h, stack, visited, i)
  }

  /** The invariant of the flood fill from task: V0 and T0 are the visited
      plots and the tasks before it. The plots visited by the fill are in the
      area, their links lead into the area, and the area is those plots and
      the stack. The perimeter holds the fence pieces of the plots visited so
      far, and the tasks lost the area and gained the other-plant neighbours
      not visited before. */
  ghost predicate Filling(h: Plot, task: Coord, V0: set<Coord>, T0: set<Coord>, visited: set<Coord>,
                          tasks: set<Coord>, area: set<Coord>, perimeter: set<Fence>, stack: seq<Coord>)
    requires h.Valid()
  {
    Grown(h, task, area) && task in area && area !! V0 && LinksInto(h, V0, V0)
    && V0 <= visited && visited - V0 <= area
    && (forall i :: 0 <= i < |stack| ==> stack[i] in area)
    && (forall c :: c in area ==> c in visited || c in stack)
    && LinksInto(h, visited - V0, area)
    && perimeter == Fences(h, visited - V0)
    && tasks == T0 - area + Outer(h, visited - V0, V0)
    && Settled(h, stack, visited)
  }

  /** The sets after visiting the first k directions of curr, starting
      from tasksB, areaB and perimB. */
  ghost predicate DirSets(h: Plot, curr: Coord, V0: set<Coord>, k: nat, tasksB: set<Coord>, areaB: set<Coord>,
                          perimB: set<Fence>, tasks: set<Coord>, area: set<Coord>, perimeter: set<Fence>)
    requires h.Valid() && k <= 4
  {
    area == areaB + SameTargets(h, curr, k)
    && tasks == tasksB - SameTargets(h, curr, k) + CellOuter(h, curr, k, V0)
    && perimeter == perimB + CellFences(h, curr, k)
  }

  /** The stack after visiting the first k directions of curr, starting from
      base: the same-plant neighbours not yet visited were pushed. */
  ghost predicate DirStack(h: Plot, curr: Coord, visited: set<Coord>, base: seq<Coord>, k: nat, stack: seq<Coord>)
    requires h.Valid() && k <= 4
  {
    |base| <= |stack| && stack[..|base|] == base
    && (forall i :: |base| <= i < |stack| ==> stack[i] in SameTargets(h, curr, k) && stack[i] !in visited)
    && (forall n :: n in SameTargets(h, curr, k) ==> n in visited || n in stack[|base|..])
  }

  /** The plot on top of the stack is in the area. */
  lemma TopInArea(h: Plot, task: Coord, V0: set<Coord>, T0: set<Coord>, visited: set<Coord>,
                  tasks: set<Coord>, area: set<Coord>, perimeter: set<Fence>, base: seq<Coord>, curr: Coord)
    requires h.Valid() && Filling(h, task, V0, T0, visited, tasks, area, perimeter, base + [curr])
    ensures curr in area && h.Inside(curr) && h.At(curr) == h.At(task) && curr !in V0
  {
    assert (base + [curr])[|base|] == curr;
  }

  lemma DirSetsStep(h: Plot, curr: Coord, before: set<Coord>, V0: set<Coord>, k: nat,
                    tasksB: set<Coord>, areaB: set<Coord>, perimB: set<Fence>,
                    tasks: set<Coord>, area: set<Coord>, perimeter: set<Fence>,
                    tasks': set<Coord>, area': set<Coord>, perimeter': set<Fence>)
    requires h.Valid() && k < 4 && h.Inside(curr) && V0 <= before
    requires forall c :: c in before && c !in V0 ==> c in areaB
    requires forall c :: c in areaB ==> h.Inside(c) && h.At(c) == h.At(curr)
    requires DirSets(h, curr, V0, k, tasksB, areaB, perimB, tasks, area, perimeter)
    requires perimeter' == perimeter + CellFence(h, curr, DIRECTIONS[k])
    requires area' == area + SameTarget(h, curr, DIRECTIONS[k])
    requires tasks' == tasks - SameTarget(h, curr, DIRECTIONS[k]) + OuterTarget(h, curr, DIRECTIONS[k], before + {curr})
    ensures DirSets(h, curr, V0, k + 1, tasksB, areaB, perimB, tasks', area', perimeter')
  {
    var d := DIRECTIONS[k];
    assert OuterTarget(h, curr, d, before + {curr}) == OuterTarget(h, curr, d, V0);
    assert SameTarget(h, curr, d) !! CellOuter(h, curr, k, V0);
    TasksShuffle(tasksB, SameTargets(h, curr, k), CellOuter(h, curr, k, V0), SameTarget(h, curr, d), OuterTarget(h, curr, d, V0));
  }

  lemma DirStackStep(h: Plot, curr: Coord, visited: set<Coord>, base: seq<Coord>, k: nat,
                     stack: seq<Coord>, stack': seq<Coord>)
    requires h.Valid() && k < 4
    requires DirStack(h, curr, visited, base, k, stack)
    requires stack' == stack + PushTarget(h, curr, DIRECTIONS[k], visited)
    ensures DirStack(h, curr, visited, base, k + 1, stack')
  {
    assert SameTargets(h, curr, k + 1) == SameTargets(h, curr, k) + SameTarget(h, curr, DIRECTIONS[k]);
    assert stack'[..|base|] == base by {
      assert stack'[..|base|] == stack[..|base|];
    }
    forall i | |base| <= i < |stack'|
      ensures stack'[i] in SameTargets(h, curr, k + 1) && stack'[i] !in visited
    {
      if i < |stack| {
        assert stack'[i] == stack[i];
      }
    }
    forall n | n in SameTargets(h, curr, k + 1)
      ensures n in visited || n in stack'[|base|..]
    {
      if n in SameTargets(h, curr, k) && n !in visited {
        var i :| |base| <= i < |stack| && stack[i] == n by {
          assert n in stack[|base|..];
        }
        assert stack'[i] == n;
      } else if n !in visited {
        assert stack'[|stack|] == n;
      }
    }
  }

  lemma TasksShuffle<T>(A: set<T>, S: set<T>, C: set<T>, S': set<T>, C': set<T>)
    requires S' !! C
    ensures A - S + C - S' + C' == A - (S + S') + (C + C')
  {
  }

  /** Every same-plant neighbour of c is one of its SameTargets. */
  lemma LinkIsTarget(h: Plot, c: Coord, n: Coord)
    requires h.Valid() && Link(h, c, n)
    ensures n in SameTargets(h, c, 4)
  {
    var k := DirectionTo(h, c, n);
    SameTargetsHas(h, c, 4, k);
  }

  /** An other-plant neighbour of c outside V is one of its CellOuter. */
  lemma NeighbourIsOuter(h: Plot, c: Coord, n: Coord, V: set<Coord>)
    requires h.Valid() && h.Inside(c) && h.Inside(n) && Adjacent(c, n) && h.At(n) != h.At(c) && n !in V
    ensures n in CellOuter(h, c, 4, V)
  {
    var k := DirectionTo(h, c, n);
    CellOuterHas(h, c, 4, k, V);
  }

  /** Outer targets have a plant that none of the plots of S has, when all
      of S share a plant. */
  lemma OuterPlant(h: Plot, S: set<Coord>, V: set<Coord>, n: Coord, p: byte)
    requires h.Valid() && n in Outer(h, S, V)
    requires forall c :: c in S ==> h.Inside(c) && h.At(c) == p
    ensures h.Inside(n) && h.At(n) != p && n !in V
  {
    var c :| c in S && n in CellOuter(h, c, 4, V);
  }

  /** The area, the stack and the links after curr's four directions. */
  lemma FillArea(h: Plot, task: Coord, V0: set<Coord>, T0: set<Coord>, before: set<Coord>,
                 curr: Coord, base: seq<Coord>, tasksB: set<Coord>, areaB: set<Coord>,
                 perimB: set<Fence>, area: set<Coord>, stack: seq<Coord>)
    requires h.Valid() && Filling(h, task, V0, T0, before, tasksB, areaB, perimB, base + [curr])
    requires area == areaB + SameTargets(h, curr, 4)
    requires DirStack(h, curr, before + {curr}, base, 4, stack)
    ensures Grown(h, task, area) && area !! V0
    ensures forall i :: 0 <= i < |stack| ==> stack[i] in area
    ensures forall c :: c in area ==> c in before + {curr} || c in stack
    ensures LinksInto(h, before + {curr} - V0, area)
  {
    var S := base + [curr];
    TopInArea(h, task, V0, T0, before, tasksB, areaB, perimB, base, curr);
    forall n | n in SameTargets(h, curr, 4)
      ensures h.At(n) == h.At(task) && Connected(h, task, n) && n !in V0
    {
      ConnectedExtend(h, task, curr, n);
      assert Link(h, n, curr);
    }
    forall i | 0 <= i < |stack|
      ensures stack[i] in area
    {
      if i < |base| {
        assert stack[i] == base[i] == S[i];
      }
    }
    forall c | c in area
      ensures c in before + {curr} || c in stack
    {
      if c in areaB && c !in before && c != curr {
        var j :| 0 <= j < |S| && S[j] == c;
        assert stack[j] == base[j];
      } else if c !in before && c != curr {
        assert c in stack[|base|..];
      }
    }
    forall a, b | a in before + {curr} - V0 && Link(h, a, b)
      ensures b in area
    {
      if a == curr {
        LinkIsTarget(h, curr, b);
      }
    }
  }

  /** The perimeter and the tasks after curr's four directions. */
  lemma FillSets(h: Plot, task: Coord, V0: set<Coord>, T0: set<Coord>, before: set<Coord>,
                 curr: Coord, base: seq<Coord>, tasksB: set<Coord>, areaB: set<Coord>,
                 perimB: set<Fence>, tasks: set<Coord>, area: set<Coord>, perimeter: set<Fence>)
    requires h.Valid() && Filling(h, task, V0, T0, before, tasksB, areaB, perimB, base + [curr])
    requires DirSets(h, curr, V0, 4, tasksB, areaB, perimB, tasks, area, perimeter)
    ensures perimeter == Fences(h, before + {curr} - V0)
    ensures tasks == T0 - area + Outer(h, before + {curr} - V0, V0)
  {
    TopInArea(h, task, V0, T0, before, tasksB, areaB, perimB, base, curr);
    var P := before - V0;
    assert before + {curr} - V0 == P + {curr};
    FencesAdd(h, P, curr);
    OuterAdd(h, P, curr, V0);
    forall n | n in Outer(h, P, V0)
      ensures n !in SameTargets(h, curr, 4)
    {
      OuterPlant(h, P, V0, n, h.At(task));
    }
    TasksShuffle(T0, areaB, Outer(h, P, V0), SameTargets(h, curr, 4), CellOuter(h, curr, 4, V0));
  }

  /** The stack stays settled after curr's four directions, and revisiting a
      plot pushes nothing. */
  lemma FillSettled(h: Plot, curr: Coord, before: set<Coord>, base: seq<Coord>, stack: seq<Coord>)
    requires h.Valid() && Settled(h, base + [curr], before)
    requires DirStack(h, curr, before + {curr}, base, 4, stack)
    ensures Settled(h, stack, before + {curr})
    ensures curr in before ==> stack == base
  {
    var S := base + [curr];
    var visited := before + {curr};
    forall i | 0 <= i < |stack| && stack[i] in visited
      ensures SettledAt(h, stack, visited, i)
    {
      assert i < |base|;
      assert stack[i] == base[i] == S[i];
      forall n | Link(h, stack[i], n)
        ensures n in visited || n in stack[i + 1..]
      {
        if stack[i] in before {
          assert SettledAt(h, S, before, i);
          if n !in visited {
            var j :| i + 1 <= j < |S| && S[j] == n by {
              assert n in S[i + 1..];
            }
            assert stack[j] == n;
          }
        } else {
          LinkIsTarget(h, curr, n);
          if n !in visited {
            var j :| |base| <= j < |stack| && stack[j] == n by {
              assert n in stack[|base|..];
            }
          }
        }
      }
    }
    assert |stack| > |base| ==> stack[|base|] in SameTargets(h, curr, 4) && stack[|base|] !in visited;
    if curr in before {
      assert S[|base|] == curr && S[|base| + 1..] == [];
      assert SettledAt(h, S, before, |base|);
      assert |stack| == |base|;
    }
  }

  lemma FillStep(h: Plot, task: Coord, V0: set<Coord>, T0: set<Coord>, before: set<Coord>,
                 curr: Coord, base: seq<Coord>, tasksB: set<Coord>, areaB: set<Coord>,
                 perimB: set<Fence>, tasks: set<Coord>, area: set<Coord>,
                 perimeter: set<Fence>, stack: seq<Coord>)
    requires h.Valid() && Filling(h, task, V0, T0, before, tasksB, areaB, perimB, base + [curr])
    requires DirSets(h, curr, V0, 4, tasksB, areaB, perimB, tasks, area, perimeter)
    requires DirStack(h, curr, before + {curr}, base, 4, stack)
    ensures Filling(h, task, V0, T0, before + {curr}, tasks, area, perimeter, stack)
    ensures curr in before ==> stack == base
    ensures h.Inside(curr)
  {
    TopInArea(h, task, V0, T0, before, tasksB, areaB, perimB, base, curr);
    FillArea(h, task, V0, T0, before, curr, base, tasksB, areaB, perimB, area, stack);
    FillSets(h, task, V0, T0, before, curr, base, tasksB, areaB, perimB, tasks, area, perimeter);
    FillSettled(h, curr, before, base, stack);
  }

  lemma PopLast<T>(s: seq<T>)
    requires s != []
    ensures s == s[..|s| - 1] + [s[|s| - 1]]
  {
  }

  lemma VisitStart(h: Plot, task: Coord, V0: set<Coord>, T0: set<Coord>, before: set<Coord>,
                   curr: Coord, base: seq<Coord>, tasksB: set<Coord>, areaB: set<Coord>, perimB: set<Fence>)
    requires h.Valid() && Filling(h, task, V0, T0, before, tasksB, areaB, perimB, base + [curr])
    ensures h.Inside(curr) && h.At(curr) == h.At(task) && V0 <= before
    ensures forall c :: c in before && c !in V0 ==> c in areaB
    ensures forall c :: c in areaB ==> h.Inside(c) && h.At(c) == h.At(curr)
  {
    TopInArea(h, task, V0, T0, before, tasksB, areaB, perimB, base, curr);
  }

  lemma CellsShrink(h: Plot, before: set<Coord>, curr: Coord)
    requires h.Inside(curr) && curr !in before
    ensures Cells(h) - (before + {curr}) < Cells(h) - before
  {
    assert curr in Cells(h) - before;
  }

  lemma VisitShrinks(h: Plot, visited: set<Coord>, curr: Coord, base: seq<Coord>, stack: seq<Coord>)
    requires h.Inside(curr) && (curr in visited ==> stack == base)
    ensures Cells(h) - (visited + {curr}) < Cells(h) - visited || (visited + {curr} == visited && |stack| < |base| + 1)
  {
    if curr !in visited {
      CellsShrink(h, visited, curr);
    }
  }

  /** With the stack empty, the area is the region of task. */
  lemma FillDone(h: Plot, task: Coord, V0: set<Coord>, T0: set<Coord>, visited: set<Coord>,
                 tasks: set<Coord>, area: set<Coord>, perimeter: set<Fence>)
    requires h.Valid() && Filling(h, task, V0, T0, visited, tasks, area, perimeter, [])
    ensures visited - V0 == area && visited == V0 + area && area !! V0 && task in area
    ensures Component(h, task, area)
    ensures forall c :: c in area ==> h.At(c) == h.At(task)
    ensures perimeter == Fences(h, area)
    ensures tasks == T0 - area + Outer(h, area, V0)
  {
    assert visited - V0 == area;
    forall c | h.Inside(c) && Connected(h, task, c)
      ensures c in area
    {
      ConnectedInClosed(h, area, task, c);
    }
  }

  /** The `for_each` over DIRECTIONS (lines 30-63) for the plot curr, just
      marked visited; before are the plots visited until then. */
  method VisitNeighbours(grid: Grid<byte>, ghost h: Plot, plant: byte, curr: Coord, ghost V0: set<Coord>,
                         before: set<Coord>, tasks: set<Coord>, area: set<Coord>,
                         perimeter: set<Fence>, toVisit: seq<Coord>)
    returns (tasks': set<Coord>, area': set<Coord>, perimeter': set<Fence>, toVisit': seq<Coord>)
    requires grid.Valid() && h == Snapshot(grid) && h.Inside(curr) && plant == h.At(curr) && V0 <= before
    requires forall c :: c in before && c !in V0 ==> c in area
    requires forall c :: c in area ==> h.Inside(c) && h.At(c) == h.At(curr)
    ensures DirSets(h, curr, V0, 4, tasks, area, perimeter, tasks', area', perimeter')
    ensures DirStack(h, curr, before + {curr}, toVisit, 4, toVisit')
  {
    tasks', area', perimeter', toVisit' := tasks, area, perimeter, toVisit;
    for k := 0 to 4
      invariant DirSets(h, curr, V0, k, tasks, area, perimeter, tasks', area', perimeter')
      invariant DirStack(h, curr, before + {curr}, toVisit, k, toVisit')
    {
      var t, a, s, p := VisitNeighbour(grid, h, plant, curr, DIRECTIONS[k], before + {curr}, tasks', area', toVisit', perimeter');
      DirSetsStep(h, curr, before, V0, k, tasks, area, perimeter, tasks', area', perimeter', t, a, p);
      DirStackStep(h, curr, before + {curr}, toVisit, k, toVisit', s);
      tasks', area', toVisit', perimeter' := t, a, s, p;
    }
  }

  /** One turn of the `while let Some(curr) = to_visit.pop()` loop: pop a
      plot, mark it visited and visit its four neighbours. A plot visited
      before pushes nothing, so either an unvisited plot gets visited or the
      stack shrinks. */
  method VisitPlot(grid: Grid<byte>, ghost h: Plot, plant: byte, ghost task: Coord, ghost V0: set<Coord>,
                   ghost T0: set<Coord>, visited: set<Coord>, tasks: set<Coord>, area: set<Coord>,
                   perimeter: set<Fence>, toVisit: seq<Coord>)
    returns (visited': set<Coord>, tasks': set<Coord>, area': set<Coord>, perimeter': set<Fence>,
             toVisit': seq<Coord>)
    requires grid.Valid() && h == Snapshot(grid) && toVisit != []
    requires Filling(h, task, V0, T0, visited, tasks, area, perimeter, toVisit) && plant == h.At(task)
    ensures Filling(h, task, V0, T0, visited', tasks', area', perimeter', toVisit')
    ensures Cells(h) - visited' < Cells(h) - visited || (visited' == visited && |toVisit'| < |toVisit|)
  {
    ghost var base := toVisit[..|toVisit| - 1];
    var curr := toVisit[|toVisit| - 1];
    PopLast(toVisit);
    toVisit' := toVisit[..|toVisit| - 1];
    visited' := visited + {curr};
    VisitStart(h, task, V0, T0, visited, curr, base, tasks, area, perimeter);
    tasks', area', perimeter', toVisit' :=
      VisitNeighbours(grid, h, plant, curr, V0, visited, tasks, area, perimeter, toVisit');
    FillStep(h, task, V0, T0, visited, curr, base, tasks, area, perimeter,
             tasks', area', perimeter', toVisit');
    VisitShrinks(h, visited, curr, base, toVisit');
  }

  /** The body of the outer loop for one task (lines 21-64): a flood fill
      from task with a stack, over the plots not visited before. visited0
      and tasks0 are the visited plots and the remaining tasks. The area
      is the region of task, none of it was visited before, the perimeter
      holds its fence pieces, and the tasks lose the area and gain the
      other-plant neighbours of the area that were not visited. */
  method ExploreRegion(grid: Grid<byte>, ghost h: Plot, task: Coord, visited0: set<Coord>, tasks0: set<Coord>)
    returns (visited: set<Coord>, tasks: set<Coord>, area: set<Coord>, perimeter: set<Fence>)
    requires grid.Valid() && h == Snapshot(grid) && h.Inside(task) && task !in visited0 && task !in tasks0
    requires LinksInto(h, visited0, visited0)
    ensures task in area && Component(h, task, area) && area !! visited0 && visited == visited0 + area
    ensures forall c :: c in area ==> h.At(c) == h.At(task)
    ensures perimeter == Fences(h, area)
    ensures tasks == tasks0 - area + Outer(h, area, visited0)
  {
    LinearInBounds(task, grid.rows, grid.cols);
    var plant := grid.Get(task);
    var toVisit := [task];
    perimeter := {};
    area := {task};
    visited, tasks := visited0, tasks0;
    ConnectedStart(h, task);
    assert Fences(h, {}) == {} && Outer(h, {}, visited0) == {};
    while toVisit != []
      invariant Filling(h, task, visited0, tasks0, visited, tasks, area, perimeter, toVisit)
      decreases Cells(h) - visited, |toVisit|
    {
      visited, tasks, area, perimeter, toVisit :=
        VisitPlot(grid, h, plant, task, visited0, tasks0, visited, tasks, area, perimeter, toVisit);
    }
    FillDone(h, task, visited0, tasks0, visited, tasks, area, perimeter);
  }

  // ---------------------------------------------------------------------
  // All regions

  /** A region and its fence pieces, as `find_gardens` collects them. */
  datatype Garden = Garden(area: set<Coord>, perimeter: set<Fence>)

  /** Each garden is a region with its fence pieces. */
  ghost predicate Fenced(h: Plot, gardens: seq<Garden>)
    requires h.Valid()
  {
    forall i :: 0 <= i < |gardens| ==> Region(h, gardens[i].area) && gardens[i].perimeter == Fences(h, gardens[i].area)
  }

  /** The gardens split the map: each is a region with its fence pieces, no
      two share a plot and every plot is in one. */
  ghost predicate Charted(h: Plot, gardens: seq<Garden>)
    requires h.Valid()
  {
    Fenced(h, gardens)
    && (forall i, j :: 0 <= i < j < |gardens| ==> gardens[i].area !! gardens[j].area)
    && (forall c :: h.Inside(c) ==> exists i :: 0 <= i < |gardens| && c in gardens[i].area)
  }

  /** `BTreeSet` order on coordinates: lexicographic. */
  predicate LexLe(a: Coord, b: Coord)
  {
    a.0 < b.0 || (a.0 == b.0 && a.1 <= b.1)
  }

  lemma {:induction false} LeastExists(s: set<Coord>) returns (m: Coord)
    requires s != {}
    ensures m in s && forall u :: u in s ==> LexLe(m, u)
    decreases |s|
  {
    var x :| x in s;
    if s == {x} {
      m := x;
    } else {
      var m' := LeastExists(s - {x});
      m := if LexLe(x, m') then x else m';
      forall u | u in s
        ensures LexLe(m, u)
      {
        if u != x {
          assert LexLe(m', u);
        }
      }
    }
  }

  /** `pop_first`: takes the least coordinate out of the set. */
  method PopFirst(tasks: set<Coord>) returns (task: Coord, rest: set<Coord>)
    requires tasks != {}
    ensures task in tasks && rest == tasks - {task}
    ensures forall u :: u in tasks ==> LexLe(task, u)
  {
    ghost var m := LeastExists(tasks);
    task :| task in tasks && forall u | u in tasks :: LexLe(task, u);
    rest := tasks - {task};
  }

  /** The plots of all the gardens. */
  ghost function Areas(gardens: seq<Garden>): set<Coord>
  {
    if gardens == [] then {} else Areas(gardens[..|gardens| - 1]) + gardens[|gardens| - 1].area
  }

  lemma {:induction false} AreasMeaning(gardens: seq<Garden>, c: Coord)
    ensures c in Areas(gardens) <==> exists i :: 0 <= i < |gardens| && c in gardens[i].area
  {
    if gardens != [] {
      var init := gardens[..|gardens| - 1];
      AreasMeaning(init, c);
      if exists i :: 0 <= i < |init| && c in init[i].area {
        var i :| 0 <= i < |init| && c in init[i].area;
        assert gardens[i] == init[i];
      }
      if exists i :: 0 <= i < |gardens| && c in gardens[i].area {
        var i :| 0 <= i < |gardens| && c in gardens[i].area;
        if i < |init| {
          assert gardens[i] == init[i];
        }
      }
    }
  }

  /** The invariant of the outer loop: the gardens are regions with their
      fence pieces and do not overlap; the visited plots are their areas and
      are closed under links; the tasks are unvisited plots, and every
      neighbour of a visited plot is visited or a task; (0, 0) was reached. */
  ghost predicate Surveyed(h: Plot, visited: set<Coord>, tasks: set<Coord>, gardens: seq<Garden>)
    requires h.Valid()
  {
    visited == Areas(gardens)
    && (forall i :: 0 <= i < |gardens| ==> Region(h, gardens[i].area) && gardens[i].perimeter == Fences(h, gardens[i].area))
    && (forall i, j :: 0 <= i < j < |gardens| ==> gardens[i].area !! gardens[j].area)
    && (forall c :: c in visited ==> h.Inside(c))
    && LinksInto(h, visited, visited)
    && (forall t :: t in tasks ==> h.Inside(t) && t !in visited)
    && (forall a, n :: a in visited && h.Inside(n) && Adjacent(a, n) ==> n in visited || n in tasks)
    && ((0, 0) in visited || (0, 0) in tasks)
  }

  lemma SurveyGardens(h: Plot, visited: set<Coord>, gardens: seq<Garden>, task: Coord, area: set<Coord>,
                      perimeter: set<Fence>)
    requires h.Valid() && visited == Areas(gardens)
    requires forall i :: 0 <= i < |gardens| ==> Region(h, gardens[i].area) && gardens[i].perimeter == Fences(h, gardens[i].area)
    requires forall i, j :: 0 <= i < j < |gardens| ==> gardens[i].area !! gardens[j].area
    requires task in area && Component(h, task, area) && area !! visited && perimeter == Fences(h, area)
    ensures var gardens' := gardens + [Garden(area, perimeter)];
      visited + area == Areas(gardens')
      && (forall i :: 0 <= i < |gardens'| ==> Region(h, gardens'[i].area) && gardens'[i].perimeter == Fences(h, gardens'[i].area))
      && (forall i, j :: 0 <= i < j < |gardens'| ==> gardens'[i].area !! gardens'[j].area)
  {
    var gardens' := gardens + [Garden(area, perimeter)];
    assert gardens'[..|gardens|] == gardens;
    forall i | 0 <= i < |gardens|
      ensures gardens[i].area !! area
    {
      forall c | c in gardens[i].area
        ensures c in visited
      {
        AreasMeaning(gardens, c);
      }
    }
  }

  lemma SurveyStep(h: Plot, visited: set<Coord>, tasks: set<Coord>, gardens: seq<Garden>, task: Coord,
                   area: set<Coord>, perimeter: set<Fence>, tasks': set<Coord>)
    requires h.Valid() && Surveyed(h, visited, tasks, gardens) && task in tasks && task in area
    requires Component(h, task, area) && area !! visited && perimeter == Fences(h, area)
    requires forall c :: c in area ==> h.At(c) == h.At(task)
    requires tasks' == tasks - {task} - area + Outer(h, area, visited)
    ensures Surveyed(h, visited + area, tasks', gardens + [Garden(area, perimeter)])
  {
    SurveyGardens(h, visited, gardens, task, area, perimeter);
    var visited' := visited + area;
    assert LinksInto(h, area, area) by {
      forall a, b | a in area && Link(h, a, b)
        ensures b in area
      {
        ConnectedExtend(h, task, a, b);
      }
    }
    forall t | t in Outer(h, area, visited)
      ensures h.Inside(t) && t !in visited'
    {
      OuterPlant(h, area, visited, t, h.At(task));
    }
    forall a, n | a in visited' && h.Inside(n) && Adjacent(a, n)
      ensures n in visited' || n in tasks'
    {
      if a in area && n !in visited' {
        if h.At(n) == h.At(a) {
          assert Link(h, a, n);
        } else {
          NeighbourIsOuter(h, a, n, visited);
        }
      }
    }
  }

  /** A plot set that holds (0, 0) and every on-map neighbour of its plots
      holds the whole map. */
  lemma GridCovered(h: Plot, S: set<Coord>, c: Coord)
    requires (0, 0) in S && h.Inside(c)
    requires forall a, n :: a in S && h.Inside(n) && Adjacent(a, n) ==> n in S
    ensures c in S
  {
    FirstColumnCovered(h, S, c.0);
    RowCovered(h, S, c.0, c.1);
  }

  lemma {:induction false} FirstColumnCovered(h: Plot, S: set<Coord>, r: nat)
    requires (0, 0) in S && r < h.rows && h.cols > 0
    requires forall a, n :: a in S && h.Inside(n) && Adjacent(a, n) ==> n in S
    ensures (r, 0) in S
  {
    if r > 0 {
      FirstColumnCovered(h, S, r - 1);
      assert Adjacent((r - 1, 0), (r, 0));
    }
  }

  lemma {:induction false} RowCovered(h: Plot, S: set<Coord>, r: nat, c: nat)
    requires (r, 0) in S && r < h.rows && c < h.cols
    requires forall a, n :: a in S && h.Inside(n) && Adjacent(a, n) ==> n in S
    ensures (r, c) in S
  {
    if c > 0 {
      RowCovered(h, S, r, c - 1);
      assert Adjacent((r, c - 1), (r, c));
    }
  }

  /** `find_gardens` (lines 14-66), returning the gardens: each is a region
      of the map with exactly its fence pieces, no two overlap, and together
      they cover every plot. */
  method FindGardens(grid: Grid<byte>) returns (gardens: seq<Garden>)
    requires grid.Valid() && grid.rows > 0 && grid.cols > 0
    ensures Charted(Snapshot(grid), gardens)
  {
    ghost var h := Snapshot(grid);
    gardens := [];
    var visited: set<Coord> := {};
    var tasks: set<Coord> := {(0, 0)};
    while tasks != {}
      invariant Surveyed(h, visited, tasks, gardens)
      decreases Cells(h) - visited
    {
      var task, rest := PopFirst(tasks);
      var visited', tasks', area, perimeter := ExploreRegion(grid, h, task, visited, rest);
      SurveyStep(h, visited, tasks, gardens, task, area, perimeter, tasks');
      CellsShrink(h, visited, task);
      gardens := gardens + [Garden(area, perimeter)];
      visited, tasks := visited', tasks';
    }
    forall c | h.Inside(c)
      ensures exists i :: 0 <= i < |gardens| && c in gardens[i].area
    {
      GridCovered(h, visited, c);
      AreasMeaning(gardens, c);
    }
  }
}
