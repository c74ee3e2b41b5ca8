/** Day 6: a guard walks a grid, going straight until an obstacle is ahead
    and then turning right; the walk either leaves the grid or repeats a
    state and loops forever (src/bin/day6/main.rs). The file declares its
    own copies of Grid and Direction; the model uses the shared Direction
    and keeps the grid's cells, rows and columns in the World class. */
module Day6 {
  import opened Utils

  // ---------------------------------------------------------------------
  // Directions and moves

  /** `rotate_ccw`: despite its name, a clockwise quarter turn in (row,
      column) coordinates, where rows grow downwards. */
  function RotateCcw(d: Direction): (r: Direction)
    ensures ToVec2(r).0 == ToVec2(d).1 && ToVec2(r).1 == -ToVec2(d).0
  {
    match d
    case Up => Right
    case Down => Left
    case Left => Up
    case Right => Down
  }

  /** Four turns make a full circle, and no turn keeps the direction. */
  lemma RotateFourTimes(d: Direction)
    ensures RotateCcw(RotateCcw(RotateCcw(RotateCcw(d)))) == d
    ensures RotateCcw(d) != d && RotateCcw(RotateCcw(d)) == Opposite(d)
  {
  }

  /** The bound a move in direction d subtracts one from, which must be
      positive for the source's `bounds - 1` not to underflow. */
  predicate MoveDefined(d: Direction, bounds: (nat, nat))
  {
    (d == Down ==> 0 < bounds.0) && (d == Right ==> 0 < bounds.1)
  }

  /** `move_point`: the neighbouring cell in direction d, or None at the
      edge of [0, bounds.0) x [0, bounds.1) in that direction. */
  function MovePoint(d: Direction, point: Coord, bounds: (nat, nat)): (r: Option<Coord>)
    requires MoveDefined(d, bounds)
    ensures r.Some? ==> r.value.0 as int == point.0 + ToVec2(d).0 && r.value.1 as int == point.1 + ToVec2(d).1
    ensures point.0 < bounds.0 && point.1 < bounds.1 ==>
              (r.Some? <==> 0 <= point.0 + ToVec2(d).0 < bounds.0 && 0 <= point.1 + ToVec2(d).1 < bounds.1)
  {
    match d
    case Up => if point.0 == 0 then None else Some((point.0 - 1, point.1))
    case Down => if point.0 == bounds.0 - 1 then None else Some((point.0 + 1, point.1))
    case Left => if point.1 == 0 then None else Some((point.0, point.1 - 1))
    case Right => if point.1 == bounds.1 - 1 then None else Some((point.0, point.1 + 1))
  }

  /** Inside the grid, `move_point` agrees with the shared `transform_coord`. */
  lemma MovePointIsTransform(d: Direction, point: Coord, bounds: (nat, nat))
    requires point.0 < bounds.0 && point.1 < bounds.1
    ensures MoveDefined(d, bounds) && MovePoint(d, point, bounds) == DirVec(d).TransformCoord(point, bounds)
  {
  }

  // ---------------------------------------------------------------------
  // Cells

  /** A cell: empty (with a visited mark), an obstacle, or the guard. */
  datatype Entity = Empty(visited: bool) | Object | Guard(dir: Direction)

  /** `from_ascii`: the cell a map character stands for; None for the
      characters the source declares unreachable. */
  function FromAscii(c: byte): (r: Option<Entity>)
    ensures r.Some? <==> c in {'.' as byte, 'X' as byte, '#' as byte, '^' as byte, 'v' as byte, '<' as byte, '>' as byte}
  {
    if c == '.' as byte then Some(Empty(false))
    else if c == 'X' as byte then Some(Empty(true))
    else if c == '#' as byte then Some(Object)
    else if c == '^' as byte then Some(Guard(Up))
    else if c == 'v' as byte then Some(Guard(Down))
    else if c == '<' as byte then Some(Guard(Left))
    else if c == '>' as byte then Some(Guard(Right))
    else None
  }

  /** `to_ascii`: the map character of a cell. */
  function ToAscii(e: Entity): byte
  {
    match e
    case Empty(visited) => if visited then 'X' as byte else '.' as byte
    case Object => '#' as byte
    case Guard(d) =>
      match d
      case Up => '^' as byte
      case Down => 'v' as byte
      case Left => '<' as byte
      case Right => '>' as byte
  }

  /** The two conversions are inverse: every cell survives printing and
      parsing, and every parsable character survives parsing and printing. */
  lemma AsciiRoundTrip(e: Entity, c: byte)
    ensures FromAscii(ToAscii(e)) == Some(e)
    ensures FromAscii(c).Some? ==> ToAscii(FromAscii(c).value) == c
  {
  }

  // ---------------------------------------------------------------------
  // The guard's route

  /** A guard state: a position and a heading. */
  type State = (Coord, Direction)

  /** A snapshot of the grid: rows x cols cells, row-major. */
  datatype Board = Board(cells: seq<Entity>, rows: nat, cols: nat)
  {
    ghost predicate Valid()
    {
      |cells| == rows * cols
    }

    ghost predicate Inside(c: Coord)
    {
      c.0 < rows && c.1 < cols
    }

    /** The cell at c holds an obstacle. */
    ghost predicate Blocked(c: Coord)
      requires Valid() && Inside(c)
    {
      Cell(c) == Object
    }

    /** The board with cell c set to e. */
    ghost function Put(c: Coord, e: Entity): (r: Board)
      requires Valid() && Inside(c)
      ensures r.Valid() && r.rows == rows && r.cols == cols
    {
      LinearInBounds(c, rows, cols);
      Board(cells[Linear(c, cols) := e], rows, cols)
    }

    /** The cell at c. */
    ghost function Cell(c: Coord): Entity
      requires Valid() && Inside(c)
    {
      LinearInBounds(c, rows, cols);
      cells[Linear(c, cols)]
    }
  }

  /** The guard's rule as one step: None when the move leaves the grid; a
      right turn in place when an obstacle is ahead; otherwise one step
      forwards. */
  ghost function Step(b: Board, s: State): (r: Option<State>)
    requires b.Valid() && b.Inside(s.0)
    ensures r.Some? ==> b.Inside(r.value.0)
  {
    match MovePoint(s.1, s.0, (b.rows, b.cols))
    case None => None
    case Some(q) => if b.Blocked(q) then Some((s.0, RotateCcw(s.1))) else Some((q, s.1))
  }

  /** path is the guard's route from s, state by state. */
  ghost predicate Trajectory(b: Board, s: State, path: seq<State>)
    requires b.Valid()
  {
    |path| > 0 && path[0] == s && b.Inside(s.0)
    && (forall i :: 0 <= i < |path| - 1 ==> b.Inside(path[i].0) && Step(b, path[i]) == Some(path[i + 1]))
  }

  /** The guard's route from s leaves the grid: path is all of it. */
  ghost predicate LeavesBy(b: Board, s: State, path: seq<State>)
    requires b.Valid()
  {
    Trajectory(b, s, path) && b.Inside(path[|path| - 1].0) && Step(b, path[|path| - 1]) == None
  }

  ghost predicate Leaves(b: Board, s: State)
    requires b.Valid()
  {
    exists path :: LeavesBy(b, s, path)
  }

  /** The guard's route from s comes back to a state it was in. */
  ghost predicate Loops(b: Board, s: State)
    requires b.Valid()
  {
    exists path, i, j :: Trajectory(b, s, path) && 0 <= i < j < |path| && path[i] == path[j]
  }

  /** Trajectories from one state agree wherever both are defined: the
      guard's rule is deterministic. */
  lemma {:induction false} TrajectoriesAgree(b: Board, s: State, p: seq<State>, q: seq<State>, k: nat)
    requires b.Valid() && Trajectory(b, s, p) && Trajectory(b, s, q) && k < |p| && k < |q|
    ensures p[k] == q[k]
  {
    if k > 0 {
      TrajectoriesAgree(b, s, p, q, k - 1);
    }
  }

  /** After a repeated state, a trajectory repeats with the same period. */
  lemma {:induction false} TrajectoryPeriodic(b: Board, s: State, q: seq<State>, i: nat, j: nat, t: nat)
    requires b.Valid() && Trajectory(b, s, q) && i < j && j + t < |q| && q[i] == q[j]
    ensures q[i + t] == q[j + t]
  {
    if t > 0 {
      TrajectoryPeriodic(b, s, q, i, j, t - 1);
    }
  }

  lemma TrajectoryStep(b: Board, s: State, p: seq<State>, k: nat)
    requires b.Valid() && Trajectory(b, s, p) && k + 1 < |p|
    ensures b.Inside(p[k].0) && Step(b, p[k]) == Some(p[k + 1])
  {
  }

  /** No route both leaves the grid and loops. */
  lemma LoopsOrLeaves(b: Board, s: State)
    requires b.Valid()
    ensures !(Loops(b, s) && Leaves(b, s))
  {
    if Loops(b, s) && Leaves(b, s) {
      var p, i, j :| Trajectory(b, s, p) && 0 <= i < j < |p| && p[i] == p[j];
      var q :| LeavesBy(b, s, q);
      var last := |q| - 1;
      if last < j {
        TrajectoriesAgree(b, s, p, q, last);
        TrajectoryStep(b, s, p, last);
      } else {
        TrajectoriesAgree(b, s, p, q, i);
        TrajectoriesAgree(b, s, p, q, j);
        var t := last - j;
        TrajectoryPeriodic(b, s, q, i, j, t);
        TrajectoryStep(b, s, q, i + t);
      }
      assert false;
    }
  }

  /** A route that leaves the grid repeats no state on its way. */
  lemma LeavingRouteIsSimple(b: Board, s: State, path: seq<State>)
    requires b.Valid() && LeavesBy(b, s, path)
    ensures forall i, j :: 0 <= i < j < |path| ==> path[i] != path[j]
  {
    forall i, j | 0 <= i < j < |path|
      ensures path[i] != path[j]
    {
      if path[i] == path[j] {
        assert Loops(b, s);
        LoopsOrLeaves(b, s);
        assert false;
      }
    }
  }

  /** A route followed by the route from where its last step leads is a
      route. */
  lemma TrajectoryAppend(b: Board, s: State, p: seq<State>, q: seq<State>)
    requires b.Valid() && Trajectory(b, s, p) && b.Inside(p[|p| - 1].0)
    requires |q| > 0 && Trajectory(b, q[0], q) && Step(b, p[|p| - 1]) == Some(q[0])
    ensures Trajectory(b, s, p + q)
  {
    var pq := p + q;
    forall i | 0 <= i < |pq| - 1
      ensures b.Inside(pq[i].0) && Step(b, pq[i]) == Some(pq[i + 1])
    {
      if i < |p| - 1 {
      } else if i == |p| - 1 {
      } else {
        assert pq[i] == q[i - |p|] && pq[i + 1] == q[i - |p| + 1];
      }
    }
  }

  /** seg is a route from s along which the guard never turns, ending on
      the grid. */
  ghost predicate Straight(b: Board, s: State, seg: seq<State>)
    requires b.Valid()
  {
    Trajectory(b, s, seg) && b.Inside(seg[|seg| - 1].0)
    && forall k :: 0 <= k < |seg| ==> seg[k].1 == s.1
  }

  lemma StraightExtend(b: Board, s: State, seg: seq<State>, st: State)
    requires b.Valid() && b.Inside(st.0) && st.1 == s.1
    requires |seg| == 0 ==> st == s
    requires |seg| > 0 ==> Straight(b, s, seg) && Step(b, seg[|seg| - 1]) == Some(st)
    ensures Straight(b, s, seg + [st])
  {
    if |seg| > 0 {
      TrajectoryAppend(b, s, seg, [st]);
    }
  }

  // ---------------------------------------------------------------------
  // Bounding the number of guard states

  function DirIndex(d: Direction): nat
  {
    match d
    case Up => 0
    case Down => 1
    case Left => 2
    case Right => 3
  }

  /** A number for every state of a rows x cols grid, below 4 * rows * cols. */
  function Code(st: State, cols: nat): nat
  {
    4 * Linear(st.0, cols) + DirIndex(st.1)
  }

  lemma CodeBounds(st: State, rows: nat, cols: nat)
    requires st.0.0 < rows && st.0.1 < cols
    ensures Code(st, cols) < 4 * rows * cols
  {
    LinearInBounds(st.0, rows, cols);
    assert 4 * rows * cols == 4 * (rows * cols);
  }

  lemma CodeInjective(x: State, y: State, rows: nat, cols: nat)
    requires x.0.0 < rows && x.0.1 < cols && y.0.0 < rows && y.0.1 < cols
    requires Code(x, cols) == Code(y, cols)
    ensures x == y
  {
    assert Linear(x.0, cols) == Linear(y.0, cols);
    LinearInjective(x.0, y.0, rows, cols);
  }

  /** A set of states of a rows x cols grid whose codes lie below n has
      at most n elements. */
  lemma {:induction false} CardByCode(states: set<State>, rows: nat, cols: nat, n: nat)
    requires forall st :: st in states ==> st.0.0 < rows && st.0.1 < cols && Code(st, cols) < n
    ensures |states| <= n
    decreases n
  {
    if n == 0 {
      assert states == {} by {
        forall st | st in states
          ensures false
        {
        }
      }
    } else {
      var low := set st | st in states && Code(st, cols) < n - 1;
      var top := states - low;
      if top != {} {
        var x :| x in top;
        assert top == {x} by {
          forall y | y in top
            ensures y == x
          {
            CodeInjective(x, y, rows, cols);
          }
        }
      }
      CardByCode(low, rows, cols, n - 1);
      assert states == low + top;
    }
  }

  /** A rows x cols grid has at most 4 * rows * cols guard states. */
  lemma StatesBound(states: set<State>, rows: nat, cols: nat)
    requires forall st :: st in states ==> st.0.0 < rows && st.0.1 < cols
    ensures |states| <= 4 * rows * cols
  {
    forall st | st in states
      ensures Code(st, cols) < 4 * rows * cols
    {
      CodeBounds(st, rows, cols);
    }
    CardByCode(states, rows, cols, 4 * rows * cols);
  }

  // ---------------------------------------------------------------------
  // What `walk` knows between turnpoints

  /** The recorded route leads from s0 to the state (pos, dir). */
  ghost predicate WalkLoop(b: Board, s0: State, path: seq<State>, pos: Coord, dir: Direction)
    requires b.Valid()
  {
    b.Inside(pos)
    && (|path| == 0 ==> (pos, dir) == s0)
    && (|path| > 0 ==>
          Trajectory(b, s0, path) && b.Inside(path[|path| - 1].0)
          && Step(b, path[|path| - 1]) == Some((pos, dir)))
  }

  /** visited holds exactly the first n states of path, all distinct;
      index says where each one is. */
  ghost predicate Seen(path: seq<State>, visited: set<State>, index: map<State, nat>, n: nat)
  {
    n <= |path| && visited == index.Keys && |visited| == n
    && (forall st :: st in index ==> index[st] < n && path[index[st]] == st)
    && (forall k :: 0 <= k < n ==> path[k] in visited)
  }

  lemma JoinSegment(b: Board, s0: State, prev: seq<State>, pos: Coord, dir: Direction, path: seq<State>)
    requires b.Valid() && WalkLoop(b, s0, prev, pos, dir)
    requires |path| > |prev| && path[..|prev|] == prev && Straight(b, (pos, dir), path[|prev|..])
    ensures Trajectory(b, s0, path) && b.Inside(path[|path| - 1].0)
  {
    var seg := path[|prev|..];
    assert path == prev + seg;
    if |prev| > 0 {
      TrajectoryAppend(b, s0, prev, seg);
    }
  }

  lemma SeenPrefix(prev: seq<State>, path: seq<State>, visited: set<State>, index: map<State, nat>, n: nat)
    requires Seen(prev, visited, index, n) && |prev| <= |path| && path[..|prev|] == prev
    ensures Seen(path, visited, index, n)
  {
    forall k | 0 <= k < |prev|
      ensures path[k] == prev[k]
    {
      assert path[..|prev|][k] == path[k];
    }
  }

  lemma SeenStep(path: seq<State>, visited: set<State>, index: map<State, nat>, j: nat)
    requires Seen(path, visited, index, j) && j < |path| && path[j] !in visited
    ensures Seen(path, visited + {path[j]}, index[path[j] := j], j + 1)
  {
  }

  /** A state recorded twice: the route comes back to it. */
  lemma LoopFound(b: Board, s0: State, path: seq<State>, visited: set<State>, index: map<State, nat>, j: nat)
    requires b.Valid() && Trajectory(b, s0, path) && Seen(path, visited, index, j)
    requires j < |path| && path[j] in visited
    ensures Loops(b, s0)
  {
    var i := index[path[j]];
    assert path[i] == path[j] && i < j;
  }

  lemma VisitedInside(b: Board, s0: State, path: seq<State>, visited: set<State>, index: map<State, nat>)
    requires b.Valid() && Trajectory(b, s0, path) && b.Inside(path[|path| - 1].0)
    requires Seen(path, visited, index, |path|)
    ensures forall st :: st in visited ==> st.0.0 < b.rows && st.0.1 < b.cols
  {
    forall st | st in visited
      ensures b.Inside(st.0)
    {
      var k := index[st];
      assert path[k] == st;
      if k < |path| - 1 {
        assert b.Inside(path[k].0);
      }
    }
  }

  // ---------------------------------------------------------------------
  // The world

  /** `World::new`'s scan: the last guard cell in row-major order (the
      `for_each` overwrites earlier finds), or None when there is none. */
  method LocateGuard(cells: seq<Entity>, rows: nat, cols: nat) returns (pos: Option<Coord>, dir: Direction)
    requires |cells| == rows * cols
    ensures pos.None? <==> forall p :: 0 <= p < |cells| ==> !cells[p].Guard?
    ensures pos.Some? ==> pos.value.0 < rows && pos.value.1 < cols && Linear(pos.value, cols) < |cells|
    ensures pos.Some? ==> cells[Linear(pos.value, cols)] == Guard(dir)
    ensures pos.Some? ==> forall p :: Linear(pos.value, cols) < p < |cells| ==> !cells[p].Guard?
  {
    pos, dir := None, Up;
    var idx := 0;
    for row := 0 to rows
      invariant idx == row * cols
      invariant GuardScan(cells, rows, cols, idx, pos, dir)
    {
      for col := 0 to cols
        invariant idx == row * cols + col
        invariant GuardScan(cells, rows, cols, idx, pos, dir)
      {
        LinearInBounds((row, col), rows, cols);
        ScanStep(cells, rows, cols, (row, col), idx, pos, dir);
        if cells[idx].Guard? {
          pos, dir := Some((row, col)), cells[idx].dir;
        }
        idx := idx + 1;
      }
      assert (row + 1) * cols == row * cols + cols;
    }
    assert idx == |cells|;
  }

  /** What the guard scan knows after the first idx cells. */
  ghost predicate GuardScan(cells: seq<Entity>, rows: nat, cols: nat, idx: nat, pos: Option<Coord>, dir: Direction)
  {
    idx <= |cells|
    && (pos.None? <==> forall p :: 0 <= p < idx ==> !cells[p].Guard?)
    && (pos.Some? ==>
          pos.value.0 < rows && pos.value.1 < cols && Linear(pos.value, cols) < idx
          && cells[Linear(pos.value, cols)] == Guard(dir)
          && forall p :: Linear(pos.value, cols) < p < idx ==> !cells[p].Guard?)
  }

  lemma ScanStep(cells: seq<Entity>, rows: nat, cols: nat, c: Coord, idx: nat, pos: Option<Coord>, dir: Direction)
    requires c.0 < rows && c.1 < cols && idx == Linear(c, cols) && idx < |cells|
    requires GuardScan(cells, rows, cols, idx, pos, dir)
    ensures cells[idx].Guard? ==> GuardScan(cells, rows, cols, idx + 1, Some(c), cells[idx].dir)
    ensures !cells[idx].Guard? ==> GuardScan(cells, rows, cols, idx + 1, pos, dir)
  {
  }

  /** The world: the grid and the guard's state. */
  class World {
    var cells: seq<Entity>
    const rows: nat
    const cols: nat
    var guardPosition: Option<Coord>
    var guardDirection: Direction

    ghost predicate Valid()
      reads this
    {
      |cells| == rows * cols
      && (guardPosition.Some? ==> guardPosition.value.0 < rows && guardPosition.value.1 < cols)
    }

    ghost function Snapshot(): (b: Board)
      reads this
      ensures Valid() ==> b.Valid()
    {
      Board(cells, rows, cols)
    }

    /** `World::new`: the guard is the last guard cell in row-major order;
        the source asserts one exists. */
    constructor (cells: seq<Entity>, rows: nat, cols: nat)
      requires |cells| == rows * cols
      requires exists p :: 0 <= p < |cells| && cells[p].Guard?
      ensures Valid() && this.cells == cells && this.rows == rows && this.cols == cols
      ensures guardPosition.Some? && Linear(guardPosition.value, cols) < |cells|
      ensures cells[Linear(guardPosition.value, cols)] == Guard(guardDirection)
      ensures forall p :: Linear(guardPosition.value, cols) < p < |cells| ==> !cells[p].Guard?
    {
      var pos, dir := LocateGuard(cells, rows, cols);
      this.cells := cells;
      this.rows := rows;
      this.cols := cols;
      guardPosition := pos;
      guardDirection := dir;
    }

    /** `Grid::set`. */
    method SetCell(c: Coord, e: Entity)
      requires Valid() && c.0 < rows && c.1 < cols
      modifies this
      ensures Linear(c, cols) < |old(cells)|
      ensures cells == old(cells)[Linear(c, cols) := e]
      ensures guardPosition == old(guardPosition) && guardDirection == old(guardDirection)
      ensures Valid()
    {
      LinearInBounds(c, rows, cols);
      cells := cells[Linear(c, cols) := e];
    }

    /** `find_next_turnpoint`: walks straight from pos in direction dir,
        appending every state to the path, until an obstacle is ahead (the
        result is the last cell with the turned direction) or the next
        move leaves the grid (None). The appended states follow the
        guard's rule without turning, and the result is the rule's next
        state. */
    method FindNextTurnpoint(path0: seq<State>, pos0: Coord, dir: Direction)
      returns (r: Option<State>, path: seq<State>)
      requires Valid() && pos0.0 < rows && pos0.1 < cols
      ensures |path| > |path0| && path[..|path0|] == path0
      ensures Straight(Snapshot(), (pos0, dir), path[|path0|..])
      ensures r == Step(Snapshot(), path[|path| - 1])
      ensures r.Some? ==> r.value == (path[|path| - 1].0, RotateCcw(dir))
    {
      ghost var b := Snapshot();
      var pos := pos0;
      path := path0;
      ghost var seg: seq<State> := [];
      while true
        invariant pos.0 < rows && pos.1 < cols && path == path0 + seg
        invariant |seg| == 0 ==> pos == pos0
        invariant |seg| > 0 ==> Straight(b, (pos0, dir), seg) && Step(b, seg[|seg| - 1]) == Some((pos, dir))
        decreases Room(pos, dir)
      {
        path := path + [(pos, dir)];
        StraightExtend(b, (pos0, dir), seg, (pos, dir));
        seg := seg + [(pos, dir)];
        var newPos := MovePoint(dir, pos, (rows, cols));
        if newPos.Some? {
          var q := newPos.value;
          LinearInBounds(q, rows, cols);
          assert b.Blocked(q) <==> cells[Linear(q, cols)] == Object;
          if cells[Linear(q, cols)] == Object {
            assert path[|path0|..] == seg;
            return Some((pos, RotateCcw(dir))), path;
          } else {
            pos := q;
          }
        } else {
          assert Step(b, (pos, dir)) == None;
          assert path[|path0|..] == seg;
          return None, path;
        }
      }
    }

    /** `walk`: follows the guard from its state, turnpoint by turnpoint,
        recording every state; None as soon as a state repeats, otherwise
        the whole route up to the move that leaves the grid. Without a
        guard the route is empty. */
    method Walk() returns (r: Option<seq<State>>)
      requires Valid()
      ensures guardPosition.None? ==> r == Some([])
      ensures guardPosition.Some? && r.Some? ==> LeavesBy(Snapshot(), (guardPosition.value, guardDirection), r.value)
      ensures guardPosition.Some? && r.None? ==> Loops(Snapshot(), (guardPosition.value, guardDirection))
    {
      var path: seq<State> := [];
      var pathLen := 0;
      var visited: set<State> := {};
      if guardPosition.Some? {
        ghost var b := Snapshot();
        ghost var s0 := (guardPosition.value, guardDirection);
        ghost var index: map<State, nat> := map[];
        var pos := guardPosition.value;
        var dir := guardDirection;
        while true
          invariant WalkLoop(b, s0, path, pos, dir)
          invariant pathLen == |path| && Seen(path, visited, index, pathLen)
          invariant |visited| <= 4 * rows * cols
          decreases 4 * rows * cols - |visited|
        {
          ghost var prev := path;
          var turn;
          turn, path := FindNextTurnpoint(path, pos, dir);
          JoinSegment(b, s0, prev, pos, dir, path);
          if turn.None? {
            break;
          }
          SeenPrefix(prev, path, visited, index, pathLen);
          for j := pathLen to |path|
            invariant Seen(path, visited, index, j)
          {
            if path[j] in visited {
              LoopFound(b, s0, path, visited, index, j);
              return None;
            }
            SeenStep(path, visited, index, j);
            index := index[path[j] := j];
            visited := visited + {path[j]};
          }
          pathLen := |path|;
          VisitedInside(b, s0, path, visited, index);
          StatesBound(visited, rows, cols);
          pos, dir := turn.value.0, turn.value.1;
        }
        for j := pathLen to |path| {
          visited := visited + {path[j]};
        }
      }
      return Some(path);
    }

    /** How many moves in direction d stay on the grid from pos. */
    function Room(pos: Coord, d: Direction): nat
      reads this
    {
      match d
      case Up => pos.0
      case Down => if pos.0 < rows then rows - 1 - pos.0 else 0
      case Left => pos.1
      case Right => if pos.1 < cols then cols - 1 - pos.1 else 0
    }
  }

  // ---------------------------------------------------------------------
  // Part one: the cells the guard covers

  /** The distinct cells of a route. */
  function VisitedPositions(path: seq<State>): (r: set<Coord>)
    ensures |r| <= |path|
    ensures forall k :: 0 <= k < |path| ==> path[k].0 in r
    ensures forall c :: c in r ==> exists k :: 0 <= k < |path| && path[k].0 == c
  {
    if |path| == 0 then {}
    else
      var rest := VisitedPositions(path[..|path| - 1]);
      assert forall k :: 0 <= k < |path| - 1 ==> path[..|path| - 1][k] == path[k];
      rest + {path[|path| - 1].0}
  }

  /** The guard stands on c at some point of its route from s. */
  ghost predicate Visits(b: Board, s: State, c: Coord)
    requires b.Valid()
  {
    exists q: seq<State>, k :: Trajectory(b, s, q) && 0 <= k < |q| && q[k].0 == c
  }

  /** Part one counts the right cells: on a route that leaves the grid, the
      visited positions are exactly the cells the guard ever stands on. */
  lemma VisitedAreVisits(b: Board, s: State, path: seq<State>, c: Coord)
    requires b.Valid() && LeavesBy(b, s, path)
    ensures c in VisitedPositions(path) <==> Visits(b, s, c)
  {
    if c in VisitedPositions(path) {
      var k :| 0 <= k < |path| && path[k].0 == c;
      assert Trajectory(b, s, path);
    }
    if Visits(b, s, c) {
      VisitIsVisited(b, s, path, c);
    }
  }

  lemma VisitIsVisited(b: Board, s: State, path: seq<State>, c: Coord)
    requires b.Valid() && LeavesBy(b, s, path) && Visits(b, s, c)
    ensures c in VisitedPositions(path)
  {
    var q: seq<State>, k :| Trajectory(b, s, q) && 0 <= k < |q| && q[k].0 == c;
    if k < |path| {
      TrajectoriesAgree(b, s, path, q, k);
    } else {
      var n := |path| - 1;
      TrajectoriesAgree(b, s, path, q, n);
      TrajectoryStep(b, s, q, n);
      assert false;
    }
  }

  // ---------------------------------------------------------------------
  // Part two: trying obstacles on the route

  /** Board b with an obstacle on cell p. */
  ghost function WithObject(b: Board, p: Coord): (r: Board)
    requires b.Valid() && b.Inside(p)
    ensures r.Valid() && r.rows == b.rows && r.cols == b.cols
  {
    b.Put(p, Object)
  }

  /** Two boards of one size with obstacles on the same cells. */
  ghost predicate SameObstacles(b1: Board, b2: Board)
    requires b1.Valid() && b2.Valid()
  {
    b1.rows == b2.rows && b1.cols == b2.cols
    && forall c :: b1.Inside(c) ==> (b1.Blocked(c) <==> b2.Blocked(c))
  }

  /** Only obstacles steer the guard. */
  lemma SameRoutes(b1: Board, b2: Board, s: State, p: seq<State>)
    requires b1.Valid() && b2.Valid() && SameObstacles(b1, b2)
    ensures Trajectory(b1, s, p) <==> Trajectory(b2, s, p)
  {
    forall st: State | b1.Inside(st.0)
      ensures Step(b1, st) == Step(b2, st)
    {
    }
  }

  lemma SameLoops(b1: Board, b2: Board, s: State)
    requires b1.Valid() && b2.Valid() && SameObstacles(b1, b2)
    ensures Loops(b1, s) <==> Loops(b2, s)
  {
    if Loops(b1, s) {
      var p, i, j :| Trajectory(b1, s, p) && 0 <= i < j < |p| && p[i] == p[j];
      SameRoutes(b1, b2, s, p);
    }
    if Loops(b2, s) {
      var p, i, j :| Trajectory(b2, s, p) && 0 <= i < j < |p| && p[i] == p[j];
      SameRoutes(b1, b2, s, p);
    }
  }

  ghost predicate PathInside(b: Board, path: seq<State>)
  {
    forall k :: 0 <= k < |path| ==> b.Inside(path[k].0)
  }

  lemma TrajectoryInside(b: Board, s: State, path: seq<State>)
    requires b.Valid() && Trajectory(b, s, path) && b.Inside(path[|path| - 1].0)
    ensures PathInside(b, path)
  {
  }

  /** The step from path[i] to path[i + 1] moves forwards into cell p, so
      an obstacle on p would be met at path[i]. */
  ghost predicate Candidate(path: seq<State>, rows: nat, cols: nat, i: nat, p: Coord)
  {
    i + 1 < |path| && MoveDefined(path[i].1, (rows, cols))
    && MovePoint(path[i].1, path[i].0, (rows, cols)) == Some(p) && path[i + 1].0 == p
  }

  /** Some step before n is a candidate step into p. */
  ghost predicate CandidateBefore(path: seq<State>, rows: nat, cols: nat, n: nat, p: Coord)
  {
    exists k :: 0 <= k < n && Candidate(path, rows, cols, k, p)
  }

  /** Some candidate step before n into p loops once p holds an obstacle
      and the guard starts from the state before that step. */
  ghost predicate LoopsFrom(b: Board, path: seq<State>, n: nat, p: Coord)
    requires b.Valid() && b.Inside(p)
  {
    exists k :: 0 <= k < n && Candidate(path, b.rows, b.cols, k, p) && Loops(WithObject(b, p), path[k])
  }

  lemma CandidateBeforeNext(path: seq<State>, rows: nat, cols: nat, n: nat, p: Coord)
    ensures CandidateBefore(path, rows, cols, n + 1, p)
            <==> CandidateBefore(path, rows, cols, n, p) || Candidate(path, rows, cols, n, p)
  {
    if CandidateBefore(path, rows, cols, n + 1, p) && !Candidate(path, rows, cols, n, p) {
      var k :| 0 <= k < n + 1 && Candidate(path, rows, cols, k, p);
      assert k < n;
    }
  }

  lemma LoopsFromNext(b: Board, path: seq<State>, n: nat, p: Coord)
    requires b.Valid() && b.Inside(p)
    ensures LoopsFrom(b, path, n + 1, p)
            <==> LoopsFrom(b, path, n, p) || (Candidate(path, b.rows, b.cols, n, p) && Loops(WithObject(b, p), path[n]))
  {
    if LoopsFrom(b, path, n + 1, p) && !LoopsFrom(b, path, n, p) {
      var k :| 0 <= k < n + 1 && Candidate(path, b.rows, b.cols, k, p) && Loops(WithObject(b, p), path[k]);
      assert k == n;
    }
  }

  lemma LoopsFromCandidate(b: Board, path: seq<State>, n: nat, p: Coord)
    requires b.Valid() && b.Inside(p) && LoopsFrom(b, path, n, p)
    ensures CandidateBefore(path, b.rows, b.cols, n, p)
  {
  }

  /** What the trials before step n have recorded. */
  ghost predicate Tried(b: Board, path: seq<State>, results: map<Coord, bool>, n: nat)
    requires b.Valid()
  {
    forall p :: TriedAt(b, path, results, n, p)
  }

  /** The record for cell p after the trials before step n: present when p
      was a candidate, true when one of its trials looped. */
  ghost predicate TriedAt(b: Board, path: seq<State>, results: map<Coord, bool>, n: nat, p: Coord)
    requires b.Valid()
  {
    (p in results <==> CandidateBefore(path, b.rows, b.cols, n, p))
    && (p in results ==> b.Inside(p) && (results[p] <==> LoopsFrom(b, path, n, p)))
  }

  /** A forward move on a route goes into a cell without an obstacle. */
  lemma CandidateFree(b: Board, s: State, path: seq<State>, i: nat, p: Coord)
    requires b.Valid() && Trajectory(b, s, path) && Candidate(path, b.rows, b.cols, i, p)
    ensures b.Inside(p) && !b.Blocked(p)
  {
    TrajectoryStep(b, s, path, i);
  }

  lemma TriedSkipped(b: Board, path: seq<State>, results: map<Coord, bool>, i: nat, n: nat)
    requires b.Valid() && Tried(b, path, results, i) && n == i + 1
    requires forall p :: !Candidate(path, b.rows, b.cols, i, p)
    ensures Tried(b, path, results, n)
  {
    forall p: Coord
      ensures TriedAt(b, path, results, n, p)
    {
      assert TriedAt(b, path, results, i, p);
      CandidateBeforeNext(path, b.rows, b.cols, i, p);
      if p in results {
        LoopsFromNext(b, path, i, p);
      }
    }
  }

  /** A candidate cell already known to cause a loop is skipped. */
  lemma TriedKnown(b: Board, path: seq<State>, results: map<Coord, bool>, i: nat, n: nat, pos: Coord)
    requires b.Valid() && Tried(b, path, results, i) && n == i + 1 && b.Inside(pos)
    requires Candidate(path, b.rows, b.cols, i, pos)
    requires forall p :: Candidate(path, b.rows, b.cols, i, p) ==> p == pos
    requires pos in results && results[pos]
    ensures Tried(b, path, results, n)
  {
    forall p: Coord
      ensures TriedAt(b, path, results, n, p)
    {
      assert TriedAt(b, path, results, i, p);
      CandidateBeforeNext(path, b.rows, b.cols, i, p);
      if p in results {
        LoopsFromNext(b, path, i, p);
      }
    }
  }

  /** Any other candidate cell is tried and its outcome recorded. */
  lemma TriedFresh(b: Board, path: seq<State>, results: map<Coord, bool>, i: nat, n: nat, pos: Coord)
    requires b.Valid() && Tried(b, path, results, i) && n == i + 1 && b.Inside(pos)
    requires Candidate(path, b.rows, b.cols, i, pos)
    requires forall p :: Candidate(path, b.rows, b.cols, i, p) ==> p == pos
    requires !(pos in results && results[pos])
    ensures Tried(b, path, results[pos := Loops(WithObject(b, pos), path[i])], n)
  {
    var r := results[pos := Loops(WithObject(b, pos), path[i])];
    forall p: Coord
      ensures TriedAt(b, path, r, n, p)
    {
      assert TriedAt(b, path, results, i, p);
      CandidateBeforeNext(path, b.rows, b.cols, i, p);
      if p in r {
        LoopsFromNext(b, path, i, p);
        if p == pos && LoopsFrom(b, path, i, p) {
          LoopsFromCandidate(b, path, i, p);
        }
      }
    }
  }

  /** After the last step, the record covers every candidate step. */
  lemma TriedAll(b: Board, path: seq<State>, results: map<Coord, bool>)
    requires b.Valid() && |path| > 0 && Tried(b, path, results, |path| - 1)
    ensures forall p :: p in results <==> CandidateBefore(path, b.rows, b.cols, |path|, p)
    ensures forall p :: p in results ==> b.Inside(p) && (results[p] <==> LoopsFrom(b, path, |path|, p))
  {
    forall p: Coord
      ensures p in results <==> CandidateBefore(path, b.rows, b.cols, |path|, p)
      ensures p in results ==> b.Inside(p) && (results[p] <==> LoopsFrom(b, path, |path|, p))
    {
      assert TriedAt(b, path, results, |path| - 1, p);
      CandidateBeforeNext(path, b.rows, b.cols, |path| - 1, p);
      if p in results {
        LoopsFromNext(b, path, |path| - 1, p);
      }
    }
  }

  /** The tried cells are emptied, every other cell is as it was. */
  ghost predicate Cleared(b0: Board, b: Board, results: map<Coord, bool>)
    requires b0.Valid() && b.Valid() && b.rows == b0.rows && b.cols == b0.cols
  {
    forall c :: b0.Inside(c) ==> b.Cell(c) == if c in results then Empty(false) else b0.Cell(c)
  }

  /** Setting a cell changes that cell and no other. */
  lemma PutCell(b: Board, c: Coord, e: Entity, d: Coord)
    requires b.Valid() && b.Inside(c) && b.Inside(d)
    ensures b.Put(c, e).Cell(d) == if d == c then e else b.Cell(d)
  {
    UpdateChangesOneCell(b.cells, b.rows, b.cols, c, e, d);
  }

  /** Placing an obstacle on a cell that has none leaves a board with the
      obstacles of the original board plus that one. */
  lemma ObstaclePlaced(b0: Board, before: Board, after: Board, results: map<Coord, bool>, pos: Coord)
    requires b0.Valid() && before.Valid() && before.rows == b0.rows && before.cols == b0.cols
    requires Cleared(b0, before, results) && forall p :: p in results ==> b0.Inside(p) && !b0.Blocked(p)
    requires b0.Inside(pos) && after == WithObject(before, pos)
    ensures SameObstacles(after, WithObject(b0, pos))
  {
    forall c | after.Inside(c)
      ensures after.Blocked(c) <==> WithObject(b0, pos).Blocked(c)
    {
      PutCell(before, pos, Object, c);
      PutCell(b0, pos, Object, c);
    }
  }

  /** Emptying a tried cell keeps the board cleared. */
  lemma ObstacleRemoved(b0: Board, before: Board, after: Board, results: map<Coord, bool>, pos: Coord, v: bool)
    requires b0.Valid() && before.Valid() && before.rows == b0.rows && before.cols == b0.cols
    requires Cleared(b0, before, results) && b0.Inside(pos)
    requires after == before.Put(pos, Empty(false))
    ensures after.Valid() && Cleared(b0, after, results[pos := v])
  {
    forall c | b0.Inside(c)
      ensures after.Cell(c) == if c == pos || c in results then Empty(false) else b0.Cell(c)
    {
      PutCell(before, pos, Empty(false), c);
    }
  }

  /** What part two's loop keeps: the record of the trials before step n,
      and a grid that differs from the original b0 only in the tried cells,
      which are empty. */
  ghost predicate TrialState(world: World, b0: Board, path: seq<State>, results: map<Coord, bool>, n: nat)
    requires b0.Valid()
    reads world
  {
    world.Valid() && world.rows == b0.rows && world.cols == b0.cols
    && Tried(b0, path, results, n)
    && Cleared(b0, world.Snapshot(), results)
    && forall p :: p in results ==> b0.Inside(p) && !b0.Blocked(p)
  }

  /** One trial of part two: an obstacle on pos, the guard started from
      path[i], the outcome recorded, the cell emptied again. */
  method TryCell(world: World, ghost b0: Board, path: seq<State>, i: nat, pos: Coord, results0: map<Coord, bool>)
    returns (results: map<Coord, bool>)
    requires b0.Valid() && |path| > 0 && Trajectory(b0, path[0], path) && TrialState(world, b0, path, results0, i)
    requires Candidate(path, b0.rows, b0.cols, i, pos) && forall p :: Candidate(path, b0.rows, b0.cols, i, p) ==> p == pos
    requires !(pos in results0 && results0[pos])
    modifies world
    ensures TrialState(world, b0, path, results, i + 1)
    ensures results == results0[pos := Loops(WithObject(b0, pos), path[i])]
    ensures world.guardPosition == Some(path[i].0) && world.guardDirection == path[i].1
  {
    CandidateFree(b0, path[0], path, i, pos);
    world.guardPosition := Some(path[i].0);
    world.guardDirection := path[i].1;
    ghost var before := world.Snapshot();
    world.SetCell(pos, Object);
    ObstaclePlaced(b0, before, world.Snapshot(), results0, pos);
    var walk := world.Walk();
    LoopsOrLeaves(world.Snapshot(), path[i]);
    if walk.Some? {
      assert LeavesBy(world.Snapshot(), path[i], walk.value);
    }
    SameLoops(world.Snapshot(), WithObject(b0, pos), path[i]);
    TriedFresh(b0, path, results0, i, i + 1, pos);
    results := results0[pos := walk.None?];
    world.SetCell(pos, Empty(false));
    assert world.Snapshot() == before.Put(pos, Empty(false));
    ObstacleRemoved(b0, before, world.Snapshot(), results0, pos, walk.None?);
  }

  /** Part two's loop over the route: for every forward move, put an
      obstacle on the cell moved into, start the guard from the state
      before the move and record whether its walk loops. A cell already
      found to cause a loop is not tried again, and every tried cell is
      emptied afterwards. */
  method TryObstacles(world: World, path: seq<State>) returns (results: map<Coord, bool>)
    requires world.Valid() && |path| > 0
    requires Trajectory(world.Snapshot(), path[0], path) && world.Snapshot().Inside(path[|path| - 1].0)
    modifies world
    ensures world.Valid()
    ensures (world.guardPosition == old(world.guardPosition) && world.guardDirection == old(world.guardDirection))
            || (world.guardPosition.Some? && (world.guardPosition.value, world.guardDirection) in path)
    ensures forall p :: p in results <==> CandidateBefore(path, world.rows, world.cols, |path|, p)
    ensures forall p :: p in results ==>
              world.Snapshot().Inside(p) && (results[p] <==> LoopsFrom(old(world.Snapshot()), path, |path|, p))
    ensures Cleared(old(world.Snapshot()), world.Snapshot(), results)
  {
    ghost var b0 := world.Snapshot();
    results := map[];
    for i := 0 to |path| - 1
      invariant TrialState(world, b0, path, results, i)
      invariant (world.guardPosition == old(world.guardPosition) && world.guardDirection == old(world.guardDirection))
                || (world.guardPosition.Some? && (world.guardPosition.value, world.guardDirection) in path)
    {
      var next := MovePoint(path[i].1, path[i].0, (world.rows, world.cols));
      if next.Some? && next.value == path[i + 1].0 {
        var pos := path[i + 1].0;
        assert Candidate(path, b0.rows, b0.cols, i, pos);
        if pos in results && results[pos] {
          TriedKnown(b0, path, results, i, i + 1, pos);
          continue;
        }
        results := TryCell(world, b0, path, i, pos, results);
        assert path[i] in path;
      } else {
        TriedSkipped(b0, path, results, i, i + 1);
      }
    }
    TriedAll(b0, path, results);
  }
}
