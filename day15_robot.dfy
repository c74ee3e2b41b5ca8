/** Day 15, the procedure: `simulate_robot` moving the robot over the entity
    grid in place, push by push, proved to follow the rules of Day15Moves
    (src/bin/day15/main.rs:102-250), and the two stars computed from the
    final grids (src/bin/day15/main.rs:252-291). */
module Day15Robot {
  import opened Utils
  import opened Day15
  import opened Day15Moves

  /** The grid as a board value. */
  ghost function Snap(world: Grid<Entity>): Board
    reads world
  {
    Board(world.data, world.rows, world.cols)
  }

  /** `transform_coord` from the robot's cell, with the `expect`: on a
      warehouse the robot is off the border, so there is a cell to go to. */
  method StepFrom(world: Grid<Entity>, p: Coord, d: Direction) returns (q: Coord)
    requires world.Valid() && Enclosed(Snap(world)) && Snap(world).Inside(p) && Snap(world).Cell(p) != Wall
    ensures Next(Snap(world), p, d) == Some(q)
  {
    NextIsTransform(Snap(world), p, d);
    NotWallHasRoom(Snap(world), p, d);
    q := DirVec(d).TransformCoord(p, world.Size()).value;
  }

  /** One move of `simulate_robot`. */
  method MoveRobot(world: Grid<Entity>, robotPos: Coord, d: Direction) returns (newPos: Coord)
    requires world.Valid() && Warehouse(Snap(world), robotPos)
    modifies world
    ensures world.Valid() && (Snap(world), newPos) == Move(old(Snap(world)), robotPos, d)
  {
    ghost var b := Snap(world);
    var curr := StepFrom(world, robotPos, d);
    LinearInBounds(curr, world.rows, world.cols);
    var e := world.Get(curr);
    if e == Vacant {
      world.Set(curr, Robot);
      LinearInBounds(robotPos, world.rows, world.cols);
      world.Set(robotPos, Vacant);
      newPos := curr;
    } else if e == Box {
      newPos := PushBoxes(world, robotPos, d, curr);
    } else if e == WideBoxLeft || e == WideBoxRight {
      if d == Left || d == Right {
        newPos := PushRow(world, robotPos, d, curr);
      } else {
        newPos := PushLayers(world, robotPos, d, curr);
      }
    } else {
      newPos := robotPos;
    }
  }

  /** The loop over a row of narrow boxes: walks to the first free or
      walled cell; a free one gets a box and the robot steps forward. */
  method PushBoxes(world: Grid<Entity>, robotPos: Coord, d: Direction, front: Coord) returns (newPos: Coord)
    requires world.Valid() && Warehouse(Snap(world), robotPos)
    requires front == Front(Snap(world), robotPos, d) && Snap(world).Cell(front) == Box
    modifies world
    ensures world.Valid() && (Snap(world), newPos) == Move(old(Snap(world)), robotPos, d)
  {
    ghost var b := Snap(world);
    NotWallHasRoom(b, robotPos, d);
    var curr := front;
    ghost var k: nat := 1;
    while true
      invariant world.data == b.cells
      invariant 1 <= k <= Room(b, robotPos, d) && Reach(robotPos, d, k) && curr == Ahead(robotPos, d, k)
      invariant b.Inside(curr) && !Stop(b.Cell(curr))
      invariant FirstStop(b, robotPos, d, k) == FirstStop(b, robotPos, d, 1)
      decreases Room(b, robotPos, d) - k
    {
      AheadNext(b, robotPos, d, k);
      curr := StepFrom(world, curr, d);
      k := k + 1;
      LinearInBounds(curr, world.rows, world.cols);
      if world.Get(curr) == Vacant {
        world.Set(curr, Box);
        NextIsTransform(b, robotPos, d);
        var next := DirVec(d).TransformCoord(robotPos, world.Size()).value;
        LinearInBounds(next, world.rows, world.cols);
        world.Set(next, Robot);
        LinearInBounds(robotPos, world.rows, world.cols);
        world.Set(robotPos, Vacant);
        return next;
      } else if world.Get(curr) == Wall {
        return robotPos;
      }
    }
  }

  /** The sideways push of two-cell boxes: collects the entities up to the
      first free or walled cell; at a free one the robot steps forward and
      the entities are written one cell further on. */
  method PushRow(world: Grid<Entity>, robotPos: Coord, d: Direction, front: Coord) returns (newPos: Coord)
    requires world.Valid() && Warehouse(Snap(world), robotPos) && !Vertical(d)
    requires front == Front(Snap(world), robotPos, d) && IsHalf(Snap(world).Cell(front))
    modifies world
    ensures world.Valid() && (Snap(world), newPos) == Move(old(Snap(world)), robotPos, d)
  {
    ghost var b := Snap(world);
    var entities, free := ScanRow(world, b, robotPos, d, front);
    ghost var k := FirstStop(b, robotPos, d, 1);
    if free {
      NextIsTransform(b, robotPos, d);
      var curr := DirVec(d).TransformCoord(robotPos, world.Size()).value;
      LinearInBounds(robotPos, world.rows, world.cols);
      world.Set(robotPos, Vacant);
      LinearInBounds(curr, world.rows, world.cols);
      world.Set(curr, Robot);
      RunStart(b, robotPos, d, k);
      WriteRow(world, b, robotPos, d, k, entities, curr);
      RunShiftOk(b, robotPos, d, k);
      return curr;
    }
    return robotPos;
  }

  /** The first loop of the sideways push: the entities from the box in
      front up to the first free or walled cell, and whether that is free. */
  method ScanRow(world: Grid<Entity>, ghost b: Board, robotPos: Coord, d: Direction, front: Coord)
    returns (entities: seq<Entity>, free: bool)
    requires world.Valid() && b == Snap(world) && Enclosed(b) && b.Inside(robotPos) && b.Cell(robotPos) != Wall
    requires Reach(robotPos, d, 1) && front == Ahead(robotPos, d, 1) && b.Inside(front) && !Stop(b.Cell(front))
    ensures 1 <= Room(b, robotPos, d)
    ensures 2 <= FirstStop(b, robotPos, d, 1)
    ensures RowSoFar(b, robotPos, d, FirstStop(b, robotPos, d, 1) - 1, entities)
    ensures free <==> b.Cell(Ahead(robotPos, d, FirstStop(b, robotPos, d, 1))) == Vacant
  {
    NotWallHasRoom(b, robotPos, d);
    var curr := front;
    LinearInBounds(curr, world.rows, world.cols);
    entities := [world.Get(curr)];
    ghost var k: nat := 1;
    ghost var stop := FirstStop(b, robotPos, d, 1);
    while true
      invariant Scanning(b, robotPos, d, k, curr, stop, entities)
      decreases Room(b, robotPos, d) - k
    {
      ScanMore(b, robotPos, d, k, curr, stop, entities);
      ghost var prev := curr;
      curr := StepFrom(world, curr, d);
      LinearInBounds(curr, world.rows, world.cols);
      var e := world.Get(curr);
      if Stop(e) {
        ScanEnd(b, robotPos, d, k, prev, stop, entities);
        return entities, e == Vacant;
      }
      ScanNext(b, robotPos, d, k, prev, stop, entities);
      entities := entities + [e];
      k := k + 1;
    }
  }

  /** What the scan loop knows standing k steps ahead at curr. */
  ghost predicate Scanning(b: Board, r: Coord, d: Direction, k: nat, curr: Coord, stop: nat, entities: seq<Entity>)
  {
    b.Valid() && Enclosed(b) && b.Inside(r)
    && ScanAt(b, r, d, k, curr) && FirstStop(b, r, d, k) == stop && RowSoFar(b, r, d, k, entities)
  }

  /** Standing on a box, the scan has a cell to step to. */
  lemma ScanMore(b: Board, r: Coord, d: Direction, k: nat, curr: Coord, stop: nat, entities: seq<Entity>)
    requires Scanning(b, r, d, k, curr, stop, entities)
    ensures k < Room(b, r, d) && Reach(r, d, k + 1) && b.Inside(curr) && b.Cell(curr) != Wall
    ensures Next(b, curr, d) == Some(Ahead(r, d, k + 1))
  {
    StopLater(b, r, d, k);
    AheadNext(b, r, d, k);
  }

  /** Stepping onto another box extends the scan. */
  lemma ScanNext(b: Board, r: Coord, d: Direction, k: nat, prev: Coord, stop: nat, entities: seq<Entity>)
    requires Scanning(b, r, d, k, prev, stop, entities)
    requires k < Room(b, r, d) && Reach(r, d, k + 1)
    requires !Stop(b.Cell(Ahead(r, d, k + 1)))
    ensures Scanning(b, r, d, k + 1, Ahead(r, d, k + 1), stop, entities + [b.Cell(Ahead(r, d, k + 1))])
  {
    StopLater(b, r, d, k);
    AheadNext(b, r, d, k + 1);
    RowSoFarAppend(b, r, d, k, entities, b.Cell(Ahead(r, d, k + 1)));
  }

  /** Stepping onto a free or walled cell ends the scan at the first stop. */
  lemma ScanEnd(b: Board, r: Coord, d: Direction, k: nat, prev: Coord, stop: nat, entities: seq<Entity>)
    requires Scanning(b, r, d, k, prev, stop, entities)
    requires k < Room(b, r, d) && Reach(r, d, k + 1)
    requires Stop(b.Cell(Ahead(r, d, k + 1)))
    ensures 1 <= Room(b, r, d) && 2 <= stop == k + 1
    ensures RowSoFar(b, r, d, stop - 1, entities)
  {
    StopLater(b, r, d, k);
    AheadNext(b, r, d, k + 1);
    StopHere(b, r, d, k + 1);
  }

  lemma RowSoFarAppend(b: Board, r: Coord, d: Direction, k: nat, entities: seq<Entity>, e: Entity)
    requires b.Valid() && RowSoFar(b, r, d, k, entities) && HasEntity(b, r, d, k + 1, e)
    ensures RowSoFar(b, r, d, k + 1, entities + [e])
  {
    var s := entities + [e];
    forall i | 0 <= i < k + 1 ensures HasEntity(b, r, d, i + 1, s[i]) {
      if i < k {
        assert s[i] == entities[i];
      }
    }
  }

  /** A scan k steps ahead of r stands at curr, a box. */
  ghost predicate ScanAt(b: Board, r: Coord, d: Direction, k: nat, curr: Coord)
    requires b.Valid() && b.Inside(r)
  {
    1 <= k <= Room(b, r, d) && Reach(r, d, k) && curr == Ahead(r, d, k) && b.Inside(curr) && !Stop(b.Cell(curr))
  }

  /** The entities collected so far: those 1 .. k steps ahead. */
  ghost predicate RowSoFar(b: Board, r: Coord, d: Direction, k: nat, entities: seq<Entity>)
    requires b.Valid()
  {
    |entities| == k && forall i :: 0 <= i < k ==> HasEntity(b, r, d, i + 1, entities[i])
  }

  /** e is the entity k steps ahead of r. */
  ghost predicate HasEntity(b: Board, r: Coord, d: Direction, k: nat, e: Entity)
    requires b.Valid()
  {
    Reach(r, d, k) && b.Inside(Ahead(r, d, k)) && e == b.Cell(Ahead(r, d, k))
  }

  /** w has the cells of fin as the shift of m gives them, the others as in b. */
  ghost predicate PartlyShifted(w: Board, b: Board, m: set<Coord>, d: Direction, fin: set<Coord>)
    requires b.Valid()
  {
    w.Valid() && w.rows == b.rows && w.cols == b.cols
    && forall c :: b.Inside(c) ==> PartlyAt(w, b, m, d, fin, c)
  }

  /** Cell c of w as PartlyShifted says. */
  ghost predicate PartlyAt(w: Board, b: Board, m: set<Coord>, d: Direction, fin: set<Coord>, c: Coord)
    requires b.Valid() && w.Valid() && w.rows == b.rows && w.cols == b.cols && b.Inside(c)
  {
    w.Cell(c) == if c in fin then ShiftedCell(b, m, d, c) else b.Cell(c)
  }

  /** The cell j steps along a pushed row after the push: what was one step
      behind it, and free where the robot was. */
  lemma RunShiftedCell(b: Board, r: Coord, d: Direction, k: nat, j: nat)
    requires b.Valid() && b.Inside(r) && k <= Room(b, r, d) && j <= k
    ensures Reach(r, d, j) && b.Inside(Ahead(r, d, j))
    ensures j == 0 ==> ShiftedCell(b, Run(r, d, k), d, r) == if 0 < k then Vacant else b.Cell(r)
    ensures 0 < j ==> ShiftedCell(b, Run(r, d, k), d, Ahead(r, d, j)) == b.Cell(Ahead(r, d, j - 1))
  {
    if j > 0 {
      RunShiftedAhead(b, r, d, k, j);
    } else {
      AheadNext(b, r, d, j);
    }
  }

  /** RunShiftedCell for a cell ahead of the robot. */
  lemma RunShiftedAhead(b: Board, r: Coord, d: Direction, k: nat, j: nat)
    requires b.Valid() && b.Inside(r) && k <= Room(b, r, d) && 0 < j <= k
    ensures Reach(r, d, j) && b.Inside(Ahead(r, d, j))
    ensures ShiftedCell(b, Run(r, d, k), d, Ahead(r, d, j)) == b.Cell(Ahead(r, d, j - 1))
  {
    AheadNext(b, r, d, j);
    AheadNext(b, r, d, j - 1);
    NextBack(b, Ahead(r, d, j - 1), Ahead(r, d, j), d);
    InRun(r, d, k, j - 1);
  }

  /** The robot's first two writes start the shifted row. */
  lemma RunStart(b: Board, r: Coord, d: Direction, k: nat)
    requires b.Valid() && Enclosed(b) && b.Inside(r) && b.Cell(r) == Robot && 2 <= k <= Room(b, r, d)
    ensures Reach(r, d, 1) && b.Inside(Ahead(r, d, 1))
    ensures PartlyShifted(b.Put(r, Vacant).Put(Ahead(r, d, 1), Robot), b, Run(r, d, k), d, Run(r, d, 2))
  {
    RunShiftedCell(b, r, d, k, 0);
    RunShiftedCell(b, r, d, k, 1);
    AheadNext(b, r, d, 2);
    var n := Ahead(r, d, 1);
    var w := b.Put(r, Vacant).Put(n, Robot);
    forall c | b.Inside(c)
      ensures PartlyAt(w, b, Run(r, d, k), d, Run(r, d, 2), c)
    {
      PutCell(b, r, Vacant, c);
      PutCell(b.Put(r, Vacant), n, Robot, c);
      InRun(r, d, 2, 0);
      InRun(r, d, 2, 1);
    }
  }

  /** The write loop of the sideways push: entity i goes i + 2 steps ahead. */
  method WriteRow(world: Grid<Entity>, ghost b: Board, r: Coord, d: Direction, ghost k: nat, entities: seq<Entity>, start: Coord)
    requires world.Valid() && b.Valid() && Enclosed(b) && b.Inside(r) && b.Cell(r) == Robot
    requires 2 <= k <= Room(b, r, d) && |entities| == k - 1
    requires RowSoFar(b, r, d, k - 1, entities)
    requires Reach(r, d, 1) && start == Ahead(r, d, 1)
    requires PartlyShifted(Snap(world), b, Run(r, d, k), d, Run(r, d, 2))
    modifies world
    ensures world.Valid() && Snap(world) == Shifted(b, Run(r, d, k), d)
  {
    var curr := start;
    for i := 0 to |entities|
      invariant world.Valid() && Writing(Snap(world), b, r, d, k, i + 1, curr)
    {
      assert HasEntity(b, r, d, i + 1, entities[i]);
      WriteNext(Snap(world), b, r, d, k, i + 1, curr, entities[i]);
      curr := DirVec(d).TransformCoord(curr, world.Size()).value;
      LinearInBounds(curr, world.rows, world.cols);
      world.Set(curr, entities[i]);
    }
    RowWritten(Snap(world), b, r, d, k);
  }

  /** What the write loop knows with n cells behind the robot's old place
      written: it stands at the n-th of them. */
  ghost predicate Writing(w: Board, b: Board, r: Coord, d: Direction, k: nat, n: nat, curr: Coord)
    requires b.Valid()
  {
    Reach(r, d, n) && curr == Ahead(r, d, n) && PartlyShifted(w, b, Run(r, d, k), d, Run(r, d, n + 1))
  }

  /** One turn of the write loop: the next cell is one step on, and
      writing the entity found one step back of it there extends the shift. */
  lemma WriteNext(w: Board, b: Board, r: Coord, d: Direction, k: nat, n: nat, curr: Coord, e: Entity)
    requires b.Valid() && b.Inside(r) && k <= Room(b, r, d) && 1 <= n < k
    requires Writing(w, b, r, d, k, n, curr) && HasEntity(b, r, d, n, e)
    ensures Reach(r, d, n + 1) && b.Inside(Ahead(r, d, n + 1)) && b.Inside(curr)
    ensures DirVec(d).TransformCoord(curr, (w.rows, w.cols)) == Some(Ahead(r, d, n + 1))
    ensures Writing(w.Put(Ahead(r, d, n + 1), e), b, r, d, k, n + 1, Ahead(r, d, n + 1))
  {
    AheadNext(b, r, d, n);
    NextIsTransform(b, curr, d);
    RowWriteStep(w, b, r, d, k, n + 1, e);
  }

  lemma RowWriteStep(w: Board, b: Board, r: Coord, d: Direction, k: nat, j: nat, e: Entity)
    requires b.Valid() && b.Inside(r) && k <= Room(b, r, d) && 2 <= j <= k
    requires PartlyShifted(w, b, Run(r, d, k), d, Run(r, d, j))
    requires Reach(r, d, j - 1) && b.Inside(Ahead(r, d, j - 1)) && e == b.Cell(Ahead(r, d, j - 1))
    ensures Reach(r, d, j) && b.Inside(Ahead(r, d, j))
    ensures PartlyShifted(w.Put(Ahead(r, d, j), e), b, Run(r, d, k), d, Run(r, d, j + 1))
  {
    RunShiftedAhead(b, r, d, k, j);
    RunGrow(r, d, j);
    PartlyExtendTo(w, b, Run(r, d, k), d, Run(r, d, j), Run(r, d, j + 1), Ahead(r, d, j), e);
  }

  /** PartlyExtend, with the grown set of written cells named. */
  lemma PartlyExtendTo(w: Board, b: Board, m: set<Coord>, d: Direction, fin: set<Coord>, fin': set<Coord>, q: Coord, e: Entity)
    requires b.Valid() && PartlyShifted(w, b, m, d, fin) && b.Inside(q) && e == ShiftedCell(b, m, d, q)
    requires fin' == fin + {q}
    ensures PartlyShifted(w.Put(q, e), b, m, d, fin')
  {
    PartlyExtend(w, b, m, d, fin, q, e);
  }

  /** Writing the shifted entity of one more cell. */
  lemma PartlyExtend(w: Board, b: Board, m: set<Coord>, d: Direction, fin: set<Coord>, q: Coord, e: Entity)
    requires b.Valid() && PartlyShifted(w, b, m, d, fin) && b.Inside(q) && e == ShiftedCell(b, m, d, q)
    ensures PartlyShifted(w.Put(q, e), b, m, d, fin + {q})
  {
    forall c | b.Inside(c)
      ensures PartlyAt(w.Put(q, e), b, m, d, fin + {q}, c)
    {
      assert PartlyAt(w, b, m, d, fin, c);
      PutCell(w, q, e, c);
    }
  }

  /** A run one step longer has one more cell. */
  lemma RunGrow(p: Coord, d: Direction, k: nat)
    requires Reach(p, d, k)
    ensures Run(p, d, k + 1) == Run(p, d, k) + {Ahead(p, d, k)}
  {
    InRun(p, d, k + 1, k);
    forall c | c in Run(p, d, k) ensures c in Run(p, d, k + 1) {
      var j :| 0 <= j < k && Reach(p, d, j) && c == Ahead(p, d, j);
      InRun(p, d, k + 1, j);
    }
  }

  /** All k + 1 cells of the row written: the shift is complete, since the
      cells past them do not change. */
  lemma RowWritten(w: Board, b: Board, r: Coord, d: Direction, k: nat)
    requires b.Valid() && b.Inside(r) && k <= Room(b, r, d)
    requires PartlyShifted(w, b, Run(r, d, k), d, Run(r, d, k + 1))
    ensures w == Shifted(b, Run(r, d, k), d)
  {
    var s := Shifted(b, Run(r, d, k), d);
    forall c | b.Inside(c)
      ensures w.Cell(c) == s.Cell(c)
    {
      assert PartlyAt(w, b, Run(r, d, k), d, Run(r, d, k + 1), c);
      if c !in Run(r, d, k + 1) {
        var back := Next(b, c, Opposite(d));
        if back.Some? && back.value in Run(r, d, k) {
          var i :| 0 <= i < k && Reach(r, d, i) && back.value == Ahead(r, d, i);
          AheadNext(b, r, d, i);
          NextBack(b, back.value, c, d);
          assert false;
        }
      }
    }
    BoardsEqual(w, s);
  }

  // ---------------------------------------------------------------------
  // Pushing layers of two-cell boxes up or down

  /** Cells tagged with their entities, as the Rust keeps them in a set. */
  ghost function Tag(b: Board, s: set<Coord>): set<(Coord, Entity)>
    requires b.Valid()
  {
    set c | c in s && b.Inside(c) :: (c, b.Cell(c))
  }

  /** The cells of all rows of `entity_rows`. */
  ghost function CoordsOf(rows: seq<set<(Coord, Entity)>>): set<Coord>
  {
    set t, p | 0 <= t < |rows| && p in rows[t] :: p.0
  }

  /** Row t of `entity_rows` is tagged cells of halves t + 1 lines ahead. */
  ghost predicate RowsShaped(b: Board, r: Coord, d: Direction, rows: seq<set<(Coord, Entity)>>)
    requires b.Valid()
  {
    forall t, p :: 0 <= t < |rows| && p in rows[t] ==> ShapedCell(b, r, d, t, p)
  }

  /** A tagged half-box cell of row t. */
  ghost predicate ShapedCell(b: Board, r: Coord, d: Direction, t: nat, p: (Coord, Entity))
    requires b.Valid()
  {
    b.Inside(p.0) && p.1 == b.Cell(p.0) && IsHalf(p.1) && AtDistance(r, d, t + 1, p.0)
  }

  /** The vertical push: collects `entity_rows`, the layers of boxes, and
      unless one of them runs into a wall writes them one line further on,
      the farthest first, and then moves the robot. */
  method PushLayers(world: Grid<Entity>, robotPos: Coord, d: Direction, front: Coord) returns (newPos: Coord)
    requires world.Valid() && Warehouse(Snap(world), robotPos) && Vertical(d)
    requires front == Front(Snap(world), robotPos, d) && IsHalf(Snap(world).Cell(front))
    modifies world
    ensures world.Valid() && (Snap(world), newPos) == Move(old(Snap(world)), robotPos, d)
  {
    ghost var b := Snap(world);
    var entityRows := CollectLayers(world, b, robotPos, d, front);
    MoveVertical(b, robotPos, d);
    if entityRows != [] {
      ghost var moved := CoordsOf(entityRows);
      WriteLayers(world, b, robotPos, d, entityRows);
      NextIsTransform(b, robotPos, d);
      var curr := DirVec(d).TransformCoord(robotPos, world.Size()).value;
      LinearInBounds(robotPos, world.rows, world.cols);
      world.Set(robotPos, Vacant);
      LinearInBounds(curr, world.rows, world.cols);
      world.Set(curr, Robot);
      RobotBehind(b, robotPos, d, entityRows);
      ShiftRobotLast(b, moved, robotPos, curr, d);
      return curr;
    }
    return robotPos;
  }

  /** The first half of the vertical push: `entity_rows`, the layers of boxes
      ahead, or nothing when one of them runs into a wall. */
  method CollectLayers(world: Grid<Entity>, ghost b: Board, robotPos: Coord, d: Direction, front: Coord)
    returns (entityRows: seq<set<(Coord, Entity)>>)
    requires world.Valid() && b == Snap(world) && Warehouse(b, robotPos) && Vertical(d)
    requires front == Front(b, robotPos, d) && IsHalf(b.Cell(front))
    ensures LayerOk(b, robotPos, d, 0, PairOf(b, front))
    ensures entityRows == [] <==> LayersFrom(b, robotPos, d, 0, PairOf(b, front)).0
    ensures entityRows != [] ==>
      RowsShaped(b, robotPos, d, entityRows) && CoordsOf(entityRows) == LayersFrom(b, robotPos, d, 0, PairOf(b, front)).1
  {
    FirstLayerOk(b, robotPos, d);
    ghost var layer := PairOf(b, front);
    var first := FirstRow(world, b, robotPos, d, front);
    entityRows := [first];
    ghost var j: nat := 0;
    ghost var acc: set<Coord> := {};
    ghost var top := LayersFrom(b, robotPos, d, 0, layer);
    CollectStart(b, robotPos, d, front, top);
    while true
      invariant Collected(b, robotPos, d, j, layer, acc, top, entityRows)
      decreases Room(b, robotPos, d) - j
    {
      var next, hitWall := NextRow(world, b, robotPos, d, j, layer, entityRows[|entityRows| - 1]);
      if hitWall {
        CollectBlocked(b, robotPos, d, j, layer, acc, top, entityRows);
        return [];
      }
      if next == {} {
        CollectEnd(b, robotPos, d, j, layer, acc, top, entityRows);
        return;
      }
      CollectNext(b, robotPos, d, j, layer, acc, top, entityRows);
      entityRows := entityRows + [next];
      acc := acc + layer;
      layer := NextLayer(b, d, layer);
      j := j + 1;
    }
  }

  /** The state of the `'outer` loop: `entity_rows` holds layers 0 .. j
      tagged, the last of them being layer, and top is what all layers from
      the first come to, acc being the cells before layer. */
  ghost predicate Collected(b: Board, r: Coord, d: Direction, j: nat, layer: set<Coord>, acc: set<Coord>,
                            top: (bool, set<Coord>), rows: seq<set<(Coord, Entity)>>)
    requires b.Valid() && Enclosed(b) && Paired(b) && b.Inside(r) && Vertical(d)
  {
    LayerOk(b, r, d, j, layer) && layer != {}
    && |rows| == j + 1 && rows[j] == Tag(b, layer)
    && RowsShaped(b, r, d, rows)
    && CoordsOf(rows) == acc + layer
    && top == (LayersFrom(b, r, d, j, layer).0, acc + LayersFrom(b, r, d, j, layer).1)
  }

  lemma CollectStart(b: Board, r: Coord, d: Direction, front: Coord, top: (bool, set<Coord>))
    requires Warehouse(b, r) && Vertical(d) && front == Front(b, r, d) && IsHalf(b.Cell(front))
    requires LayerOk(b, r, d, 0, PairOf(b, front)) && top == LayersFrom(b, r, d, 0, PairOf(b, front))
    ensures Collected(b, r, d, 0, PairOf(b, front), {}, top, [Tag(b, PairOf(b, front))])
  {
    var layer := PairOf(b, front);
    assert front in layer by {
      assert PairedAt(b, front);
    }
    LayerAppend(b, r, d, 0, [], layer);
    assert [] + [Tag(b, layer)] == [Tag(b, layer)];
    TagShaped(b, r, d, 0, [], layer);
    assert {} + top.1 == top.1;
  }

  lemma CollectBlocked(b: Board, r: Coord, d: Direction, j: nat, layer: set<Coord>, acc: set<Coord>,
                       top: (bool, set<Coord>), rows: seq<set<(Coord, Entity)>>)
    requires b.Valid() && Enclosed(b) && Paired(b) && b.Inside(r) && Vertical(d)
    requires Collected(b, r, d, j, layer, acc, top, rows) && Blocked(b, d, layer)
    ensures top.0
  {
    LayersBlocked(b, r, d, j, layer, acc, top);
  }

  lemma CollectEnd(b: Board, r: Coord, d: Direction, j: nat, layer: set<Coord>, acc: set<Coord>,
                   top: (bool, set<Coord>), rows: seq<set<(Coord, Entity)>>)
    requires b.Valid() && Enclosed(b) && Paired(b) && b.Inside(r) && Vertical(d)
    requires Collected(b, r, d, j, layer, acc, top, rows) && !Blocked(b, d, layer)
    requires Tag(b, NextLayer(b, d, layer)) == {}
    ensures rows != [] && !top.0 && RowsShaped(b, r, d, rows) && CoordsOf(rows) == top.1
  {
    LayersEnd(b, r, d, j, layer, acc, top);
  }

  lemma CollectNext(b: Board, r: Coord, d: Direction, j: nat, layer: set<Coord>, acc: set<Coord>,
                    top: (bool, set<Coord>), rows: seq<set<(Coord, Entity)>>)
    requires b.Valid() && Enclosed(b) && Paired(b) && b.Inside(r) && Vertical(d)
    requires Collected(b, r, d, j, layer, acc, top, rows) && !Blocked(b, d, layer)
    requires Tag(b, NextLayer(b, d, layer)) != {}
    ensures j + 1 < Room(b, r, d)
    ensures Collected(b, r, d, j + 1, NextLayer(b, d, layer), acc + layer, top, rows + [Tag(b, NextLayer(b, d, layer))])
  {
    LayerInRoom(b, r, d, j, layer);
    NextRowShaped(b, r, d, j, layer, rows);
    LayersUnfold(b, r, d, j, layer, acc, top);
    var nl := NextLayer(b, d, layer);
    NextLayerOk(b, r, d, j, layer);
    LayerInRoom(b, r, d, j + 1, nl);
  }

  /** A vertical push at a two-cell box moves the layers ahead, unless one
      of them is blocked. */
  lemma MoveVertical(b: Board, r: Coord, d: Direction)
    requires Warehouse(b, r) && Vertical(d) && IsHalf(b.Cell(Front(b, r, d)))
    ensures LayerOk(b, r, d, 0, PairOf(b, Front(b, r, d)))
    ensures Move(b, r, d) ==
      var layers := LayersFrom(b, r, d, 0, PairOf(b, Front(b, r, d)));
      if layers.0 then (b, r) else (Shifted(b, layers.1 + {r}, d), Front(b, r, d))
  {
    FirstLayerOk(b, r, d);
  }

  /** A layer that runs into a wall blocks the push. */
  lemma LayersBlocked(b: Board, r: Coord, d: Direction, j: nat, layer: set<Coord>,
                      acc: set<Coord>, top: (bool, set<Coord>))
    requires b.Valid() && Enclosed(b) && Paired(b) && b.Inside(r) && Vertical(d)
    requires LayerOk(b, r, d, j, layer) && layer != {} && Blocked(b, d, layer)
    requires top == (LayersFrom(b, r, d, j, layer).0, acc + LayersFrom(b, r, d, j, layer).1)
    ensures top.0
  {
  }

  /** An unblocked layer is followed by the next one. */
  lemma LayersUnfold(b: Board, r: Coord, d: Direction, j: nat, layer: set<Coord>,
                     acc: set<Coord>, top: (bool, set<Coord>))
    requires b.Valid() && Enclosed(b) && Paired(b) && b.Inside(r) && Vertical(d)
    requires LayerOk(b, r, d, j, layer) && layer != {} && !Blocked(b, d, layer)
    requires top == (LayersFrom(b, r, d, j, layer).0, acc + LayersFrom(b, r, d, j, layer).1)
    ensures LayerOk(b, r, d, j + 1, NextLayer(b, d, layer))
    ensures top == (LayersFrom(b, r, d, j + 1, NextLayer(b, d, layer)).0,
                    (acc + layer) + LayersFrom(b, r, d, j + 1, NextLayer(b, d, layer)).1)
  {
    LayerInRoom(b, r, d, j, layer);
    NextLayerOk(b, r, d, j, layer);
    var lf := LayersFrom(b, r, d, j, layer);
    var rest := LayersFrom(b, r, d, j + 1, NextLayer(b, d, layer));
    assert lf == (rest.0, layer + rest.1);
    assert acc + lf.1 == (acc + layer) + rest.1;
  }

  /** No boxes further on: the layers seen so far are all that move. */
  lemma LayersEnd(b: Board, r: Coord, d: Direction, j: nat, layer: set<Coord>,
                  acc: set<Coord>, top: (bool, set<Coord>))
    requires b.Valid() && Enclosed(b) && Paired(b) && b.Inside(r) && Vertical(d)
    requires LayerOk(b, r, d, j, layer) && layer != {} && !Blocked(b, d, layer)
    requires Tag(b, NextLayer(b, d, layer)) == {}
    requires top == (LayersFrom(b, r, d, j, layer).0, acc + LayersFrom(b, r, d, j, layer).1)
    ensures top == (false, acc + layer)
  {
    LayersUnfold(b, r, d, j, layer, acc, top);
    var nl := NextLayer(b, d, layer);
    TagEmpty(b, r, d, j + 1, nl);
    var lf := LayersFrom(b, r, d, j + 1, nl);
    assert lf == (false, {});
    assert (acc + layer) + lf.1 == acc + layer;
  }

  /** The next layer, tagged, is a well-shaped next row of `entity_rows`. */
  lemma NextRowShaped(b: Board, r: Coord, d: Direction, j: nat, layer: set<Coord>, rows: seq<set<(Coord, Entity)>>)
    requires b.Valid() && Enclosed(b) && Paired(b) && b.Inside(r) && Vertical(d)
    requires LayerOk(b, r, d, j, layer) && layer != {} && !Blocked(b, d, layer)
    requires |rows| == j + 1 && RowsShaped(b, r, d, rows)
    ensures RowsShaped(b, r, d, rows + [Tag(b, NextLayer(b, d, layer))])
    ensures CoordsOf(rows + [Tag(b, NextLayer(b, d, layer))]) == CoordsOf(rows) + NextLayer(b, d, layer)
  {
    LayerInRoom(b, r, d, j, layer);
    NextLayerOk(b, r, d, j, layer);
    TagShaped(b, r, d, j + 1, rows, NextLayer(b, d, layer));
    LayerAppend(b, r, d, j + 1, rows, NextLayer(b, d, layer));
  }

  /** A layer appended to `entity_rows` adds its cells. */
  lemma LayerAppend(b: Board, r: Coord, d: Direction, j: nat, rows: seq<set<(Coord, Entity)>>, layer: set<Coord>)
    requires b.Valid() && LayerOk(b, r, d, j, layer)
    ensures CoordsOf(rows + [Tag(b, layer)]) == CoordsOf(rows) + layer
  {
    forall c | c in layer ensures b.Inside(c) {
      assert LayerCell(b, r, d, j, layer, c);
    }
    TagCoords(b, layer);
    CoordsOfAppend(rows, Tag(b, layer));
  }

  /** The first row of `entity_rows`: the box in front of the robot, whose
      other half the Rust asserts is beside it. */
  method FirstRow(world: Grid<Entity>, ghost b: Board, r: Coord, d: Direction, front: Coord) returns (first: set<(Coord, Entity)>)
    requires world.Valid() && world.data == b.cells && b == Snap(world) && Warehouse(b, r)
    requires front == Front(b, r, d) && IsHalf(b.Cell(front))
    ensures first == Tag(b, PairOf(b, front))
  {
    assert PairedAt(b, front);
    LinearInBounds(front, world.rows, world.cols);
    if world.Get(front) == WideBoxLeft {
      var pos := StepFrom(world, front, Right);
      LinearInBounds(pos, world.rows, world.cols);
      assert world.Get(pos) == WideBoxRight;
      first := {(front, WideBoxLeft), (pos, WideBoxRight)};
    } else {
      var pos := StepFrom(world, front, Left);
      LinearInBounds(pos, world.rows, world.cols);
      assert world.Get(pos) == WideBoxLeft;
      first := {(pos, WideBoxLeft), (front, WideBoxRight)};
    }
  }

  /** One round of the `'outer` loop: the boxes the cells of the last row
      run into, or a wall one of them runs into. */
  method NextRow(world: Grid<Entity>, ghost b: Board, r: Coord, d: Direction, ghost j: nat,
                 ghost layer: set<Coord>, last: set<(Coord, Entity)>)
    returns (row: set<(Coord, Entity)>, hitWall: bool)
    requires world.Valid() && b == Snap(world) && Enclosed(b) && Paired(b) && b.Inside(r) && Vertical(d)
    requires LayerOk(b, r, d, j, layer) && last == Tag(b, layer)
    ensures hitWall <==> Blocked(b, d, layer)
    ensures !hitWall ==> row == Tag(b, NextLayer(b, d, layer))
  {
    row := {};
    var rest := last;
    ghost var done: set<Coord> := {};
    while rest != {}
      invariant done <= layer && rest == Tag(b, layer - done)
      invariant !Blocked(b, d, done)
      invariant row == Tag(b, NextLayer(b, d, done))
      decreases |rest|
    {
      var item :| item in rest;
      ghost var before := rest;
      rest := rest - {item};
      var pos := item.0;
      assert pos in layer - done && item.1 == b.Cell(pos);
      var add, wall := ScanCell(world, b, r, d, j, layer, pos);
      if wall {
        return {}, true;
      }
      RowStep(b, d, layer, done, pos, before, item);
      row := row + add;
      done := done + {pos};
    }
    forall c | c in layer - done ensures b.Inside(c) {
      assert LayerCell(b, r, d, j, layer, c);
    }
    TagCoords(b, layer - done);
    assert done == layer;
    hitWall := false;
  }

  /** The body of the `'outer` loop for one cell of the last row: what the
      cell runs into, a wall or a box whose two halves it collects. */
  method ScanCell(world: Grid<Entity>, ghost b: Board, ghost r: Coord, d: Direction, ghost j: nat,
                  ghost layer: set<Coord>, pos: Coord)
    returns (add: set<(Coord, Entity)>, wall: bool)
    requires world.Valid() && b == Snap(world) && Enclosed(b) && Paired(b) && b.Inside(r) && Vertical(d)
    requires LayerOk(b, r, d, j, layer) && pos in layer
    ensures Next(b, pos, d).Some?
    ensures wall <==> b.Cell(Next(b, pos, d).value) == Wall
    ensures wall ==> Blocked(b, d, layer)
    ensures !wall ==> add == Tag(b, Contrib(b, d, pos))
  {
    assert LayerCell(b, r, d, j, layer, pos);
    var newPos := StepFrom(world, pos, d);
    LinearInBounds(newPos, world.rows, world.cols);
    ContribTag(b, d, pos, newPos);
    add := {};
    wall := false;
    if world.Get(newPos) == WideBoxLeft {
      var other := StepFrom(world, newPos, Right);
      assert other == (newPos.0, newPos.1 + 1);
      LinearInBounds(other, world.rows, world.cols);
      assert world.Get(other) == WideBoxRight;
      add := {(newPos, WideBoxLeft), (other, WideBoxRight)};
    } else if world.Get(newPos) == WideBoxRight {
      var other := StepFrom(world, newPos, Left);
      assert other == (newPos.0, newPos.1 - 1);
      LinearInBounds(other, world.rows, world.cols);
      assert world.Get(other) == WideBoxLeft;
      add := {(other, WideBoxLeft), (newPos, WideBoxRight)};
    } else if world.Get(newPos) == Wall {
      wall := true;
    }
  }

  /** One cell of the last row handled: it leaves the cells still to see,
      and what it runs into joins the new row. */
  lemma RowStep(b: Board, d: Direction, layer: set<Coord>, done: set<Coord>, pos: Coord,
                before: set<(Coord, Entity)>, item: (Coord, Entity))
    requires b.Valid() && Paired(b) && b.Inside(pos)
    requires before == Tag(b, layer - done) && item in before && item.0 == pos
    ensures Tag(b, layer - (done + {pos})) == before - {item}
    ensures NextLayer(b, d, done + {pos}) == NextLayer(b, d, done) + Contrib(b, d, pos)
    ensures Tag(b, NextLayer(b, d, done + {pos})) == Tag(b, NextLayer(b, d, done)) + Tag(b, Contrib(b, d, pos))
    ensures !Blocked(b, d, done) && Next(b, pos, d).Some? && b.Cell(Next(b, pos, d).value) != Wall
      ==> !Blocked(b, d, done + {pos})
  {
    assert item == (pos, b.Cell(pos));
    var next := NextLayer(b, d, done + {pos});
    assert forall q :: q in next ==> q in NextLayer(b, d, done) || q in Contrib(b, d, pos);
  }

  /** The tagged cells a cell contributes to the next row. */
  lemma ContribTag(b: Board, d: Direction, p: Coord, q: Coord)
    requires b.Valid() && Paired(b) && Next(b, p, d) == Some(q)
    ensures b.Inside(q)
    ensures b.Cell(q) == WideBoxLeft ==>
      b.Inside((q.0, q.1 + 1)) && Tag(b, Contrib(b, d, p)) == {(q, WideBoxLeft), ((q.0, q.1 + 1), WideBoxRight)}
    ensures b.Cell(q) == WideBoxRight ==>
      0 < q.1 && b.Inside((q.0, q.1 - 1)) && Tag(b, Contrib(b, d, p)) == {((q.0, q.1 - 1), WideBoxLeft), (q, WideBoxRight)}
    ensures !IsHalf(b.Cell(q)) ==> Tag(b, Contrib(b, d, p)) == {}
  {
    assert PairedAt(b, q);
  }

  /** The cells of a row of `entity_rows`. */
  ghost function Cells(row: set<(Coord, Entity)>): set<Coord>
  {
    set p | p in row :: p.0
  }

  lemma TagCoords(b: Board, s: set<Coord>)
    requires b.Valid() && forall c :: c in s ==> b.Inside(c)
    ensures Cells(Tag(b, s)) == s
  {
    forall c | c in s ensures c in Cells(Tag(b, s)) {
      assert (c, b.Cell(c)) in Tag(b, s);
    }
  }

  lemma CoordsOfAppend(rows: seq<set<(Coord, Entity)>>, row: set<(Coord, Entity)>)
    ensures CoordsOf(rows + [row]) == CoordsOf(rows) + Cells(row)
  {
    var rows' := rows + [row];
    forall c | c in CoordsOf(rows) + Cells(row) ensures c in CoordsOf(rows') {
      if c in CoordsOf(rows) {
        var t, p :| 0 <= t < |rows| && p in rows[t] && p.0 == c;
        assert p in rows'[t];
      } else {
        var p :| p in row && p.0 == c;
        assert p in rows'[|rows|];
      }
    }
    forall c | c in CoordsOf(rows') ensures c in CoordsOf(rows) + Cells(row) {
      var t: int, p: (Coord, Entity) :| 0 <= t < |rows'| && p in rows'[t] && p.0 == c;
      if t < |rows| {
        assert p in rows[t];
      }
    }
  }

  /** A layer whose tagged copy is empty is empty. */
  lemma TagEmpty(b: Board, r: Coord, d: Direction, j: nat, layer: set<Coord>)
    requires b.Valid() && LayerOk(b, r, d, j, layer) && Tag(b, layer) == {}
    ensures layer == {}
  {
    forall c | c in layer ensures b.Inside(c) {
      assert LayerCell(b, r, d, j, layer, c);
    }
    TagCoords(b, layer);
  }

  /** The tagged next layer is a well-shaped next row. */
  lemma TagShaped(b: Board, r: Coord, d: Direction, j: nat, rows: seq<set<(Coord, Entity)>>, layer: set<Coord>)
    requires b.Valid()
    requires |rows| == j
    requires RowsShaped(b, r, d, rows)
    requires LayerOk(b, r, d, j, layer)
    ensures RowsShaped(b, r, d, rows + [Tag(b, layer)])
  {
    var rows' := rows + [Tag(b, layer)];
    forall t: int, p: (Coord, Entity) | 0 <= t < |rows'| && p in rows'[t]
      ensures b.Inside(p.0) && p.1 == b.Cell(p.0) && IsHalf(p.1) && AtDistance(r, d, t + 1, p.0)
    {
      if t < |rows| {
        assert p in rows[t];
      } else {
        assert LayerCell(b, r, d, j, layer, p.0);
      }
    }
  }

  /** How many lines ahead of r the cell c is, going up or down. */
  function Dist(r: Coord, d: Direction, c: Coord): int
  {
    if d == Up then r.0 - c.0 else c.0 - r.0
  }

  /** The robot and the cell behind it are in no row. */
  lemma RobotBehind(b: Board, r: Coord, d: Direction, rows: seq<set<(Coord, Entity)>>)
    requires b.Valid() && Vertical(d) && b.Inside(r) && RowsShaped(b, r, d, rows)
    ensures r !in CoordsOf(rows)
    ensures Next(b, r, Opposite(d)).Some? ==> Next(b, r, Opposite(d)).value !in CoordsOf(rows)
  {
    forall c | c in CoordsOf(rows) ensures Dist(r, d, c) >= 1 {
      var t, p :| 0 <= t < |rows| && p in rows[t] && p.0 == c;
    }
  }

  /** The write loop of the vertical push, `entity_rows` popped from the
      farthest row: every cell is written one line on and freed. */
  method WriteLayers(world: Grid<Entity>, ghost b: Board, r: Coord, d: Direction, rows: seq<set<(Coord, Entity)>>)
    requires world.Valid() && b == Snap(world) && Enclosed(b) && Vertical(d) && b.Inside(r)
    requires RowsShaped(b, r, d, rows)
    modifies world
    ensures world.Valid() && Snap(world) == Shifted(b, CoordsOf(rows), d)
  {
    var rs := rows;
    ghost var done: set<Coord> := {};
    ShiftedNone(b, d);
    while rs != []
      invariant world.Valid() && world.rows == b.rows && world.cols == b.cols && rs == rows[..|rs|]
      invariant done == CoordsOf(rows[|rs|..])
      invariant Beyond(r, d, done, |rs|)
      invariant Snap(world) == Shifted(b, done, d)
      decreases |rs|
    {
      var row := rs[|rs| - 1];
      rs := rs[..|rs| - 1];
      ghost var t := |rs|;
      assert row == rows[t];
      CoordsOfCons(rows, t);
      RowShaped(b, r, d, rows, t);
      WriteLayerRow(world, b, r, d, t, row, done);
      BeyondGrows(b, r, d, t, row, done);
      done := done + Cells(row);
    }
    assert rows[0..] == rows;
  }

  /** Every cell of s is more than k lines ahead of r. */
  ghost predicate Beyond(r: Coord, d: Direction, s: set<Coord>, k: nat)
  {
    forall c :: c in s ==> Dist(r, d, c) > k
  }

  lemma RowShaped(b: Board, r: Coord, d: Direction, rows: seq<set<(Coord, Entity)>>, t: nat)
    requires b.Valid() && RowsShaped(b, r, d, rows) && t < |rows|
    ensures forall p :: p in rows[t] ==> ShapedCell(b, r, d, t, p)
  {
  }

  lemma BeyondGrows(b: Board, r: Coord, d: Direction, t: nat, row: set<(Coord, Entity)>, done: set<Coord>)
    requires b.Valid() && Vertical(d)
    requires forall p :: p in row ==> ShapedCell(b, r, d, t, p)
    requires Beyond(r, d, done, t + 1)
    ensures Beyond(r, d, done + Cells(row), t)
  {
    forall c | c in Cells(row) ensures Dist(r, d, c) > t {
      var p :| p in row && p.0 == c;
      assert ShapedCell(b, r, d, t, p);
    }
  }

  /** The next cell to write has not moved yet, nor has the cell behind
      it; after it the written cells are one more. */
  lemma LayerWriteStep(b: Board, r: Coord, d: Direction, t: nat, row: set<(Coord, Entity)>,
                       rest: set<(Coord, Entity)>, done: set<Coord>, item: (Coord, Entity))
    requires b.Valid() && Vertical(d) && rest <= row && item in rest
    requires forall p :: p in row ==> ShapedCell(b, r, d, t, p)
    requires Beyond(r, d, done, t + 1)
    ensures ShapedCell(b, r, d, t, item)
    ensures item.0 !in done + Cells(row - rest)
    ensures Next(b, item.0, Opposite(d)).Some? ==> Next(b, item.0, Opposite(d)).value !in done + Cells(row - rest)
    ensures done + Cells(row - (rest - {item})) == done + Cells(row - rest) + {item.0}
  {
    assert ShapedCell(b, r, d, t, item);
    NextBackDist(b, r, d, item.0);
    forall c | c in Cells(row - rest) ensures Dist(r, d, c) == t + 1 && c != item.0 {
      var p :| p in row - rest && p.0 == c;
      assert ShapedCell(b, r, d, t, p);
    }
    assert Cells(row - (rest - {item})) == Cells(row - rest) + {item.0};
  }

  /** The inner write loop for one row of `entity_rows` (its cells t + 1
      lines ahead), the rows further on being written already. */
  method WriteLayerRow(world: Grid<Entity>, ghost b: Board, r: Coord, d: Direction, ghost t: nat,
                       row: set<(Coord, Entity)>, ghost done: set<Coord>)
    requires world.Valid() && b.Valid() && Enclosed(b) && Vertical(d) && b.Inside(r)
    requires world.rows == b.rows && world.cols == b.cols
    requires forall p :: p in row ==> ShapedCell(b, r, d, t, p)
    requires Beyond(r, d, done, t + 1)
    requires Snap(world) == Shifted(b, done, d)
    modifies world
    ensures world.Valid() && world.rows == b.rows && world.cols == b.cols
    ensures Snap(world) == Shifted(b, done + Cells(row), d)
  {
    var rest := row;
    ghost var now := done;
    while rest != {}
      invariant world.Valid() && world.rows == b.rows && world.cols == b.cols && rest <= row
      invariant now == done + Cells(row - rest)
      invariant Snap(world) == Shifted(b, now, d)
      decreases |rest|
    {
      var item :| item in rest;
      var oldPos := item.0;
      var entity := item.1;
      LayerWriteStep(b, r, d, t, row, rest, done, item);
      rest := rest - {item};
      MoveCell(world, b, d, now, oldPos, entity);
      now := now + {oldPos};
    }
    assert row - rest == row;
  }

  /** One write of the inner loop: the entity at oldPos goes one step on,
      and oldPos is freed. */
  method MoveCell(world: Grid<Entity>, ghost b: Board, d: Direction, ghost now: set<Coord>, oldPos: Coord, entity: Entity)
    requires world.Valid() && b.Valid() && Enclosed(b) && world.rows == b.rows && world.cols == b.cols
    requires b.Inside(oldPos) && IsHalf(entity) && entity == b.Cell(oldPos)
    requires oldPos !in now
    requires Next(b, oldPos, Opposite(d)).Some? ==> Next(b, oldPos, Opposite(d)).value !in now
    requires Snap(world) == Shifted(b, now, d)
    modifies world
    ensures world.Valid() && world.rows == b.rows && world.cols == b.cols
    ensures Snap(world) == Shifted(b, now + {oldPos}, d)
  {
    NotWallHasRoom(b, oldPos, d);
    NextIsTransform(b, oldPos, d);
    var newPos := DirVec(d).TransformCoord(oldPos, world.Size()).value;
    LinearInBounds(newPos, world.rows, world.cols);
    world.Set(newPos, entity);
    LinearInBounds(oldPos, world.rows, world.cols);
    world.Set(oldPos, Vacant);
    ShiftOneMore(b, now, oldPos, newPos, d);
  }

  lemma CoordsOfCons(rows: seq<set<(Coord, Entity)>>, t: nat)
    requires t < |rows|
    ensures CoordsOf(rows[t..]) == Cells(rows[t]) + CoordsOf(rows[t + 1..])
  {
    var a := rows[t..];
    var a' := rows[t + 1..];
    forall c | c in CoordsOf(a) ensures c in Cells(rows[t]) + CoordsOf(a') {
      var u: int, p: (Coord, Entity) :| 0 <= u < |a| && p in a[u] && p.0 == c;
      if u > 0 {
        assert p in a'[u - 1];
      }
    }
    forall c | c in Cells(rows[t]) + CoordsOf(a') ensures c in CoordsOf(a) {
      if c in Cells(rows[t]) {
        var p :| p in rows[t] && p.0 == c;
        assert p in a[0];
      } else {
        var u: int, p: (Coord, Entity) :| 0 <= u < |a'| && p in a'[u] && p.0 == c;
        assert p in a[u + 1];
      }
    }
  }

  /** The cell behind c is one line nearer the robot. */
  lemma NextBackDist(b: Board, r: Coord, d: Direction, c: Coord)
    requires Vertical(d)
    ensures Next(b, c, Opposite(d)).Some? ==> Dist(r, d, Next(b, c, Opposite(d)).value) == Dist(r, d, c) - 1
  {
  }

  /** Shifting nothing changes nothing. */
  lemma ShiftedNone(b: Board, d: Direction)
    requires b.Valid()
    ensures Shifted(b, {}, d) == b
  {
    forall c | b.Inside(c) ensures Shifted(b, {}, d).Cell(c) == b.Cell(c) {
    }
    BoardsEqual(Shifted(b, {}, d), b);
  }

  /** Moving one more cell p to q, when neither p nor the cell behind it
      has moved yet, extends the shift by p. */
  lemma ShiftOneMore(b: Board, done: set<Coord>, p: Coord, q: Coord, d: Direction)
    requires b.Valid() && b.Inside(p) && Next(b, p, d) == Some(q) && p !in done
    requires Next(b, p, Opposite(d)).None? || Next(b, p, Opposite(d)).value !in done
    ensures Shifted(b, done, d).Put(q, b.Cell(p)).Put(p, Vacant) == Shifted(b, done + {p}, d)
  {
    var s := Shifted(b, done, d);
    var w := s.Put(q, b.Cell(p)).Put(p, Vacant);
    var s' := Shifted(b, done + {p}, d);
    NextBack(b, p, q, d);
    forall c | b.Inside(c) ensures w.Cell(c) == s'.Cell(c) {
      PutCell(s, q, b.Cell(p), c);
      PutCell(s.Put(q, b.Cell(p)), p, Vacant, c);
      var back := Next(b, c, Opposite(d));
      if back.Some? && back.value == p {
        NextBack(b, p, c, d);
      }
    }
    BoardsEqual(w, s');
  }

  /** The robot's writes after the layers complete the shift. */
  lemma ShiftRobotLast(b: Board, m: set<Coord>, r: Coord, n: Coord, d: Direction)
    requires b.Valid() && b.Inside(r) && Next(b, r, d) == Some(n) && r !in m && b.Cell(r) == Robot
    requires Next(b, r, Opposite(d)).None? || Next(b, r, Opposite(d)).value !in m
    ensures Shifted(b, m, d).Put(r, Vacant).Put(n, Robot) == Shifted(b, m + {r}, d)
  {
    var s := Shifted(b, m, d);
    var w := s.Put(r, Vacant).Put(n, Robot);
    var s' := Shifted(b, m + {r}, d);
    NextBack(b, r, n, d);
    forall c | b.Inside(c) ensures w.Cell(c) == s'.Cell(c) {
      PutCell(s, r, Vacant, c);
      PutCell(s.Put(r, Vacant), n, Robot, c);
      var back := Next(b, c, Opposite(d));
      if back.Some? && back.value == r {
        NextBack(b, r, c, d);
      }
    }
    BoardsEqual(w, s');
  }

  // ---------------------------------------------------------------------
  // The whole run

  /** `simulate_robot`: the moves one after the other, each checked to be
      one of `^ v < >` (the `unreachable!`) and made from where the robot
      stands (the `assert!`). */
  method SimulateRobot(world: Grid<Entity>, robotPos: Coord, moves: seq<byte>)
    requires world.Valid() && Warehouse(Snap(world), robotPos) && AllMoves(moves)
    modifies world
    ensures world.Valid() && Snap(world) == Simulate(old(Snap(world)), robotPos, moves).0
  {
    ghost var b0 := Snap(world);
    var pos := robotPos;
    for i := 0 to |moves|
      invariant world.Valid() && Warehouse(Snap(world), pos)
      invariant (Snap(world), pos) == Simulate(b0, robotPos, moves[..i])
    {
      assert Snap(world).Cell(pos) == Robot;
      var d := MoveDir(moves[i]);
      ghost var before := moves[..i];
      pos := MoveRobot(world, pos, d);
      assert moves[..i + 1][..i] == before;
      MoveKeepsWarehouse(Simulate(b0, robotPos, before).0, Simulate(b0, robotPos, before).1, d);
    }
    assert moves[..|moves|] == moves;
  }

  /** The sum of `main`: `i * 100 + j` over the cells (i, j) holding e,
      taken in the order of `indexed_iter`. */
  method GpsSum(world: Grid<Entity>, e: Entity) returns (sum: nat)
    requires world.Valid() && world.cols > 0
    ensures sum == Gps(Snap(world), e)
  {
    var it := world.IndexedIter();
    sum := 0;
    ghost var n := 0;
    while true
      invariant it.Valid() && it.grid == world && n <= |world.data|
      invariant it.Remaining() == world.RowMajor()[n..]
      invariant sum == GpsUpTo(world.data, world.cols, e, n)
      decreases |world.data| - n
    {
      var next := it.Next();
      if next.None? {
        RowMajorEntry(world, n);
        break;
      }
      RowMajorEntry(world, n);
      var c, entity := next.value.0, next.value.1;
      GpsStep(world.data, world.cols, e, n, c);
      if entity == e {
        sum := sum + c.0 * 100 + c.1;
      }
      n := n + 1;
    }
  }

  /** Entry n of the row-major listing, and the sum one entry further. */
  lemma RowMajorEntry(world: Grid<Entity>, n: nat)
    requires world.Valid() && world.cols > 0 && n <= |world.data|
    ensures |world.RowMajor()| == |world.data|
    ensures n < |world.data| ==> world.RowMajor()[n] == (CoordAt(n, world.cols), world.data[n])
    ensures n < |world.data| ==> world.RowMajor()[n..][1..] == world.RowMajor()[n + 1..]
  {
  }

  /** One more cell of the sum, at coordinate c. */
  lemma GpsStep(cells: seq<Entity>, cols: nat, e: Entity, n: nat, c: Coord)
    requires cols > 0 && n < |cells| && c == CoordAt(n, cols)
    ensures GpsUpTo(cells, cols, e, n + 1) == GpsUpTo(cells, cols, e, n) + (if cells[n] == e then c.0 * 100 + c.1 else 0)
  {
  }

  /** The first star: the GPS sum of the boxes once the moves are made on
      the map. */
  ghost function Star1(lines: seq<seq<byte>>, moves: seq<byte>): nat
    requires Rectangular(lines) && NarrowMap(lines) && WalledMap(lines) && SingleRobot(lines) && HasRobot(lines)
    requires AllMoves(moves)
  {
    NarrowPuzzle(lines);
    var start := Parsed(lines);
    Gps(Simulate(start.0, start.1, moves).0, Box)
  }

  /** The second star: the GPS sum of the left halves of the boxes once the
      moves are made on the widened map. */
  ghost function Star2(lines: seq<seq<byte>>, moves: seq<byte>): nat
    requires Rectangular(lines) && NarrowMap(lines) && WalledMap(lines) && SingleRobot(lines) && HasRobot(lines)
    requires AllMoves(moves)
  {
    NarrowPuzzle(lines);
    var start := Parsed(TransformMapToWide(lines));
    Gps(Simulate(start.0, start.1, moves).0, WideBoxLeft)
  }

  /** `main` after the input is split into the map and the moves. */
  method Stars(lines: seq<seq<byte>>, moves: seq<byte>) returns (star1: nat, star2: nat)
    requires Rectangular(lines) && NarrowMap(lines) && WalledMap(lines) && SingleRobot(lines) && HasRobot(lines)
    requires AllMoves(moves)
    ensures star1 == Star1(lines, moves)
    ensures star2 == Star2(lines, moves)
  {
    NarrowPuzzle(lines);
    star1 := RunMap(lines, moves, Box);
    var wide := TransformMapToWide(lines);
    WideMapShape(lines);
    star2 := RunMap(wide, moves, WideBoxLeft);
  }

  /** Parse a puzzle map, run the moves on it and sum the GPS coordinates
      of the cells holding e. */
  method RunMap(lines: seq<seq<byte>>, moves: seq<byte>, e: Entity) returns (sum: nat)
    requires PuzzleMap(lines) && AllMoves(moves)
    ensures sum == Gps(Simulate(Parsed(lines).0, Parsed(lines).1, moves).0, e)
  {
    var parsed := ParseMap(lines);
    if parsed.Err? {
      assert false;
    } else {
      var world, robotPos := parsed.value.0, parsed.value.1;
      ParsedUnique(lines, world.data, robotPos);
      SimulateRobot(world, robotPos, moves);
      sum := GpsSum(world, e);
    }
  }
}
