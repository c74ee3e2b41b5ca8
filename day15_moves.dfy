/** Day 15, the rules: what one move of the robot does to the warehouse,
    stated on values, and the invariants every move keeps
    (src/bin/day15/main.rs:102-250). Day15Robot proves that the Rust
    procedure `simulate_robot` follows these rules. */
module Day15Moves {
  import opened Utils
  import opened Day15

  // ---------------------------------------------------------------------
  // Boards

  /** A row-major grid of entities. */
  datatype Board = Board(cells: seq<Entity>, rows: nat, cols: nat)
  {
    ghost predicate Valid()
    {
      |cells| == rows * cols
    }

    predicate Inside(c: Coord)
    {
      c.0 < rows && c.1 < cols
    }

    ghost function Cell(c: Coord): Entity
      requires Valid() && Inside(c)
    {
      LinearInBounds(c, rows, cols);
      cells[Linear(c, cols)]
    }

    /** The board with cell c set to e (`Grid::set`). */
    ghost function Put(c: Coord, e: Entity): (r: Board)
      requires Valid() && Inside(c)
      ensures r.Valid() && r.rows == rows && r.cols == cols
    {
      LinearInBounds(c, rows, cols);
      Board(cells[Linear(c, cols) := e], rows, cols)
    }
  }

  /** Put changes the one cell it names. */
  lemma PutCell(b: Board, c: Coord, e: Entity, c': Coord)
    requires b.Valid() && b.Inside(c) && b.Inside(c')
    ensures b.Put(c, e).Cell(c') == if c' == c then e else b.Cell(c')
  {
    UpdateChangesOneCell(b.cells, b.rows, b.cols, c, e, c');
  }

  /** Two boards of one size that agree on every cell are equal. */
  lemma BoardsEqual(b: Board, b': Board)
    requires b.Valid() && b'.Valid() && b.rows == b'.rows && b.cols == b'.cols
    requires forall c :: b.Inside(c) ==> b.Cell(c) == b'.Cell(c)
    ensures b == b'
  {
    forall i | 0 <= i < |b.cells|
      ensures b.cells[i] == b'.cells[i]
    {
      CoordAtInBounds(i, b.rows, b.cols);
      assert b.Cell(CoordAt(i, b.cols)) == b'.Cell(CoordAt(i, b.cols));
    }
  }

  /** The neighbour of p in direction d inside the board, or None at its
      edge; NextIsTransform shows this is what `transform_coord` computes. */
  function Next(b: Board, p: Coord, d: Direction): (r: Option<Coord>)
    ensures r.Some? ==> b.Inside(r.value)
  {
    if !b.Inside(p) then None
    else
      match d
      case Up => if p.0 == 0 then None else Some((p.0 - 1, p.1))
      case Down => if p.0 + 1 == b.rows then None else Some((p.0 + 1, p.1))
      case Left => if p.1 == 0 then None else Some((p.0, p.1 - 1))
      case Right => if p.1 + 1 == b.cols then None else Some((p.0, p.1 + 1))
  }

  lemma NextIsTransform(b: Board, p: Coord, d: Direction)
    requires b.Inside(p)
    ensures Next(b, p, d) == DirVec(d).TransformCoord(p, (b.rows, b.cols))
  {
  }

  /** Stepping back undoes a step. */
  lemma NextBack(b: Board, p: Coord, q: Coord, d: Direction)
    ensures Next(b, p, d) == Some(q) <==> b.Inside(p) && Next(b, q, Opposite(d)) == Some(p)
  {
  }

  predicate Vertical(d: Direction)
  {
    d == Up || d == Down
  }

  predicate IsHalf(e: Entity)
  {
    e == WideBoxLeft || e == WideBoxRight
  }

  /** Cells on the border of the board. */
  predicate OnBorder(b: Board, c: Coord)
  {
    c.0 == 0 || c.0 + 1 == b.rows || c.1 == 0 || c.1 + 1 == b.cols
  }

  /** The warehouse is walled in: every border cell is a wall. */
  ghost predicate Enclosed(b: Board)
    requires b.Valid()
  {
    forall c :: b.Inside(c) && OnBorder(b, c) ==> b.Cell(c) == Wall
  }

  /** Two-cell boxes are whole: `[` has `]` to its right and `]` has `[`
      to its left. */
  ghost predicate Paired(b: Board)
    requires b.Valid()
  {
    forall c: Coord {:trigger PairedAt(b, c)} :: b.Inside(c) ==> PairedAt(b, c)
  }

  /** The half at c, if any, has its other half beside it. */
  ghost predicate PairedAt(b: Board, c: Coord)
    requires b.Valid() && b.Inside(c)
  {
    (b.Cell(c) == WideBoxLeft ==> c.1 + 1 < b.cols && b.Cell((c.0, c.1 + 1)) == WideBoxRight)
    && (b.Cell(c) == WideBoxRight ==> 0 < c.1 && b.Cell((c.0, c.1 - 1)) == WideBoxLeft)
  }

  /** A cell that is not a wall is off the border of a walled-in board, so
      it has a neighbour in every direction. */

  // ---------------------------------------------------------------------
  // Rays

  /** k steps from p in direction d stay at non-negative coordinates. */
  predicate Reach(p: Coord, d: Direction, k: nat)
  {
    (d == Up ==> k <= p.0) && (d == Left ==> k <= p.1)
  }

  /** The cell k steps from p in direction d. */
  function Ahead(p: Coord, d: Direction, k: nat): Coord
    requires Reach(p, d, k)
  {
    match d
    case Up => (p.0 - k, p.1)
    case Down => (p.0 + k, p.1)
    case Left => (p.0, p.1 - k)
    case Right => (p.0, p.1 + k)
  }

  /** How many steps from p the border is in direction d. */
  function Room(b: Board, p: Coord, d: Direction): nat
    requires b.Inside(p)
  {
    match d
    case Up => p.0
    case Down => b.rows - 1 - p.0
    case Left => p.1
    case Right => b.cols - 1 - p.1
  }

  /** Along a ray, `transform_coord` steps to the next cell until the border. */
  lemma AheadNext(b: Board, p: Coord, d: Direction, k: nat)
    requires b.Inside(p) && k <= Room(b, p, d)
    ensures Reach(p, d, k) && b.Inside(Ahead(p, d, k))
    ensures k < Room(b, p, d) ==> Reach(p, d, k + 1) && Next(b, Ahead(p, d, k), d) == Some(Ahead(p, d, k + 1))
    ensures k == Room(b, p, d) ==> OnBorder(b, Ahead(p, d, k))
  {
  }

  /** A cell that is not a wall is off the border of a walled-in board, so
      it has a neighbour in every direction. */
  lemma NotWallHasRoom(b: Board, p: Coord, d: Direction)
    requires b.Valid() && Enclosed(b) && b.Inside(p) && b.Cell(p) != Wall
    ensures 1 <= Room(b, p, d) && Reach(p, d, 1) && Next(b, p, d) == Some(Ahead(p, d, 1))
  {
    assert !OnBorder(b, p);
  }

  /** A free or walled cell ends a run of pushed things. */
  predicate Stop(e: Entity)
  {
    e == Vacant || e == Wall
  }

  /** The first i' >= i with a free or walled cell i' steps ahead of p:
      where the loops of the pushes stop. On a walled-in board the border
      is reached at the latest. */
  ghost function FirstStop(b: Board, p: Coord, d: Direction, i: nat): (r: nat)
    requires b.Valid() && Enclosed(b) && b.Inside(p) && i <= Room(b, p, d)
    ensures i <= r <= Room(b, p, d) && Reach(p, d, r) && b.Inside(Ahead(p, d, r))
    ensures Stop(b.Cell(Ahead(p, d, r)))
    ensures forall j :: i <= j < r ==> Reach(p, d, j) && b.Inside(Ahead(p, d, j)) && !Stop(b.Cell(Ahead(p, d, j)))
    decreases Room(b, p, d) - i
  {
    AheadNext(b, p, d, i);
    if Stop(b.Cell(Ahead(p, d, i))) then i
    else
      FirstStop(b, p, d, i + 1)
  }

  /** A loop standing at a free or walled cell has found the first one. */
  lemma StopHere(b: Board, p: Coord, d: Direction, i: nat)
    requires b.Valid() && Enclosed(b) && b.Inside(p) && i <= Room(b, p, d)
    requires Reach(p, d, i) && b.Inside(Ahead(p, d, i)) && Stop(b.Cell(Ahead(p, d, i)))
    ensures FirstStop(b, p, d, i) == i
  {
  }

  /** A loop standing at a box goes on looking one step further. */
  lemma StopLater(b: Board, p: Coord, d: Direction, i: nat)
    requires b.Valid() && Enclosed(b) && b.Inside(p) && i <= Room(b, p, d)
    requires Reach(p, d, i) && b.Inside(Ahead(p, d, i)) && !Stop(b.Cell(Ahead(p, d, i)))
    ensures i < Room(b, p, d) && FirstStop(b, p, d, i) == FirstStop(b, p, d, i + 1)
  {
  }

  // ---------------------------------------------------------------------
  // Shifting a set of cells one step

  /** The cell c after every cell of m moved one step in direction d: it
      receives what was behind it if that moved, is left free if its own
      content moved away, and is unchanged otherwise. */
  ghost function ShiftedCell(b: Board, m: set<Coord>, d: Direction, c: Coord): Entity
    requires b.Valid() && b.Inside(c)
  {
    match Next(b, c, Opposite(d))
    case Some(q) => if q in m then b.Cell(q) else if c in m then Vacant else b.Cell(c)
    case None => if c in m then Vacant else b.Cell(c)
  }

  /** The board after every cell of m moved one step in direction d. */
  ghost function Shifted(b: Board, m: set<Coord>, d: Direction): (r: Board)
    requires b.Valid()
    ensures r.Valid() && r.rows == b.rows && r.cols == b.cols
    ensures forall c :: b.Inside(c) ==> r.Cell(c) == ShiftedCell(b, m, d, c)
  {
    var r := Board(seq(|b.cells|, i requires 0 <= i < |b.cells| =>
                         CoordAtInBounds(i, b.rows, b.cols); ShiftedCell(b, m, d, CoordAt(i, b.cols))),
                   b.rows, b.cols);
    assert forall c :: b.Inside(c) ==> r.Cell(c) == ShiftedCell(b, m, d, c) by {
      forall c | b.Inside(c)
        ensures r.Cell(c) == ShiftedCell(b, m, d, c)
      {
        LinearInBounds(c, b.rows, b.cols);
      }
    }
    r
  }

  /** What a cell p of m needs for the shift to be a move: p is no wall and
      has a neighbour q ahead; q is no wall; if q holds half a box it moves
      too; and the other half of a box at p moves with it. */
  ghost predicate MovesWith(b: Board, m: set<Coord>, d: Direction, p: Coord)
    requires b.Valid()
  {
    b.Inside(p) && b.Cell(p) != Wall
    && Next(b, p, d).Some? && b.Inside(Next(b, p, d).value)
    && b.Cell(Next(b, p, d).value) != Wall
    && (IsHalf(b.Cell(Next(b, p, d).value)) ==> Next(b, p, d).value in m)
    && (b.Cell(p) == WideBoxLeft ==> (p.0, p.1 + 1) in m)
    && (b.Cell(p) == WideBoxRight ==> 0 < p.1 && (p.0, p.1 - 1) in m)
  }

  ghost predicate ShiftOk(b: Board, m: set<Coord>, d: Direction)
    requires b.Valid()
  {
    forall p :: p in m ==> MovesWith(b, m, d, p)
  }

  /** A shift that is a move writes no wall and removes none. */
  lemma ShiftKeepsWalls(b: Board, m: set<Coord>, d: Direction, c: Coord)
    requires b.Valid() && ShiftOk(b, m, d) && b.Inside(c)
    ensures Shifted(b, m, d).Cell(c) == Wall <==> b.Cell(c) == Wall
  {
    match Next(b, c, Opposite(d))
    case Some(q) =>
      if q in m {
        assert MovesWith(b, m, d, q);
        NextBack(b, q, c, d);
        assert Next(b, q, d) == Some(c);
      } else if c in m {
        assert MovesWith(b, m, d, c);
      }
    case None =>
      if c in m {
        assert MovesWith(b, m, d, c);
      }
  }

  /** What a cell p of m becomes the content of after its shift. */
  lemma ShiftedTarget(b: Board, m: set<Coord>, d: Direction, p: Coord)
    requires b.Valid() && p in m && MovesWith(b, m, d, p)
    ensures ShiftedCell(b, m, d, Next(b, p, d).value) == b.Cell(p)
  {
    var q := Next(b, p, d).value;
    NextBack(b, p, q, d);
    assert Next(b, q, Opposite(d)) == Some(p);
  }

  /** A shift that is a move keeps boxes whole: it moves both halves of a
      box or neither, and never lands on a half that stays. */
  lemma ShiftKeepsPairs(b: Board, m: set<Coord>, d: Direction)
    requires b.Valid() && ShiftOk(b, m, d) && Paired(b)
    ensures Paired(Shifted(b, m, d))
  {
    var r := Shifted(b, m, d);
    forall c: Coord | b.Inside(c)
      ensures r.Cell(c) == WideBoxLeft ==> c.1 + 1 < b.cols && r.Cell((c.0, c.1 + 1)) == WideBoxRight
      ensures r.Cell(c) == WideBoxRight ==> 0 < c.1 && r.Cell((c.0, c.1 - 1)) == WideBoxLeft
    {
      if r.Cell(c) == WideBoxLeft {
        LeftStaysPaired(b, m, d, c);
      }
      if r.Cell(c) == WideBoxRight {
        RightStaysPaired(b, m, d, c);
      }
    }
  }

  lemma LeftStaysPaired(b: Board, m: set<Coord>, d: Direction, c: Coord)
    requires b.Valid() && ShiftOk(b, m, d) && Paired(b) && b.Inside(c)
    requires ShiftedCell(b, m, d, c) == WideBoxLeft
    ensures c.1 + 1 < b.cols && ShiftedCell(b, m, d, (c.0, c.1 + 1)) == WideBoxRight
  {
    var back := Next(b, c, Opposite(d));
    if back.Some? && back.value in m {
      // the `[` came from q; its `]` next to q moved along to c'
      var q := back.value;
      assert MovesWith(b, m, d, q);
      assert b.Cell(q) == WideBoxLeft && PairedAt(b, q);
      var q': Coord := (q.0, q.1 + 1);
      assert b.Cell(q') == WideBoxRight;
      NextBack(b, q, c, d);
      MovedRight(b, m, d, q, c);
    } else {
      assert c !in m && PairedAt(b, c);
      var c': Coord := (c.0, c.1 + 1);
      assert c'.1 < b.cols && b.Cell(c') == WideBoxRight;
      StayingLeft(b, m, d, c);
    }
  }

  /** A `[` moved from q to c: its `]` moved from next to q to next to c. */
  lemma MovedRight(b: Board, m: set<Coord>, d: Direction, q: Coord, c: Coord)
    requires b.Valid() && ShiftOk(b, m, d)
    requires q in m && b.Inside(q) && b.Cell(q) == WideBoxLeft && Next(b, q, d) == Some(c)
    requires q.1 + 1 < b.cols && b.Cell((q.0, q.1 + 1)) == WideBoxRight
    ensures c.1 + 1 < b.cols && ShiftedCell(b, m, d, (c.0, c.1 + 1)) == WideBoxRight
  {
    var q': Coord := (q.0, q.1 + 1);
    assert MovesWith(b, m, d, q);
    assert q' in m;
    assert MovesWith(b, m, d, q');
    assert Next(b, q', d) == Some((c.0, c.1 + 1));
    ShiftedTarget(b, m, d, q');
  }

  /** A `[` that stayed where it was: its `]` stayed too. */
  lemma StayingLeft(b: Board, m: set<Coord>, d: Direction, c: Coord)
    requires b.Valid() && ShiftOk(b, m, d) && b.Inside(c)
    requires c !in m && b.Cell(c) == WideBoxLeft
    requires c.1 + 1 < b.cols && b.Cell((c.0, c.1 + 1)) == WideBoxRight
    ensures ShiftedCell(b, m, d, (c.0, c.1 + 1)) == WideBoxRight
  {
    var c': Coord := (c.0, c.1 + 1);
    if c' in m {
      assert false;
    }
    var back := Next(b, c', Opposite(d));
    if back.Some? && back.value in m {
      // something moved onto the `]`, which it may only do if the `]` moved
      var q := back.value;
      NextBack(b, q, c', d);
      assert false;
    }
  }

  lemma RightStaysPaired(b: Board, m: set<Coord>, d: Direction, c: Coord)
    requires b.Valid() && ShiftOk(b, m, d) && Paired(b) && b.Inside(c)
    requires ShiftedCell(b, m, d, c) == WideBoxRight
    ensures 0 < c.1 && ShiftedCell(b, m, d, (c.0, c.1 - 1)) == WideBoxLeft
  {
    var back := Next(b, c, Opposite(d));
    if back.Some? && back.value in m {
      var q := back.value;
      assert MovesWith(b, m, d, q);
      assert b.Cell(q) == WideBoxRight && PairedAt(b, q);
      var q': Coord := (q.0, q.1 - 1);
      assert 0 < q.1 && b.Cell(q') == WideBoxLeft;
      NextBack(b, q, c, d);
      MovedLeft(b, m, d, q, c);
    } else {
      assert c !in m && PairedAt(b, c);
      assert 0 < c.1 && b.Cell((c.0, c.1 - 1)) == WideBoxLeft;
      StayingRight(b, m, d, c);
    }
  }

  /** A `]` moved from q to c: its `[` moved from next to q to next to c. */
  lemma MovedLeft(b: Board, m: set<Coord>, d: Direction, q: Coord, c: Coord)
    requires b.Valid() && ShiftOk(b, m, d)
    requires q in m && b.Inside(q) && b.Cell(q) == WideBoxRight && Next(b, q, d) == Some(c)
    requires 0 < q.1 && b.Cell((q.0, q.1 - 1)) == WideBoxLeft
    ensures 0 < c.1 && ShiftedCell(b, m, d, (c.0, c.1 - 1)) == WideBoxLeft
  {
    var q': Coord := (q.0, q.1 - 1);
    assert MovesWith(b, m, d, q);
    assert q' in m;
    assert MovesWith(b, m, d, q');
    assert 0 < c.1 && Next(b, q', d) == Some((c.0, c.1 - 1));
    ShiftedTarget(b, m, d, q');
  }

  /** A `]` that stayed where it was: its `[` stayed too. */
  lemma StayingRight(b: Board, m: set<Coord>, d: Direction, c: Coord)
    requires b.Valid() && ShiftOk(b, m, d) && b.Inside(c)
    requires c !in m && b.Cell(c) == WideBoxRight
    requires 0 < c.1 && b.Cell((c.0, c.1 - 1)) == WideBoxLeft
    ensures ShiftedCell(b, m, d, (c.0, c.1 - 1)) == WideBoxLeft
  {
    var c': Coord := (c.0, c.1 - 1);
    if c' in m {
      assert false;
    }
    var back := Next(b, c', Opposite(d));
    if back.Some? && back.value in m {
      var q := back.value;
      NextBack(b, q, c', d);
      assert false;
    }
  }

  // ---------------------------------------------------------------------
  // The warehouse invariant

  /** Exactly one robot, at r. */
  ghost predicate OneRobot(b: Board, r: Coord)
    requires b.Valid()
  {
    b.Inside(r) && b.Cell(r) == Robot
    && forall c :: b.Inside(c) && c != r ==> b.Cell(c) != Robot
  }

  /** What holds before every move of `simulate_robot`: a walled-in board
      of whole boxes with its one robot at r, where the Rust asserts it is. */
  ghost predicate Warehouse(b: Board, r: Coord)
  {
    b.Valid() && Enclosed(b) && Paired(b) && OneRobot(b, r)
  }

  /** b' has the size of b and its walls exactly where b has them. */
  ghost predicate SameWalls(b: Board, b': Board)
  {
    b.Valid() && b'.Valid() && b'.rows == b.rows && b'.cols == b.cols
    && forall c :: b.Inside(c) ==> (b'.Cell(c) == Wall <==> b.Cell(c) == Wall)
  }

  lemma SameWallsTrans(b: Board, b': Board, b'': Board)
    requires SameWalls(b, b') && SameWalls(b', b'')
    ensures SameWalls(b, b'')
  {
  }

  lemma SameWallsEnclosed(b: Board, b': Board)
    requires SameWalls(b, b') && Enclosed(b)
    ensures Enclosed(b')
  {
  }

  /** The cell the robot tries to step into: there is one, since the robot
      is no wall and so off the border. */
  ghost function Front(b: Board, r: Coord, d: Direction): (n: Coord)
    requires Warehouse(b, r)
    ensures b.Inside(n) && n != r && Next(b, r, d) == Some(n) && Reach(r, d, 1) && n == Ahead(r, d, 1)
  {
    NotWallHasRoom(b, r, d);
    Next(b, r, d).value
  }

  /** Writing over a cell that is no wall something that is no wall keeps
      the walls. */
  lemma PutKeepsWalls(b: Board, c: Coord, e: Entity)
    requires b.Valid() && b.Inside(c) && b.Cell(c) != Wall && e != Wall
    ensures SameWalls(b, b.Put(c, e))
  {
    forall c' | b.Inside(c')
      ensures b.Put(c, e).Cell(c') == Wall <==> b.Cell(c') == Wall
    {
      PutCell(b, c, e, c');
    }
  }

  /** Writing over a cell that is no half something that is no half keeps
      boxes whole. */
  lemma PutKeepsPaired(b: Board, c: Coord, e: Entity)
    requires b.Valid() && Paired(b) && b.Inside(c) && !IsHalf(b.Cell(c)) && !IsHalf(e)
    ensures Paired(b.Put(c, e))
  {
    var r := b.Put(c, e);
    forall c': Coord | b.Inside(c')
      ensures PairedAt(r, c')
    {
      assert PairedAt(b, c');
      PutCell(b, c, e, c');
      if r.Cell(c') == WideBoxLeft {
        PutCell(b, c, e, (c'.0, c'.1 + 1));
      }
      if r.Cell(c') == WideBoxRight {
        PutCell(b, c, e, (c'.0, c'.1 - 1));
      }
    }
  }

  /** Writing no robot away from the robot keeps it the only one. */
  lemma PutKeepsRobot(b: Board, r: Coord, c: Coord, e: Entity)
    requires b.Valid() && OneRobot(b, r) && b.Inside(c) && c != r && e != Robot
    ensures OneRobot(b.Put(c, e), r)
  {
    forall c' | b.Inside(c')
      ensures b.Put(c, e).Cell(c') == if c' == c then e else b.Cell(c')
    {
      PutCell(b, c, e, c');
    }
  }

  /** Writing the robot at n and a free cell where it was moves it. */
  lemma PutMovesRobot(b: Board, r: Coord, n: Coord)
    requires b.Valid() && OneRobot(b, r) && b.Inside(n) && n != r
    ensures OneRobot(b.Put(n, Robot).Put(r, Vacant), n)
  {
    var b' := b.Put(n, Robot).Put(r, Vacant);
    forall c' | b.Inside(c')
      ensures b'.Cell(c') == if c' == r then Vacant else if c' == n then Robot else b.Cell(c')
    {
      PutCell(b, n, Robot, c');
      PutCell(b.Put(n, Robot), r, Vacant, c');
    }
  }

  /** The robot at r steps to its free neighbour n, after f (which is n
      itself or a free cell) got what n held. */
  lemma StepWarehouse(b: Board, r: Coord, n: Coord, f: Coord, e: Entity)
    requires Warehouse(b, r) && b.Inside(n) && b.Inside(f) && n != r && f != r
    requires b.Cell(n) == Vacant || b.Cell(n) == Box
    requires b.Cell(f) == Vacant && (f == n <==> b.Cell(n) == Vacant) && e == b.Cell(n)
    ensures Warehouse(b.Put(f, e).Put(n, Robot).Put(r, Vacant), n)
    ensures SameWalls(b, b.Put(f, e).Put(n, Robot).Put(r, Vacant))
  {
    var b1 := b.Put(f, e);
    var b2 := b1.Put(n, Robot);
    var b3 := b2.Put(r, Vacant);
    PutKeepsWalls(b, f, e);
    PutCell(b, f, e, n);
    PutCell(b, f, e, r);
    PutKeepsWalls(b1, n, Robot);
    PutCell(b1, n, Robot, r);
    PutKeepsWalls(b2, r, Vacant);
    SameWallsTrans(b, b1, b2);
    SameWallsTrans(b, b2, b3);
    SameWallsEnclosed(b, b3);
    PutKeepsPaired(b, f, e);
    PutKeepsPaired(b1, n, Robot);
    PutKeepsPaired(b2, r, Vacant);
    PutKeepsRobot(b, r, f, e);
    PutMovesRobot(b1, r, n);
  }

  /** A shift that is a move and carries the robot along moves it one
      step and keeps the warehouse. */
  lemma ShiftWarehouse(b: Board, r: Coord, d: Direction, m: set<Coord>)
    requires Warehouse(b, r) && ShiftOk(b, m, d) && r in m
    ensures Warehouse(Shifted(b, m, d), Front(b, r, d))
    ensures SameWalls(b, Shifted(b, m, d))
  {
    var b' := Shifted(b, m, d);
    forall c | b.Inside(c)
      ensures b'.Cell(c) == Wall <==> b.Cell(c) == Wall
    {
      ShiftKeepsWalls(b, m, d, c);
    }
    SameWallsEnclosed(b, b');
    ShiftKeepsPairs(b, m, d);
    ShiftMovesRobot(b, r, d, m);
  }

  /** The robot moved by a shift is the only robot, one step ahead. */
  lemma ShiftMovesRobot(b: Board, r: Coord, d: Direction, m: set<Coord>)
    requires Warehouse(b, r) && ShiftOk(b, m, d) && r in m
    ensures OneRobot(Shifted(b, m, d), Front(b, r, d))
  {
    var n := Front(b, r, d);
    assert MovesWith(b, m, d, r);
    ShiftedTarget(b, m, d, r);
    forall c | b.Inside(c) && c != n
      ensures ShiftedCell(b, m, d, c) != Robot
    {
      var back := Next(b, c, Opposite(d));
      if back.Some? && back.value in m {
        NextBack(b, back.value, c, d);
      }
    }
  }

  // ---------------------------------------------------------------------
  // A row of things pushed sideways

  /** The cells 0 .. k - 1 steps ahead of p. */
  function Run(p: Coord, d: Direction, k: nat): set<Coord>
  {
    set i: nat | i < k && Reach(p, d, i) :: Ahead(p, d, i)
  }

  /** What the loops over a row of pushed things stop at: the first free or
      walled cell k steps ahead of the robot. */
  ghost predicate RunTo(b: Board, r: Coord, d: Direction, k: nat)
    requires b.Valid()
  {
    b.Inside(r) && 1 <= k <= Room(b, r, d) && Reach(r, d, k) && b.Inside(Ahead(r, d, k))
    && Stop(b.Cell(Ahead(r, d, k)))
    && forall j :: 1 <= j < k ==> Reach(r, d, j) && b.Inside(Ahead(r, d, j)) && !Stop(b.Cell(Ahead(r, d, j)))
  }

  /** Pushing a row of things sideways into a free cell is a move. */
  lemma RunShiftOk(b: Board, r: Coord, d: Direction, k: nat)
    requires Warehouse(b, r) && !Vertical(d) && RunTo(b, r, d, k) && b.Cell(Ahead(r, d, k)) == Vacant
    ensures ShiftOk(b, Run(r, d, k), d)
  {
    forall p | p in Run(r, d, k)
      ensures MovesWith(b, Run(r, d, k), d, p)
    {
      var i :| 0 <= i < k && Reach(r, d, i) && p == Ahead(r, d, i);
      RunStep(b, r, d, k, i);
    }
  }

  lemma RunStep(b: Board, r: Coord, d: Direction, k: nat, i: nat)
    requires b.Valid() && Paired(b) && b.Inside(r) && b.Cell(r) == Robot && !Vertical(d)
    requires RunTo(b, r, d, k) && b.Cell(Ahead(r, d, k)) == Vacant && i < k
    ensures Reach(r, d, i) && MovesWith(b, Run(r, d, k), d, Ahead(r, d, i))
  {
    AheadNext(b, r, d, i);
    var p := Ahead(r, d, i);
    var q := Ahead(r, d, i + 1);
    assert Next(b, p, d) == Some(q);
    assert b.Cell(p) != Wall;
    if i + 1 < k {
      InRun(r, d, k, i + 1);
    }
    assert b.Cell(q) != Wall && (IsHalf(b.Cell(q)) ==> q in Run(r, d, k));
    if IsHalf(b.Cell(p)) {
      RunPartner(b, r, d, k, i);
    }
  }

  /** The other half of a box in a pushed row is pushed too. */
  lemma RunPartner(b: Board, r: Coord, d: Direction, k: nat, i: nat)
    requires b.Valid() && Paired(b) && b.Inside(r) && b.Cell(r) == Robot && !Vertical(d)
    requires Reach(r, d, k) && b.Inside(Ahead(r, d, k)) && Stop(b.Cell(Ahead(r, d, k))) && i < k
    requires Reach(r, d, i) && b.Inside(Ahead(r, d, i)) && IsHalf(b.Cell(Ahead(r, d, i)))
    ensures var p := Ahead(r, d, i);
      (b.Cell(p) == WideBoxLeft ==> (p.0, p.1 + 1) in Run(r, d, k))
      && (b.Cell(p) == WideBoxRight ==> 0 < p.1 && (p.0, p.1 - 1) in Run(r, d, k))
  {
    var p := Ahead(r, d, i);
    assert 0 < i && PairedAt(b, p);
    InRun(r, d, k, i - 1);
    if d == Left {
      assert p == (r.0, r.1 - i);
      if b.Cell(p) == WideBoxLeft {
        assert Ahead(r, d, i - 1) == (p.0, p.1 + 1);
      } else {
        var p': Coord := (p.0, p.1 - 1);
        assert b.Cell(p') == WideBoxLeft;
        assert p' == Ahead(r, d, i + 1);
        HalfAhead(b, r, d, k, i + 1);
      }
    } else {
      assert p == (r.0, r.1 + i);
      if b.Cell(p) == WideBoxRight {
        assert Ahead(r, d, i - 1) == (p.0, p.1 - 1);
      } else {
        var p': Coord := (p.0, p.1 + 1);
        assert b.Cell(p') == WideBoxRight;
        assert p' == Ahead(r, d, i + 1);
        HalfAhead(b, r, d, k, i + 1);
      }
    }
  }

  /** A half box between the robot and the stop is in the pushed row. */
  lemma HalfAhead(b: Board, r: Coord, d: Direction, k: nat, i: nat)
    requires b.Valid() && Reach(r, d, k) && b.Inside(Ahead(r, d, k)) && Stop(b.Cell(Ahead(r, d, k)))
    requires i <= k && Reach(r, d, i) && b.Inside(Ahead(r, d, i)) && IsHalf(b.Cell(Ahead(r, d, i)))
    ensures Ahead(r, d, i) in Run(r, d, k)
  {
    assert i != k;
    InRun(r, d, k, i);
  }

  lemma InRun(p: Coord, d: Direction, k: nat, i: nat)
    requires Reach(p, d, i) && i < k
    ensures Ahead(p, d, i) in Run(p, d, k)
  {
  }

  // ---------------------------------------------------------------------
  // Layers of boxes pushed up or down

  /** The two cells of the box with a half at q (none if q holds no half). */
  ghost function PairOf(b: Board, q: Coord): set<Coord>
    requires b.Valid() && Paired(b) && b.Inside(q)
  {
    assert PairedAt(b, q);
    if b.Cell(q) == WideBoxLeft then
      var q': Coord := (q.0, q.1 + 1);
      {q, q'}
    else if b.Cell(q) == WideBoxRight then
      var q': Coord := (q.0, q.1 - 1);
      {q', q}
    else {}
  }

  /** The box that p runs into when it moves in direction d. */
  ghost function Contrib(b: Board, d: Direction, p: Coord): set<Coord>
    requires b.Valid() && Paired(b)
  {
    match Next(b, p, d)
    case Some(q) => PairOf(b, q)
    case None => {}
  }

  /** Some cell of the layer runs into a wall. */
  ghost predicate Blocked(b: Board, d: Direction, layer: set<Coord>)
    requires b.Valid()
  {
    exists p :: p in layer && Next(b, p, d).Some? && b.Cell(Next(b, p, d).value) == Wall
  }

  /** The boxes the cells of a layer run into: the next layer. */
  ghost function NextLayer(b: Board, d: Direction, layer: set<Coord>): set<Coord>
    requires b.Valid() && Paired(b)
  {
    set p, q | p in layer && q in Contrib(b, d, p) :: q
  }

  /** q is k lines ahead of r in direction d. */
  predicate AtDistance(r: Coord, d: Direction, k: nat, q: Coord)
  {
    match d
    case Up => q.0 + k == r.0
    case Down => q.0 == r.0 + k
    case Left => q.1 + k == r.1
    case Right => q.1 == r.1 + k
  }

  /** Layer j: whole boxes, j + 1 lines ahead of the robot at r. */
  ghost predicate LayerOk(b: Board, r: Coord, d: Direction, j: nat, layer: set<Coord>)
    requires b.Valid()
  {
    forall q :: q in layer ==> LayerCell(b, r, d, j, layer, q)
  }

  /** q is half of a box j + 1 lines ahead of r whose other half is in the
      layer too. */
  ghost predicate LayerCell(b: Board, r: Coord, d: Direction, j: nat, layer: set<Coord>, q: Coord)
    requires b.Valid()
  {
    b.Inside(q) && IsHalf(b.Cell(q)) && AtDistance(r, d, j + 1, q) && PartnerIn(b, q, layer)
  }

  /** The other half of a box at q is in s. */
  ghost predicate PartnerIn(b: Board, q: Coord, s: set<Coord>)
    requires b.Valid() && b.Inside(q)
  {
    (b.Cell(q) == WideBoxLeft ==> (q.0, q.1 + 1) in s)
    && (b.Cell(q) == WideBoxRight ==> 0 < q.1 && (q.0, q.1 - 1) in s)
  }

  /** A layer lies between the robot and the border. */
  lemma LayerInRoom(b: Board, r: Coord, d: Direction, j: nat, layer: set<Coord>)
    requires b.Valid() && Enclosed(b) && b.Inside(r)
    requires LayerOk(b, r, d, j, layer) && layer != {}
    ensures j + 1 < Room(b, r, d)
  {
    var q :| q in layer;
    assert LayerCell(b, r, d, j, layer, q);
    assert !OnBorder(b, q);
  }

  /** The layer after an unblocked one is a layer too. */
  lemma NextLayerOk(b: Board, r: Coord, d: Direction, j: nat, layer: set<Coord>)
    requires b.Valid() && Enclosed(b) && Paired(b) && b.Inside(r) && Vertical(d)
    requires LayerOk(b, r, d, j, layer) && !Blocked(b, d, layer)
    ensures LayerOk(b, r, d, j + 1, NextLayer(b, d, layer))
  {
    var next := NextLayer(b, d, layer);
    forall q | q in next
      ensures LayerCell(b, r, d, j + 1, next, q)
    {
      var p :| p in layer && q in Contrib(b, d, p);
      assert LayerCell(b, r, d, j, layer, p);
      NotWallHasRoom(b, p, d);
      var q' := ContribCell(b, r, d, j, p, q);
      assert q' in next;
    }
  }

  /** A cell of the box that p runs into, j + 2 lines ahead, and its other
      half q', which belongs to the same box. */
  lemma ContribCell(b: Board, r: Coord, d: Direction, j: nat, p: Coord, q: Coord) returns (q': Coord)
    requires b.Valid() && Paired(b) && Vertical(d) && b.Inside(p) && AtDistance(r, d, j + 1, p)
    requires q in Contrib(b, d, p)
    ensures b.Inside(q) && IsHalf(b.Cell(q)) && AtDistance(r, d, j + 2, q)
    ensures q' in Contrib(b, d, p)
    ensures b.Cell(q) == WideBoxLeft ==> q' == (q.0, q.1 + 1)
    ensures b.Cell(q) == WideBoxRight ==> 0 < q.1 && q' == (q.0, q.1 - 1)
  {
    var n := Next(b, p, d).value;
    assert PairedAt(b, n);
    assert PairedAt(b, q);
    if b.Cell(q) == WideBoxLeft {
      q' := (q.0, q.1 + 1);
    } else {
      q' := (q.0, q.1 - 1);
    }
  }

  /** The first layer: the box in front of the robot. */
  lemma FirstLayerOk(b: Board, r: Coord, d: Direction)
    requires Warehouse(b, r) && Vertical(d)
    ensures LayerOk(b, r, d, 0, PairOf(b, Front(b, r, d)))
  {
    var n := Front(b, r, d);
    forall q | q in PairOf(b, n)
      ensures LayerCell(b, r, d, 0, PairOf(b, n), q)
    {
      assert PairedAt(b, n);
      assert PairedAt(b, q);
    }
  }

  /** The `'outer` loop of the vertical push, from layer j on: whether some
      layer runs into a wall, and otherwise all cells of the layers. */
  ghost function LayersFrom(b: Board, r: Coord, d: Direction, j: nat, layer: set<Coord>): (bool, set<Coord>)
    requires b.Valid() && Enclosed(b) && Paired(b) && b.Inside(r) && Vertical(d)
    requires LayerOk(b, r, d, j, layer)
    decreases Room(b, r, d) - j
  {
    if layer == {} then (false, {})
    else if Blocked(b, d, layer) then (true, {})
    else
      LayerInRoom(b, r, d, j, layer);
      NextLayerOk(b, r, d, j, layer);
      var rest := LayersFrom(b, r, d, j + 1, NextLayer(b, d, layer));
      (rest.0, layer + rest.1)
  }

  /** Unblocked layers shift as a move: every moved cell is followed by
      whatever it runs into. */
  lemma {:induction false} LayersShiftOk(b: Board, r: Coord, d: Direction, j: nat, layer: set<Coord>, m: set<Coord>)
    requires b.Valid() && Enclosed(b) && Paired(b) && b.Inside(r) && Vertical(d)
    requires LayerOk(b, r, d, j, layer)
    requires !LayersFrom(b, r, d, j, layer).0 && LayersFrom(b, r, d, j, layer).1 <= m
    ensures layer <= LayersFrom(b, r, d, j, layer).1
    ensures forall p :: p in LayersFrom(b, r, d, j, layer).1 ==> MovesWith(b, m, d, p)
    decreases Room(b, r, d) - j
  {
    if layer != {} {
      LayerInRoom(b, r, d, j, layer);
      NextLayerOk(b, r, d, j, layer);
      var next := NextLayer(b, d, layer);
      LayersShiftOk(b, r, d, j + 1, next, m);
      forall p | p in layer
        ensures MovesWith(b, m, d, p)
      {
        LayerMoves(b, r, d, j, layer, next, m, p);
      }
    }
  }

  /** One cell of an unblocked layer moves. */
  lemma LayerMoves(b: Board, r: Coord, d: Direction, j: nat, layer: set<Coord>, next: set<Coord>, m: set<Coord>, p: Coord)
    requires b.Valid() && Enclosed(b) && Paired(b) && Vertical(d)
    requires p in layer && LayerCell(b, r, d, j, layer, p) && layer <= m
    requires next == NextLayer(b, d, layer) && next <= m && !Blocked(b, d, layer)
    ensures MovesWith(b, m, d, p)
  {
    NotWallHasRoom(b, p, d);
    var n := Next(b, p, d).value;
    assert b.Cell(n) != Wall;
    if IsHalf(b.Cell(n)) {
      assert n in PairOf(b, n) by {
        assert PairedAt(b, n);
      }
      assert n in Contrib(b, d, p);
      assert n in next;
    }
  }

  // ---------------------------------------------------------------------
  // One move

  /** One step of `simulate_robot` in direction d, as the new board and
      robot position: into a free cell; pushing a row of narrow boxes
      whose first free cell gets a box; pushing a row of things sideways;
      or pushing layers of two-cell boxes up or down. A push that runs into
      a wall, and a step into a wall, change nothing. */
  ghost function Move(b: Board, r: Coord, d: Direction): (Board, Coord)
    requires Warehouse(b, r)
  {
    var n := Front(b, r, d);
    var e := b.Cell(n);
    if e == Vacant then
      (b.Put(n, Robot).Put(r, Vacant), n)
    else if e == Box || (IsHalf(e) && !Vertical(d)) then
      var k := FirstStop(b, r, d, 1);
      if b.Cell(Ahead(r, d, k)) == Wall then (b, r)
      else if e == Box then (b.Put(Ahead(r, d, k), Box).Put(n, Robot).Put(r, Vacant), n)
      else (Shifted(b, Run(r, d, k), d), n)
    else if IsHalf(e) then
      FirstLayerOk(b, r, d);
      var layers := LayersFrom(b, r, d, 0, PairOf(b, n));
      if layers.0 then (b, r) else (Shifted(b, layers.1 + {r}, d), n)
    else
      (b, r)
  }

  /** A move from (b, r) to (b', r') keeps the warehouse: its walls stay
      where they are, boxes stay whole, and the one robot either stays put
      on an unchanged board or steps one cell in direction d. */
  ghost predicate MoveOk(b: Board, r: Coord, d: Direction, b': Board, r': Coord)
    requires Warehouse(b, r)
  {
    Warehouse(b', r') && SameWalls(b, b')
    && (r' == r || r' == Front(b, r, d))
    && (b' == b <==> r' == r)
  }

  lemma MoveKeepsWarehouse(b: Board, r: Coord, d: Direction)
    requires Warehouse(b, r)
    ensures MoveOk(b, r, d, Move(b, r, d).0, Move(b, r, d).1)
  {
    var n := Front(b, r, d);
    var e := b.Cell(n);
    if e == Vacant {
      StepOkFree(b, r, d);
    } else if e == Box || (IsHalf(e) && !Vertical(d)) {
      var k := FirstStop(b, r, d, 1);
      if b.Cell(Ahead(r, d, k)) != Wall {
        if e == Box {
          StepOkBoxes(b, r, d, k);
        } else {
          StepOkRun(b, r, d, k);
        }
      }
    } else if IsHalf(e) {
      FirstLayerOk(b, r, d);
      if !LayersFrom(b, r, d, 0, PairOf(b, n)).0 {
        LayersMove(b, r, d);
      }
    }
  }

  lemma StepOkFree(b: Board, r: Coord, d: Direction)
    requires Warehouse(b, r) && b.Cell(Front(b, r, d)) == Vacant
    ensures MoveOk(b, r, d, b.Put(Front(b, r, d), Robot).Put(r, Vacant), Front(b, r, d))
  {
    var n := Front(b, r, d);
    StepWarehouse(b, r, n, n, Vacant);
    assert b.Put(n, Vacant) == b by {
      forall c | b.Inside(c) ensures b.Put(n, Vacant).Cell(c) == b.Cell(c) {
        PutCell(b, n, Vacant, c);
      }
      BoardsEqual(b, b.Put(n, Vacant));
    }
    PutCell(b.Put(n, Robot), r, Vacant, r);
  }

  lemma StepOkBoxes(b: Board, r: Coord, d: Direction, k: nat)
    requires Warehouse(b, r) && b.Cell(Front(b, r, d)) == Box
    requires RunTo(b, r, d, k) && b.Cell(Ahead(r, d, k)) == Vacant
    ensures MoveOk(b, r, d, b.Put(Ahead(r, d, k), Box).Put(Front(b, r, d), Robot).Put(r, Vacant), Front(b, r, d))
  {
    var n := Front(b, r, d);
    var f := Ahead(r, d, k);
    StepWarehouse(b, r, n, f, Box);
    PutCell(b.Put(f, Box).Put(n, Robot), r, Vacant, r);
  }

  lemma StepOkRun(b: Board, r: Coord, d: Direction, k: nat)
    requires Warehouse(b, r) && !Vertical(d)
    requires RunTo(b, r, d, k) && b.Cell(Ahead(r, d, k)) == Vacant
    ensures MoveOk(b, r, d, Shifted(b, Run(r, d, k), d), Front(b, r, d))
  {
    RunShiftOk(b, r, d, k);
    InRun(r, d, k, 0);
    ShiftWarehouse(b, r, d, Run(r, d, k));
    ShiftLeavesFree(b, r, d, Run(r, d, k));
  }

  /** The robot's old cell is free after a shift that moved it. */
  lemma ShiftLeavesFree(b: Board, r: Coord, d: Direction, m: set<Coord>)
    requires Warehouse(b, r) && ShiftOk(b, m, d) && r in m
    ensures Shifted(b, m, d).Cell(r) != Robot
  {
    var back := Next(b, r, Opposite(d));
    if back.Some? && back.value in m {
      assert back.value != r;
    }
  }

  /** Unblocked layers and the robot behind them shift as a move. */
  lemma LayersMove(b: Board, r: Coord, d: Direction)
    requires Warehouse(b, r) && Vertical(d) && IsHalf(b.Cell(Front(b, r, d)))
    requires LayerOk(b, r, d, 0, PairOf(b, Front(b, r, d)))
    requires !LayersFrom(b, r, d, 0, PairOf(b, Front(b, r, d))).0
    ensures MoveOk(b, r, d, Shifted(b, LayersFrom(b, r, d, 0, PairOf(b, Front(b, r, d))).1 + {r}, d), Front(b, r, d))
  {
    var n := Front(b, r, d);
    var layer := PairOf(b, n);
    var moved := LayersFrom(b, r, d, 0, layer).1;
    var m := moved + {r};
    LayersShiftOk(b, r, d, 0, layer, m);
    assert n in layer by {
      assert PairedAt(b, n);
    }
    assert MovesWith(b, m, d, r);
    ShiftWarehouse(b, r, d, m);
    ShiftLeavesFree(b, r, d, m);
  }

  /** On a board without two-cell boxes the robot moves exactly when the
      first cell past the boxes in front of it is free. */
  lemma MoveNarrow(b: Board, r: Coord, d: Direction)
    requires Warehouse(b, r)
    requires forall c :: b.Inside(c) ==> !IsHalf(b.Cell(c))
    ensures 1 <= Room(b, r, d)
    ensures Move(b, r, d).1 == Front(b, r, d) <==> b.Cell(Ahead(r, d, FirstStop(b, r, d, 1))) == Vacant
  {
    NotWallHasRoom(b, r, d);
    var n := Front(b, r, d);
    var k := FirstStop(b, r, d, 1);
    if Stop(b.Cell(n)) {
      assert k == 1;
    }
  }

  // ---------------------------------------------------------------------
  // A sequence of moves

  const CARET: byte := 94
  const LOWER_V: byte := 118
  const LESS_THAN: byte := 60
  const GREATER_THAN: byte := 62

  /** The bytes a move may be written as. */
  const MOVE_BYTES: set<byte> := {CARET, LOWER_V, LESS_THAN, GREATER_THAN}

  /** `move_to_dir`; any other byte reaches `unreachable!`. */
  function MoveDir(m: byte): Direction
    requires m in MOVE_BYTES
  {
    if m == CARET then Up
    else if m == LOWER_V then Down
    else if m == LESS_THAN then Left
    else Right
  }

  /** The byte a direction is written as. */
  function MoveByte(d: Direction): (m: byte)
    ensures m in MOVE_BYTES
  {
    match d
    case Up => CARET
    case Down => LOWER_V
    case Left => LESS_THAN
    case Right => GREATER_THAN
  }

  /** The four move bytes name the four directions, one each. */
  lemma MoveDirRoundTrip(d: Direction, m: byte)
    ensures MoveDir(MoveByte(d)) == d
    ensures m in MOVE_BYTES ==> MoveByte(MoveDir(m)) == m
  {
  }

  predicate AllMoves(moves: seq<byte>)
  {
    forall i :: 0 <= i < |moves| ==> moves[i] in MOVE_BYTES
  }

  /** The board and robot after the moves one after the other, as the loop
      of `simulate_robot` does them. Each move keeps the warehouse. */
  ghost function Simulate(b: Board, r: Coord, moves: seq<byte>): (res: (Board, Coord))
    requires Warehouse(b, r) && AllMoves(moves)
    ensures Warehouse(res.0, res.1) && SameWalls(b, res.0)
    decreases |moves|
  {
    if moves == [] then (b, r)
    else
      var before := Simulate(b, r, moves[..|moves| - 1]);
      var d := MoveDir(moves[|moves| - 1]);
      MoveKeepsWarehouse(before.0, before.1, d);
      SameWallsTrans(b, before.0, Move(before.0, before.1, d).0);
      Move(before.0, before.1, d)
  }

  /** Moves run one after the other: the moves of ms + ms' are those of
      ms and then those of ms'. */
  lemma {:induction false} SimulateAppend(b: Board, r: Coord, ms: seq<byte>, ms': seq<byte>)
    requires Warehouse(b, r) && AllMoves(ms) && AllMoves(ms')
    ensures AllMoves(ms + ms')
    ensures Simulate(b, r, ms + ms') == Simulate(Simulate(b, r, ms).0, Simulate(b, r, ms).1, ms')
    decreases |ms'|
  {
    if ms' == [] {
      assert ms + ms' == ms;
    } else {
      var init := ms'[..|ms'| - 1];
      assert (ms + ms')[..|ms + ms'| - 1] == ms + init;
      SimulateAppend(b, r, ms, init);
    }
  }

  // ---------------------------------------------------------------------
  // GPS coordinates

  /** The GPS coordinate of a cell: 100 times its row plus its column. */
  function Weight(c: Coord): nat
  {
    100 * c.0 + c.1
  }

  /** The sum of the GPS coordinates of the first n cells holding e. */
  function GpsUpTo(cells: seq<Entity>, cols: nat, e: Entity, n: nat): nat
    requires cols > 0 && n <= |cells|
  {
    if n == 0 then 0
    else GpsUpTo(cells, cols, e, n - 1) + (if cells[n - 1] == e then Weight(CoordAt(n - 1, cols)) else 0)
  }

  /** The sum the two stars print: the GPS coordinates of all cells holding
      e (a box, or the left half of a two-cell box). */
  ghost function Gps(b: Board, e: Entity): nat
    requires b.Valid() && b.cols > 0
  {
    GpsUpTo(b.cells, b.cols, e, |b.cells|)
  }

  /** Writing x at c changes the sum by the weight of c, taken away if c
      held e and added if x is e. */
  lemma GpsPut(b: Board, c: Coord, x: Entity, e: Entity)
    requires b.Valid() && b.cols > 0 && b.Inside(c)
    ensures Gps(b.Put(c, x), e) + (if b.Cell(c) == e then Weight(c) else 0)
         == Gps(b, e) + (if x == e then Weight(c) else 0)
  {
    LinearInBounds(c, b.rows, b.cols);
    GpsUpToUpdate(b.cells, b.cols, e, |b.cells|, Linear(c, b.cols), x);
  }

  lemma {:induction false} GpsUpToUpdate(cells: seq<Entity>, cols: nat, e: Entity, n: nat, k: nat, x: Entity)
    requires cols > 0 && n <= |cells| && k < |cells|
    ensures GpsUpTo(cells[k := x], cols, e, n) + (if k < n && cells[k] == e then Weight(CoordAt(k, cols)) else 0)
         == GpsUpTo(cells, cols, e, n) + (if k < n && x == e then Weight(CoordAt(k, cols)) else 0)
  {
    if n > 0 {
      GpsUpToUpdate(cells, cols, e, n - 1, k, x);
    }
  }

  // ---------------------------------------------------------------------
  // From the map to the warehouse

  /** A map of rows of one non-zero length. */
  predicate Rectangular(lines: seq<seq<byte>>)
  {
    |lines| > 0 && |lines[0]| > 0 && forall i :: 0 <= i < |lines| ==> |lines[i]| == |lines[0]|
  }

  /** The border of the map is all `#`. */
  predicate WalledMap(lines: seq<seq<byte>>)
  {
    forall i, j ::
      0 <= i < |lines| && 0 <= j < |lines[i]| && (i == 0 || i + 1 == |lines| || j == 0 || j + 1 == |lines[i]|)
      ==> lines[i][j] == HASH
  }

  /** The map holds `@` at one place at most. */
  predicate SingleRobot(lines: seq<seq<byte>>)
  {
    forall i, j, i', j' ::
      0 <= i < |lines| && 0 <= j < |lines[i]| && 0 <= i' < |lines| && 0 <= j' < |lines[i']| && lines[i][j] == AT && lines[i'][j'] == AT
      ==> i == i' && j == j'
  }

  /** The map holds `@` somewhere. */
  predicate HasRobot(lines: seq<seq<byte>>)
  {
    exists i, j :: 0 <= i < |lines| && 0 <= j < |lines[i]| && lines[i][j] == AT
  }

  /** The bytes of the map are from the narrow alphabet `# . O @`. */
  predicate NarrowMap(lines: seq<seq<byte>>)
  {
    forall i, j :: 0 <= i < |lines| && 0 <= j < |lines[i]| ==> lines[i][j] in NARROW_BYTES
  }

  /** The grid `parse_map` fills from a walled-in map with one robot and
      whole two-cell boxes is a warehouse with its robot at the position
      `parse_map` reports. */
  lemma ParsedWarehouse(data: seq<Entity>, lines: seq<seq<byte>>, pos: Coord)
    requires Rectangular(lines) && |data| == |lines| * |lines[0]|
    requires ParsedUpTo(data, lines, |lines[0]|, (|lines|, 0)) && LastRobot(lines, pos)
    requires WalledMap(lines) && SingleRobot(lines)
    requires forall i :: 0 <= i < |lines| ==> PairedRow(lines[i])
    ensures Warehouse(Board(data, |lines|, |lines[0]|), pos)
  {
    var b := Board(data, |lines|, |lines[0]|);
    forall c: Coord | b.Inside(c)
      ensures b.Cell(c) == TryFrom(lines[c.0][c.1]).value
    {
      assert Before(c, (|lines|, 0));
    }
    forall c: Coord | b.Inside(c)
      ensures PairedAt(b, c)
    {
      assert PairedRow(lines[c.0]);
      if c.1 + 1 < b.cols {
        assert b.Cell((c.0, c.1 + 1)) == TryFrom(lines[c.0][c.1 + 1]).value;
      }
      if 0 < c.1 {
        var c': Coord := (c.0, c.1 - 1);
        assert b.Cell(c') == TryFrom(lines[c.0][c.1 - 1]).value;
      }
    }
  }

  /** The widened map of a walled-in narrow map with one robot is walled
      in, has one robot, and its boxes are whole `[]` pairs. */
  lemma WideMapShape(lines: seq<seq<byte>>)
    requires Rectangular(lines) && NarrowMap(lines) && WalledMap(lines) && SingleRobot(lines)
    ensures var w := TransformMapToWide(lines);
      Rectangular(w) && |w| == |lines| && |w[0]| == 2 * |lines[0]|
      && WalledMap(w) && SingleRobot(w) && AllEntities(w)
      && (HasRobot(lines) ==> HasRobot(w))
      && forall i :: 0 <= i < |w| ==> PairedRow(w[i])
  {
    var w := TransformMapToWide(lines);
    forall i | 0 <= i < |lines|
      ensures PairedRow(w[i])
      ensures forall k :: 0 <= k < |w[i]| ==> w[i][k] in ENTITY_BYTES
    {
      WidenRowShape(lines[i]);
    }
    WideWalled(lines);
    WideSingleRobot(lines);
  }

  lemma WideWalled(lines: seq<seq<byte>>)
    requires Rectangular(lines) && NarrowMap(lines) && WalledMap(lines)
    ensures WalledMap(TransformMapToWide(lines))
  {
    var w := TransformMapToWide(lines);
    forall i, k | 0 <= i < |w| && 0 <= k < |w[i]| && (i == 0 || i + 1 == |w| || k == 0 || k + 1 == |w[i]|)
      ensures w[i][k] == HASH
    {
      var j := k / 2;
      assert lines[i][j] == HASH;
      if k == 2 * j {
        assert w[i][2 * j] == Widen(lines[i][j])[0];
      } else {
        assert w[i][2 * j + 1] == Widen(lines[i][j])[1];
      }
    }
  }

  lemma WideSingleRobot(lines: seq<seq<byte>>)
    requires Rectangular(lines) && NarrowMap(lines) && SingleRobot(lines)
    ensures SingleRobot(TransformMapToWide(lines))
    ensures HasRobot(lines) ==> HasRobot(TransformMapToWide(lines))
  {
    var w := TransformMapToWide(lines);
    forall i | 0 <= i < |lines|
      ensures forall k :: 0 <= k < |w[i]| && w[i][k] == AT ==> k % 2 == 0 && lines[i][k / 2] == AT
      ensures forall j :: 0 <= j < |lines[i]| && lines[i][j] == AT ==> w[i][2 * j] == AT
    {
      WidenRowShape(lines[i]);
    }
    forall i, k, i', k' |
      0 <= i < |w| && 0 <= k < |w[i]| && 0 <= i' < |w| && 0 <= k' < |w[i']| && w[i][k] == AT && w[i'][k'] == AT
      ensures i == i' && k == k'
    {
      assert lines[i][k / 2] == AT && lines[i'][k' / 2] == AT;
    }
    if HasRobot(lines) {
      var i, j :| 0 <= i < |lines| && 0 <= j < |lines[i]| && lines[i][j] == AT;
      assert w[i][2 * j] == AT;
    }
  }

  // ---------------------------------------------------------------------
  // The parsed warehouse

  /** A map the robot can be run on: rectangular, all entity bytes, walled
      in, one robot, whole two-cell boxes. */
  ghost predicate PuzzleMap(lines: seq<seq<byte>>)
  {
    Rectangular(lines) && AllEntities(lines) && WalledMap(lines) && SingleRobot(lines) && HasRobot(lines)
    && forall i :: 0 <= i < |lines| ==> PairedRow(lines[i])
  }

  /** The entity of the byte at row-major position p of the map. */
  ghost function MapCell(lines: seq<seq<byte>>, p: nat): Entity
    requires Rectangular(lines) && AllEntities(lines) && p < |lines| * |lines[0]|
  {
    CoordAtInBounds(p, |lines|, |lines[0]|);
    var c := CoordAt(p, |lines[0]|);
    TryFrom(lines[c.0][c.1]).value
  }

  /** The one `@` of the map. */
  ghost function MapRobot(lines: seq<seq<byte>>): (pos: Coord)
    requires HasRobot(lines) && SingleRobot(lines)
    ensures LastRobot(lines, pos)
  {
    var i, j :| 0 <= i < |lines| && 0 <= j < |lines[i]| && lines[i][j] == AT;
    (i, j)
  }

  /** The warehouse a puzzle map describes and the place of its robot. */
  ghost function Parsed(lines: seq<seq<byte>>): (res: (Board, Coord))
    requires PuzzleMap(lines)
    ensures Warehouse(res.0, res.1) && res.0.rows == |lines| && res.0.cols == |lines[0]|
  {
    var n := |lines| * |lines[0]|;
    var data := seq(n, p requires 0 <= p < n => MapCell(lines, p));
    MapCellsParsed(lines, data);
    ParsedWarehouse(data, lines, MapRobot(lines));
    (Board(data, |lines|, |lines[0]|), MapRobot(lines))
  }

  lemma MapCellsParsed(lines: seq<seq<byte>>, data: seq<Entity>)
    requires Rectangular(lines) && AllEntities(lines)
    requires |data| == |lines| * |lines[0]|
    requires forall p :: 0 <= p < |data| ==> data[p] == MapCell(lines, p)
    ensures ParsedUpTo(data, lines, |lines[0]|, (|lines|, 0))
  {
    var cols := |lines[0]|;
    forall i, j | 0 <= i < |lines| && 0 <= j < cols
      ensures LinearInBoundsHolds((i, j), |lines|, cols)
      ensures TryFrom(lines[i][j]).Ok? && data[Linear((i, j), cols)] == TryFrom(lines[i][j]).value
    {
      LinearInBounds((i, j), |lines|, cols);
      assert data[Linear((i, j), cols)] == MapCell(lines, Linear((i, j), cols));
    }
  }

  /** Only one position is the last `@`. */
  lemma LastRobotUnique(lines: seq<seq<byte>>, pos: Coord, pos': Coord)
    requires LastRobot(lines, pos) && LastRobot(lines, pos')
    ensures pos == pos'
  {
  }

  /** What `parse_map` reports for a puzzle map is Parsed: a grid whose
      cells are the parsed entities and the last `@`. */
  lemma ParsedUnique(lines: seq<seq<byte>>, data: seq<Entity>, pos: Coord)
    requires PuzzleMap(lines) && |data| == |lines| * |lines[0]|
    requires ParsedUpTo(data, lines, |lines[0]|, (|lines|, 0)) && LastRobot(lines, pos)
    ensures (Board(data, |lines|, |lines[0]|), pos) == Parsed(lines)
  {
    var cols := |lines[0]|;
    var n := |lines| * cols;
    var cells := seq(n, p requires 0 <= p < n => MapCell(lines, p));
    assert Parsed(lines) == (Board(cells, |lines|, cols), MapRobot(lines));
    LastRobotUnique(lines, pos, MapRobot(lines));
    forall p | 0 <= p < n
      ensures data[p] == cells[p]
    {
      CoordAtInBounds(p, |lines|, cols);
      var c := CoordAt(p, cols);
      assert Before(c, (|lines|, 0));
      assert data[Linear(c, cols)] == TryFrom(lines[c.0][c.1]).value;
    }
    assert data == cells;
  }

  /** A walled-in narrow map with one robot is a puzzle map, and so is its
      widened form. */
  lemma NarrowPuzzle(lines: seq<seq<byte>>)
    requires Rectangular(lines) && NarrowMap(lines) && WalledMap(lines) && SingleRobot(lines) && HasRobot(lines)
    ensures PuzzleMap(lines)
    ensures PuzzleMap(TransformMapToWide(lines))
  {
    forall i | 0 <= i < |lines|
      ensures PairedRow(lines[i])
    {
    }
    WideMapShape(lines);
  }
}
