/** Day 15, the map side: a warehouse map of walls, boxes and one robot is
    read into a grid of entities, optionally after doubling its width so
    that every box becomes a two-cell box (src/bin/day15/main.rs). */
module Day15 {
  import opened Utils

  /** `Entity`. The Rust `Entity::None` (an empty floor cell) is called
      Vacant here, since None is the Option constructor. */
  datatype Entity = Vacant | Box | Wall | Robot | WideBoxLeft | WideBoxRight

  const DOT: byte := 46
  const BOX: byte := 79
  const HASH: byte := 35
  const AT: byte := 64
  const OPEN_BRACKET: byte := 91
  const CLOSE_BRACKET: byte := 93

  /** The bytes a map may contain. */
  const ENTITY_BYTES: set<byte> := {DOT, BOX, HASH, AT, OPEN_BRACKET, CLOSE_BRACKET}

  /** The bytes of a map before it is widened. */
  const NARROW_BYTES: set<byte> := {HASH, DOT, BOX, AT}

  /** The byte an entity is written as. */
  function EntityByte(e: Entity): (b: byte)
    ensures b in ENTITY_BYTES
  {
    match e
    case Vacant => DOT
    case Box => BOX
    case Wall => HASH
    case Robot => AT
    case WideBoxLeft => OPEN_BRACKET
    case WideBoxRight => CLOSE_BRACKET
  }

  /** `Entity::try_from`: one of `. O # @ [ ]`, or OutOfRange carrying the
      byte. */
  function TryFrom(b: byte): (r: Result<Entity, byte>)
    ensures r.Ok? <==> b in ENTITY_BYTES
    ensures r.Ok? ==> EntityByte(r.value) == b
    ensures r.Err? ==> r.error == b
  {
    if b == DOT then Ok(Vacant)
    else if b == BOX then Ok(Box)
    else if b == HASH then Ok(Wall)
    else if b == AT then Ok(Robot)
    else if b == OPEN_BRACKET then Ok(WideBoxLeft)
    else if b == CLOSE_BRACKET then Ok(WideBoxRight)
    else Err(b)
  }

  /** Every entity is read back from its byte. */
  lemma EntityRoundTrip(e: Entity)
    ensures TryFrom(EntityByte(e)) == Ok(e)
  {
  }

  // ---------------------------------------------------------------------
  // Widening

  /** What `transform_map_to_wide` writes for one narrow byte. */
  function Widen(b: byte): (r: seq<byte>)
    requires b in NARROW_BYTES
    ensures |r| == 2
  {
    if b == HASH then [HASH, HASH]
    else if b == DOT then [DOT, DOT]
    else if b == BOX then [OPEN_BRACKET, CLOSE_BRACKET]
    else [AT, DOT]
  }

  /** One row of `transform_map_to_wide`: every byte replaced by its pair. */
  function WidenRow(row: seq<byte>): (r: seq<byte>)
    requires forall j :: 0 <= j < |row| ==> row[j] in NARROW_BYTES
    ensures |r| == 2 * |row|
    ensures forall j :: 0 <= j < |row| ==> r[2 * j] == Widen(row[j])[0] && r[2 * j + 1] == Widen(row[j])[1]
  {
    if |row| == 0 then []
    else
      var rest := WidenRow(row[1..]);
      assert forall j :: 1 <= j < |row| ==> row[1..][j - 1] == row[j];
      Widen(row[0]) + rest
  }

  /** `transform_map_to_wide`. A byte other than `# . O @` reaches
      `unreachable!`, so the map must not contain one. */
  function TransformMapToWide(lines: seq<seq<byte>>): (r: seq<seq<byte>>)
    requires forall i, j :: 0 <= i < |lines| && 0 <= j < |lines[i]| ==> lines[i][j] in NARROW_BYTES
    ensures |r| == |lines|
    ensures forall i :: 0 <= i < |lines| ==> r[i] == WidenRow(lines[i])
  {
    seq(|lines|, i requires 0 <= i < |lines| => WidenRow(lines[i]))
  }

  /** Every `[` of a row is followed by `]` and every `]` follows `[`. */
  predicate PairedRow(row: seq<byte>)
  {
    forall k :: 0 <= k < |row| ==>
      (row[k] == OPEN_BRACKET ==> k + 1 < |row| && row[k + 1] == CLOSE_BRACKET)
      && (row[k] == CLOSE_BRACKET ==> 0 < k && row[k - 1] == OPEN_BRACKET)
  }

  /** A widened row: twice as long, its boxes come in `[]` pairs, it holds
      no narrow box, and the robot keeps its place at twice the column. */
  lemma WidenRowShape(row: seq<byte>)
    requires forall j :: 0 <= j < |row| ==> row[j] in NARROW_BYTES
    ensures PairedRow(WidenRow(row))
    ensures forall k :: 0 <= k < |WidenRow(row)| ==> WidenRow(row)[k] != BOX && WidenRow(row)[k] in ENTITY_BYTES
    ensures forall j :: 0 <= j < |row| ==> (row[j] == AT <==> WidenRow(row)[2 * j] == AT)
    ensures forall k :: 0 <= k < |WidenRow(row)| && WidenRow(row)[k] == AT ==> k % 2 == 0
  {
    var r := WidenRow(row);
    forall j | 0 <= j < |row|
      ensures WidePairAt(r, j) && (row[j] == AT <==> r[2 * j] == AT)
    {
      WidenedCell(row, j);
    }
    PairsShape(r, |row|);
  }

  /** Bytes 2j and 2j + 1 of r are the widened form of one narrow byte. */
  predicate WidePairAt(r: seq<byte>, j: nat)
  {
    2 * j + 1 < |r|
    && r[2 * j] in ENTITY_BYTES && r[2 * j + 1] in ENTITY_BYTES
    && r[2 * j] != BOX && r[2 * j + 1] != BOX
    && (r[2 * j] == OPEN_BRACKET <==> r[2 * j + 1] == CLOSE_BRACKET)
    && r[2 * j] != CLOSE_BRACKET && r[2 * j + 1] != OPEN_BRACKET && r[2 * j + 1] != AT
  }

  /** The narrow column a wide column k comes from. */
  function Half(k: nat): (j: nat)
    ensures k == 2 * j || k == 2 * j + 1
  {
    k / 2
  }

  /** A row made of widened pairs has whole boxes, no narrow box, and the
      robot only in an even column. */
  lemma PairsShape(r: seq<byte>, n: nat)
    requires |r| == 2 * n && forall j :: 0 <= j < n ==> WidePairAt(r, j)
    ensures PairedRow(r)
    ensures forall k :: 0 <= k < |r| ==> r[k] != BOX && r[k] in ENTITY_BYTES
    ensures forall k :: 0 <= k < |r| && r[k] == AT ==> k % 2 == 0
  {
    PairsPaired(r, n);
    forall k | 0 <= k < |r|
      ensures r[k] != BOX && r[k] in ENTITY_BYTES
      ensures r[k] == AT ==> k % 2 == 0
    {
      var j := Half(k);
      assert WidePairAt(r, j);
    }
  }

  lemma PairsPaired(r: seq<byte>, n: nat)
    requires |r| == 2 * n && forall j :: 0 <= j < n ==> WidePairAt(r, j)
    ensures PairedRow(r)
  {
    forall k | 0 <= k < |r|
      ensures (r[k] == OPEN_BRACKET ==> k + 1 < |r| && r[k + 1] == CLOSE_BRACKET)
        && (r[k] == CLOSE_BRACKET ==> 0 < k && r[k - 1] == OPEN_BRACKET)
    {
      var j := Half(k);
      assert WidePairAt(r, j);
      if k == 2 * j {
        assert k + 1 == 2 * j + 1;
      } else {
        assert k - 1 == 2 * j;
      }
    }
  }

  /** The pair a narrow byte widens to: entity bytes, no narrow box, a `[`
      only before `]`, and the robot only in front. */
  lemma WidenPair(b: byte)
    requires b in NARROW_BYTES
    ensures var w := Widen(b);
      w[0] in ENTITY_BYTES && w[1] in ENTITY_BYTES && w[0] != BOX && w[1] != BOX
      && (w[0] == OPEN_BRACKET <==> w[1] == CLOSE_BRACKET)
      && w[0] != CLOSE_BRACKET && w[1] != OPEN_BRACKET && w[1] != AT
      && (b == AT <==> w[0] == AT)
  {
  }

  /** The two bytes a narrow byte of a row widens to, in place. */
  lemma WidenedCell(row: seq<byte>, j: nat)
    requires forall j :: 0 <= j < |row| ==> row[j] in NARROW_BYTES
    requires j < |row|
    ensures WidePairAt(WidenRow(row), j)
    ensures row[j] == AT <==> WidenRow(row)[2 * j] == AT
  {
    WidenPair(row[j]);
  }

  // ---------------------------------------------------------------------
  // Parsing

  /** (i, j) comes before (i', j') in row-major order. */
  predicate Before(c: Coord, c': Coord)
  {
    c.0 < c'.0 || (c.0 == c'.0 && c.1 < c'.1)
  }

  /** The bytes of a rectangular map, all of them entities. */
  predicate AllEntities(lines: seq<seq<byte>>)
  {
    forall i, j :: 0 <= i < |lines| && 0 <= j < |lines[i]| ==> lines[i][j] in ENTITY_BYTES
  }

  /** pos holds the last `@` of the map in row-major order. */
  predicate LastRobot(lines: seq<seq<byte>>, pos: Coord)
  {
    pos.0 < |lines| && pos.1 < |lines[pos.0]| && lines[pos.0][pos.1] == AT
    && forall i, j :: 0 <= i < |lines| && 0 <= j < |lines[i]| && lines[i][j] == AT ==> !Before(pos, (i, j))
  }

  /** The cells of the grid at the row-major positions of the first `upto`
      cells hold the entities of the corresponding bytes. */
  ghost predicate ParsedUpTo(data: seq<Entity>, lines: seq<seq<byte>>, cols: nat, upto: Coord)
    requires forall i :: 0 <= i < |lines| ==> |lines[i]| == cols
    requires |data| == |lines| * cols
  {
    forall i, j :: 0 <= i < |lines| && 0 <= j < cols && Before((i, j), upto) ==>
      LinearInBoundsHolds((i, j), |lines|, cols)
      && TryFrom(lines[i][j]).Ok? && data[Linear((i, j), cols)] == TryFrom(lines[i][j]).value
  }

  /** LinearInBounds as a predicate, for use inside quantifiers. */
  ghost predicate LinearInBoundsHolds(c: Coord, rows: nat, cols: nat)
  {
    Linear(c, cols) < rows * cols
  }

  /** Among the cells before `upto`, pos holds the last `@`. */
  ghost predicate LastRobotUpTo(lines: seq<seq<byte>>, cols: nat, pos: Coord, upto: Coord)
    requires forall i :: 0 <= i < |lines| ==> |lines[i]| == cols
  {
    pos.0 < |lines| && pos.1 < cols && lines[pos.0][pos.1] == AT && Before(pos, upto)
    && forall i, j :: 0 <= i < |lines| && 0 <= j < cols && Before(pos, (i, j)) && Before((i, j), upto) ==> lines[i][j] != AT
  }

  /** No cell before `upto` holds `@`. */
  ghost predicate NoRobotUpTo(lines: seq<seq<byte>>, cols: nat, upto: Coord)
    requires forall i :: 0 <= i < |lines| ==> |lines[i]| == cols
  {
    forall i, j :: 0 <= i < |lines| && 0 <= j < cols && Before((i, j), upto) ==> lines[i][j] != AT
  }

  /** What the robot scan knows before `upto`. */
  ghost predicate RobotUpTo(lines: seq<seq<byte>>, cols: nat, robotPos: Option<Coord>, upto: Coord)
    requires forall i :: 0 <= i < |lines| ==> |lines[i]| == cols
  {
    match robotPos
    case None => NoRobotUpTo(lines, cols, upto)
    case Some(pos) => LastRobotUpTo(lines, cols, pos, upto)
  }

  /** Writing the parsed entity of (i, j) extends the parsed prefix by one cell. */
  lemma ParsedStep(data: seq<Entity>, before: seq<Entity>, lines: seq<seq<byte>>, cols: nat, c: Coord, e: Entity)
    requires forall i :: 0 <= i < |lines| ==> |lines[i]| == cols
    requires |before| == |lines| * cols && c.0 < |lines| && c.1 < cols
    requires ParsedUpTo(before, lines, cols, c)
    requires TryFrom(lines[c.0][c.1]) == Ok(e)
    requires Linear(c, cols) < |before| && data == before[Linear(c, cols) := e]
    ensures ParsedUpTo(data, lines, cols, (c.0, c.1 + 1))
  {
    forall i, j | 0 <= i < |lines| && 0 <= j < cols && Before((i, j), (c.0, c.1 + 1))
      ensures LinearInBoundsHolds((i, j), |lines|, cols)
      ensures TryFrom(lines[i][j]).Ok? && data[Linear((i, j), cols)] == TryFrom(lines[i][j]).value
    {
      LinearInBounds((i, j), |lines|, cols);
      UpdateChangesOneCell(before, |lines|, cols, c, e, (i, j));
    }
  }

  /** Looking at one more cell keeps the robot scan's knowledge. */
  lemma RobotStep(lines: seq<seq<byte>>, cols: nat, seen: Option<Coord>, now: Option<Coord>, c: Coord)
    requires forall i :: 0 <= i < |lines| ==> |lines[i]| == cols
    requires c.0 < |lines| && c.1 < cols
    requires RobotUpTo(lines, cols, seen, c)
    requires now == if lines[c.0][c.1] == AT then Some(c) else seen
    ensures RobotUpTo(lines, cols, now, (c.0, c.1 + 1))
  {
  }

  /** The end of row i is the start of row i + 1. */
  lemma RowEnd(data: seq<Entity>, lines: seq<seq<byte>>, cols: nat, robotPos: Option<Coord>, i: nat)
    requires forall i :: 0 <= i < |lines| ==> |lines[i]| == cols
    requires |data| == |lines| * cols
    requires ParsedUpTo(data, lines, cols, (i, cols)) && RobotUpTo(lines, cols, robotPos, (i, cols))
    ensures ParsedUpTo(data, lines, cols, (i + 1, 0)) && RobotUpTo(lines, cols, robotPos, (i + 1, 0))
  {
  }

  /** Seen to the end, the scan's answer is the last `@` of the map. */
  lemma ScanDone(lines: seq<seq<byte>>, cols: nat, robotPos: Option<Coord>)
    requires forall i :: 0 <= i < |lines| ==> |lines[i]| == cols
    requires exists i, j :: 0 <= i < |lines| && 0 <= j < |lines[i]| && lines[i][j] == AT
    requires RobotUpTo(lines, cols, robotPos, (|lines|, 0))
    ensures robotPos.Some? && LastRobot(lines, robotPos.value)
  {
    var i, j :| 0 <= i < |lines| && 0 <= j < |lines[i]| && lines[i][j] == AT;
    assert Before((i, j), (|lines|, 0));
  }

  /** `parse_map`: an entity grid of the map's size and the position of its
      last `@`. The `unwrap` panic on a byte that is not an entity is the
      Err result carrying that byte; the asserts that the map is not empty
      and has a robot are preconditions, as is a rectangular map (see the
      README's Left out). */
  method ParseMap(lines: seq<seq<byte>>) returns (r: Result<(Grid<Entity>, Coord), byte>)
    requires |lines| > 0 && |lines[0]| > 0
    requires forall i :: 0 <= i < |lines| ==> |lines[i]| == |lines[0]|
    requires exists i, j :: 0 <= i < |lines| && 0 <= j < |lines[i]| && lines[i][j] == AT
    ensures r.Err? <==> !AllEntities(lines)
    ensures r.Err? ==> r.error !in ENTITY_BYTES
                       && exists i, j :: 0 <= i < |lines| && 0 <= j < |lines[i]| && lines[i][j] == r.error
    ensures r.Ok? ==> fresh(r.value.0) && r.value.0.Valid()
                      && r.value.0.rows == |lines| && r.value.0.cols == |lines[0]|
                      && LastRobot(lines, r.value.1)
                      && ParsedUpTo(r.value.0.data, lines, |lines[0]|, (|lines|, 0))
  {
    var rows, cols := |lines|, |lines[0]|;
    var world := new Grid<Entity>.Zeros(rows, cols, Vacant);
    var robotPos: Option<Coord> := None;
    for i := 0 to rows
      invariant world.Valid() && world.rows == rows && world.cols == cols && fresh(world)
      invariant ParsedUpTo(world.data, lines, cols, (i, 0))
      invariant RobotUpTo(lines, cols, robotPos, (i, 0))
    {
      var bad;
      robotPos, bad := ParseRow(world, lines, i, robotPos);
      if bad.Some? {
        return Err(bad.value);
      }
      RowEnd(world.data, lines, cols, robotPos, i);
    }
    ScanDone(lines, cols, robotPos);
    return Ok((world, robotPos.value));
  }

  /** The inner loop of `parse_map` over row i. */
  method ParseRow(world: Grid<Entity>, lines: seq<seq<byte>>, i: nat, robotPos0: Option<Coord>)
    returns (robotPos: Option<Coord>, bad: Option<byte>)
    requires forall i :: 0 <= i < |lines| ==> |lines[i]| == world.cols
    requires world.Valid() && world.rows == |lines| && i < |lines|
    requires ParsedUpTo(world.data, lines, world.cols, (i, 0)) && RobotUpTo(lines, world.cols, robotPos0, (i, 0))
    modifies world
    ensures world.Valid()
    ensures bad.Some? ==> bad.value !in ENTITY_BYTES && exists j :: 0 <= j < world.cols && lines[i][j] == bad.value
    ensures bad.None? ==> ParsedUpTo(world.data, lines, world.cols, (i, world.cols))
                          && RobotUpTo(lines, world.cols, robotPos, (i, world.cols))
  {
    var cols := world.cols;
    robotPos := robotPos0;
    for j := 0 to cols
      invariant world.Valid()
      invariant ParsedUpTo(world.data, lines, cols, (i, j))
      invariant RobotUpTo(lines, cols, robotPos, (i, j))
    {
      var c := lines[i][j];
      ghost var seen := robotPos;
      if c == AT {
        robotPos := Some((i, j));
      }
      RobotStep(lines, cols, seen, robotPos, (i, j));
      var e := TryFrom(c);
      if e.Err? {
        return robotPos, Some(c);
      }
      LinearInBounds((i, j), world.rows, cols);
      ghost var before := world.data;
      world.Set((i, j), e.value);
      ParsedStep(world.data, before, lines, cols, (i, j), e.value);
    }
    bad := None;
  }
}
