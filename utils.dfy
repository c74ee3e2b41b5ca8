/** The shared grid and coordinate library of the puzzle solutions (src/utils.rs),
    together with the Option and Result wrappers the Rust code takes from its
    standard library. */
module Utils {
  import opened Numbers

  datatype Option<T> = None | Some(value: T)

  /** An unsigned 8-bit value (`u8`). */
  type byte = b: nat | b < 256

  datatype Result<T, E> = Ok(value: T) | Err(error: E)

  /** The four grid directions. */
  datatype Direction = Up | Down | Left | Right

  /** The order in which the puzzles visit the directions. */
  const DIRECTIONS: seq<Direction> := [Up, Down, Left, Right]

  /** A (row, column) position. */
  type Coord = (nat, nat)

  /** The unit step of a direction, as (row delta, column delta). */
  function ToVec2(d: Direction): (v: (int, int))
    ensures (v.0 == 0 && (v.1 == 1 || v.1 == -1)) || (v.1 == 0 && (v.0 == 1 || v.0 == -1))
    ensures v.0 == -1 <==> d == Up
    ensures v.0 == 1 <==> d == Down
    ensures v.1 == -1 <==> d == Left
    ensures v.1 == 1 <==> d == Right
  {
    match d
    case Up => (-1, 0)
    case Down => (1, 0)
    case Left => (0, -1)
    case Right => (0, 1)
  }

  function Opposite(d: Direction): Direction
  {
    match d
    case Up => Down
    case Down => Up
    case Left => Right
    case Right => Left
  }

  /** Opposite directions cancel: their unit steps sum to (0, 0). */
  lemma OppositeDirectionsCancel(d: Direction)
    ensures ToVec2(d).0 + ToVec2(Opposite(d)).0 == 0
    ensures ToVec2(d).1 + ToVec2(Opposite(d)).1 == 0
    ensures Opposite(Opposite(d)) == d
  {
  }

  /** A displacement that moves a coordinate inside a bounded grid. */
  datatype CoordVec = CoordVec(dr: int, dc: int)
  {
    /** The coordinate displaced by this vector, or None when it leaves
        [0, bounds.0) x [0, bounds.1). */
    function TransformCoord(coord: Coord, bounds: (nat, nat)): (r: Option<Coord>)
      ensures r.Some? <==> 0 <= coord.0 + dr < bounds.0 && 0 <= coord.1 + dc < bounds.1
      ensures r.Some? ==> r.value.0 as int == coord.0 + dr && r.value.1 as int == coord.1 + dc
    {
      var newRow := coord.0 + dr;
      var newCol := coord.1 + dc;
      if !(0 <= newRow < bounds.0) || !(0 <= newCol < bounds.1) then None
      else Some((newRow as nat, newCol as nat))
    }
  }

  function DirVec(d: Direction): CoordVec
  {
    CoordVec(ToVec2(d).0, ToVec2(d).1)
  }

  /** Stepping in one direction and then in the opposite one returns to the start. */
  lemma TransformThereAndBack(d: Direction, coord: Coord, bounds: (nat, nat))
    requires coord.0 < bounds.0 && coord.1 < bounds.1
    requires DirVec(d).TransformCoord(coord, bounds).Some?
    ensures DirVec(Opposite(d)).TransformCoord(DirVec(d).TransformCoord(coord, bounds).value, bounds) == Some(coord)
  {
  }

  /** Row-major position of a coordinate in a grid with `cols` columns. */
  function Linear(coord: Coord, cols: nat): nat
  {
    coord.0 * cols + coord.1
  }

  /** The coordinate at row-major position p. */
  function CoordAt(p: nat, cols: nat): Coord
    requires cols > 0
  {
    (p / cols, p % cols)
  }

  /** Row-major addressing is a bijection between the in-bounds coordinates and
      the positions 0 .. rows*cols-1. */
  lemma LinearInBounds(coord: Coord, rows: nat, cols: nat)
    requires coord.0 < rows && coord.1 < cols
    ensures Linear(coord, cols) < rows * cols
    ensures CoordAt(Linear(coord, cols), cols) == coord
  {
    var r, c := coord.0, coord.1;
    assert r * cols + c < (r + 1) * cols <= rows * cols by {
      assert (r + 1) * cols == r * cols + cols;
      assert r + 1 <= rows;
      MulLeMono(r + 1, rows, cols);
    }
    DivModUnique(r * cols + c, cols, r, c);
  }

  lemma LinearInjective(c1: Coord, c2: Coord, rows: nat, cols: nat)
    requires c1.0 < rows && c1.1 < cols && c2.0 < rows && c2.1 < cols
    ensures Linear(c1, cols) < rows * cols && Linear(c2, cols) < rows * cols
    ensures Linear(c1, cols) == Linear(c2, cols) <==> c1 == c2
  {
    LinearInBounds(c1, rows, cols);
    LinearInBounds(c2, rows, cols);
  }

  /** Writing the cell at an in-bounds coordinate changes that cell and no other. */
  lemma UpdateChangesOneCell<T>(data: seq<T>, rows: nat, cols: nat, coord: Coord, value: T, c: Coord)
    requires |data| == rows * cols
    requires coord.0 < rows && coord.1 < cols && c.0 < rows && c.1 < cols
    ensures Linear(coord, cols) < |data| && Linear(c, cols) < |data|
    ensures data[Linear(coord, cols) := value][Linear(c, cols)] == if c == coord then value else data[Linear(c, cols)]
  {
    LinearInjective(c, coord, rows, cols);
  }

  /** A coordinate with an in-range column is in bounds exactly when its
      row-major position is below rows*cols. */
  lemma LinearBelowSize(c: Coord, rows: nat, cols: nat)
    requires c.1 < cols
    ensures c.0 < rows <==> Linear(c, cols) < rows * cols
  {
    if c.0 < rows {
      LinearInBounds(c, rows, cols);
    } else {
      MulLeMono(rows, c.0, cols);
    }
  }

  /** The next coordinate in row-major order is one position further on, and
      it is in bounds exactly when that position is below rows*cols. */
  lemma RowMajorSuccessor(index: Coord, next: Coord, rows: nat, cols: nat)
    requires index.0 < rows && index.1 < cols
    requires next == if index.1 + 1 == cols then (index.0 + 1, 0) else (index.0, index.1 + 1)
    ensures Linear(next, cols) == Linear(index, cols) + 1 && next.1 < cols
    ensures next.0 < rows <==> Linear(index, cols) + 1 < rows * cols
  {
    if index.1 + 1 == cols {
      assert (index.0 + 1) * cols == index.0 * cols + cols;
    }
    LinearBelowSize(next, rows, cols);
  }

  lemma CoordAtInBounds(p: nat, rows: nat, cols: nat)
    requires cols > 0 && p < rows * cols
    ensures CoordAt(p, cols).0 < rows && CoordAt(p, cols).1 < cols
    ensures Linear(CoordAt(p, cols), cols) == p
  {
    var q := p / cols;
    assert p == q * cols + p % cols;
    if q >= rows {
      MulLeMono(rows, q, cols);
      assert false;
    }
  }

  /** A rows x cols grid stored row-major in one vector. */
  class Grid<T> {
    var data: seq<T>
    const rows: nat
    const cols: nat

    ghost predicate Valid()
      reads this
    {
      |data| == rows * cols
    }

    ghost predicate InBounds(coord: Coord)
    {
      coord.0 < rows && coord.1 < cols
    }

    /** A grid of rows*cols default cells. */
    constructor Zeros(rows: nat, cols: nat, default: T)
      ensures Valid() && this.rows == rows && this.cols == cols
      ensures |data| == rows * cols
      ensures forall i :: 0 <= i < |data| ==> data[i] == default
    {
      this.rows := rows;
      this.cols := cols;
      data := seq(rows * cols, _ => default);
    }

    function Size(): (nat, nat)
    {
      (rows, cols)
    }

    function Idx(coord: Coord): nat
    {
      Linear(coord, cols)
    }

    /** The cell at coord; only the row-major index has to exist. */
    function Get(coord: Coord): T
      reads this
      requires Idx(coord) < |data|
    {
      data[Idx(coord)]
    }

    /** Writes one cell; see UpdateChangesOneCell for its effect on the other cells. */
    method Set(coord: Coord, value: T)
      requires Idx(coord) < |data|
      modifies this
      ensures data == old(data)[Idx(coord) := value]
    {
      data := data[Idx(coord) := value];
    }

    /** Row r: cols cells, the j-th being Get((r, j)). */
    function Row(r: nat): (row: seq<T>)
      reads this
      requires (r + 1) * cols <= |data|
      ensures |row| == cols
      ensures forall j :: 0 <= j < cols ==> Idx((r, j)) < |data| && row[j] == Get((r, j))
    {
      assert r * cols <= (r + 1) * cols;
      data[r * cols .. (r + 1) * cols]
    }

    /** All cells in row-major order with their coordinates. */
    ghost function RowMajor(): seq<(Coord, T)>
      reads this
      requires Valid()
    {
      var cells := data;
      if cols == 0 then []
      else seq(|cells|, p requires 0 <= p < |cells| => (CoordAt(p, cols), cells[p]))
    }

    method IndexedIter() returns (it: IndexedGridIterator<T>)
      requires Valid()
      ensures fresh(it) && it.grid == this && it.Valid()
      ensures it.Remaining() == RowMajor()
    {
      it := new IndexedGridIterator(this);
    }

    method Iter() returns (it: GridIterator<T>)
      requires Valid()
      ensures fresh(it) && it.grid == this && it.index == (0, 0)
    {
      it := new GridIterator(this);
    }
  }

  /** Every in-bounds coordinate appears exactly once in the row-major listing. */
  lemma RowMajorExactlyOnce<T>(g: Grid<T>, coord: Coord)
    requires g.Valid() && g.InBounds(coord)
    ensures exists p :: 0 <= p < |g.RowMajor()| && g.RowMajor()[p].0 == coord
    ensures forall p, q :: 0 <= p < q < |g.RowMajor()| ==> g.RowMajor()[p].0 != g.RowMajor()[q].0
  {
    LinearInBounds(coord, g.rows, g.cols);
    var p := Linear(coord, g.cols);
    assert g.RowMajor()[p].0 == coord;
    forall p, q | 0 <= p < q < |g.RowMajor()|
      ensures g.RowMajor()[p].0 != g.RowMajor()[q].0
    {
      CoordAtInBounds(p, g.rows, g.cols);
      CoordAtInBounds(q, g.rows, g.cols);
    }
  }

  /** Yields (coordinate, value) for every cell in row-major order. */
  class IndexedGridIterator<T> {
    const grid: Grid<T>
    var index: Coord

    ghost predicate Valid()
      reads this, grid
    {
      grid.Valid()
    }

    /** What the iterator still yields, in order. */
    ghost function Remaining(): seq<(Coord, T)>
      reads this, grid
      requires Valid()
    {
      if index.0 < grid.rows && index.1 < grid.cols then
        var p := Linear(index, grid.cols);
        LinearInBounds(index, grid.rows, grid.cols);
        grid.RowMajor()[p..]
      else []
    }

    constructor (grid: Grid<T>)
      requires grid.Valid()
      ensures this.grid == grid && index == (0, 0) && Valid()
      ensures Remaining() == grid.RowMajor()
    {
      this.grid := grid;
      index := (0, 0);
    }

    method Next() returns (r: Option<(Coord, T)>)
      requires Valid()
      modifies this
      ensures Valid()
      ensures old(Remaining()) == [] ==> r == None && Remaining() == []
      ensures old(Remaining()) != [] ==> r == Some(old(Remaining())[0]) && Remaining() == old(Remaining())[1..]
    {
      if index.0 < grid.rows && index.1 < grid.cols {
        ghost var cells := grid.RowMajor();
        ghost var p := Linear(index, grid.cols);
        LinearInBounds(index, grid.rows, grid.cols);
        assert old(Remaining()) == cells[p..];
        r := Some((index, grid.Get(index)));
        assert cells[p] == (index, grid.data[p]);
        var next := if index.1 + 1 == grid.cols then (index.0 + 1, 0) else (index.0, index.1 + 1);
        RowMajorSuccessor(index, next, grid.rows, grid.cols);
        index := next;
        if p + 1 < |grid.data| {
          assert Remaining() == cells[p + 1..];
        } else {
          assert Remaining() == [];
        }
      } else {
        r := None;
      }
    }
  }

  /** Cells c .. cols-1 of row r of a row-major vector. */
  ghost function RowTail<T>(cells: seq<T>, cols: nat, r: nat, c: nat): seq<T>
    requires c <= cols && r * cols + cols <= |cells|
    decreases cols - c
  {
    if c == cols then [] else [cells[r * cols + c]] + RowTail(cells, cols, r, c + 1)
  }

  /** The last cell of each of the rows r0 .. rows-1 of a row-major vector. */
  ghost function LastColumn<T>(cells: seq<T>, rows: nat, cols: nat, r0: nat): seq<T>
    requires cols > 0 && |cells| == rows * cols
    decreases rows - r0
  {
    if r0 >= rows then []
    else
      LinearInBounds((r0, cols - 1), rows, cols);
      [cells[r0 * cols + cols - 1]] + LastColumn(cells, rows, cols, r0 + 1)
  }

  lemma {:induction false} RowTailIsSlice<T>(cells: seq<T>, cols: nat, r: nat, c: nat)
    requires c <= cols && r * cols + cols <= |cells|
    ensures RowTail(cells, cols, r, c) == cells[r * cols + c .. r * cols + cols]
    decreases cols - c
  {
    var base := r * cols;
    if c < cols {
      RowTailIsSlice(cells, cols, r, c + 1);
      assert cells[base + c .. base + cols] == [cells[base + c]] + cells[base + c + 1 .. base + cols];
    } else {
      assert cells[base + c .. base + cols] == [];
    }
  }

  lemma {:induction false} LastColumnLength<T>(cells: seq<T>, rows: nat, cols: nat, r0: nat)
    requires cols > 0 && |cells| == rows * cols
    ensures |LastColumn(cells, rows, cols, r0)| == if r0 >= rows then 0 else rows - r0
    decreases rows - r0
  {
    if r0 < rows {
      LastColumnLength(cells, rows, cols, r0 + 1);
    }
  }

  /** The Rust iterator over cell values. As written, reaching the end of a row
      moves to the next row but keeps the column, so after row 0 it only yields
      the last column of each later row. */
  class GridIterator<T> {
    const grid: Grid<T>
    var index: Coord

    ghost predicate Valid()
      reads this, grid
    {
      grid.Valid()
    }

    /** What the iterator still yields, in order. */
    ghost function Remaining(): seq<T>
      reads this, grid
      requires Valid()
    {
      if index.0 < grid.rows && index.1 < grid.cols then
        LinearInBounds((index.0, grid.cols - 1), grid.rows, grid.cols);
        RowTail(grid.data, grid.cols, index.0, index.1)
          + LastColumn(grid.data, grid.rows, grid.cols, index.0 + 1)
      else []
    }

    constructor (grid: Grid<T>)
      requires grid.Valid()
      ensures this.grid == grid && index == (0, 0) && Valid()
    {
      this.grid := grid;
      index := (0, 0);
    }

    method Next() returns (r: Option<T>)
      requires Valid()
      modifies this
      ensures Valid()
      ensures old(Remaining()) == [] ==> r == None && Remaining() == []
      ensures old(Remaining()) != [] ==> r == Some(old(Remaining())[0]) && Remaining() == old(Remaining())[1..]
    {
      if index.0 < grid.rows && index.1 < grid.cols {
        ghost var (r0, c0) := index;
        LinearInBounds((r0, grid.cols - 1), grid.rows, grid.cols);
        ghost var row := RowTail(grid.data, grid.cols, r0, c0);
        ghost var below := LastColumn(grid.data, grid.rows, grid.cols, r0 + 1);
        assert row[0] == grid.Get(index);
        r := Some(grid.Get(index));
        if index.1 + 1 == grid.cols {
          index := (index.0 + 1, index.1);
          assert RowTail(grid.data, grid.cols, r0, c0 + 1) == [];
          if index.0 < grid.rows {
            LinearInBounds((r0 + 1, grid.cols - 1), grid.rows, grid.cols);
            assert RowTail(grid.data, grid.cols, r0 + 1, c0) == [below[0]];
          }
        } else {
          index := (index.0, index.1 + 1);
        }
      } else {
        r := None;
      }
    }
  }

  /** From (0, 0), GridIterator yields row 0 and then the last cell of every
      later row: rows + cols - 1 values instead of rows * cols. */
  lemma GridIteratorYieldsRowZeroThenLastColumn<T>(it: GridIterator<T>)
    requires it.Valid() && it.index == (0, 0) && it.grid.rows > 0 && it.grid.cols > 0
    ensures it.Remaining() == it.grid.Row(0) + LastColumn(it.grid.data, it.grid.rows, it.grid.cols, 1)
    ensures |it.Remaining()| == it.grid.rows + it.grid.cols - 1
  {
    var g := it.grid;
    assert 0 * g.cols + g.cols <= |g.data| by { MulLeMono(1, g.rows, g.cols); }
    RowTailIsSlice(g.data, g.cols, 0, 0);
    LastColumnLength(g.data, g.rows, g.cols, 1);
  }

  /** GridIterator as evidently intended, wrapping to column 0 at the end of
      a row like IndexedGridIterator: it yields every cell in row-major order. */
  class RowMajorIterator<T> {
    const grid: Grid<T>
    var index: Coord

    ghost predicate Valid()
      reads this, grid
    {
      grid.Valid()
    }

    /** What the iterator still yields, in order. */
    ghost function Remaining(): seq<T>
      reads this, grid
      requires Valid()
    {
      if index.0 < grid.rows && index.1 < grid.cols then
        LinearInBounds(index, grid.rows, grid.cols);
        grid.data[Linear(index, grid.cols)..]
      else []
    }

    constructor (grid: Grid<T>)
      requires grid.Valid()
      ensures this.grid == grid && index == (0, 0) && Valid()
      ensures Remaining() == grid.data
    {
      this.grid := grid;
      index := (0, 0);
      if !(0 < grid.rows && 0 < grid.cols) {
        assert grid.rows * grid.cols == 0;
      }
    }

    method Next() returns (r: Option<T>)
      requires Valid()
      modifies this
      ensures Valid()
      ensures old(Remaining()) == [] ==> r == None && Remaining() == []
      ensures old(Remaining()) != [] ==> r == Some(old(Remaining())[0]) && Remaining() == old(Remaining())[1..]
    {
      if index.0 < grid.rows && index.1 < grid.cols {
        LinearInBounds(index, grid.rows, grid.cols);
        ghost var p := Linear(index, grid.cols);
        r := Some(grid.Get(index));
        if index.1 + 1 == grid.cols {
          index := (index.0 + 1, 0);
        } else {
          index := (index.0, index.1 + 1);
        }
        assert Linear(index, grid.cols) == p + 1;
        if p + 1 < |grid.data| {
          CoordAtInBounds(p + 1, grid.rows, grid.cols);
          assert index.0 < grid.rows;
        } else {
          LinearBelowSize(index, grid.rows, grid.cols);
        }
      } else {
        r := None;
      }
    }
  }
}
