/** Day 4: a word search over a grid of letters, counting the windows that
    spell a word forwards or backwards (src/bin/day4/main.rs). */
module Day4 {
  import opened Utils

  /** The letters M, A, S and X, M, A, S as ASCII bytes. */
  const MAS: seq<byte> := [77, 65, 83]
  const XMAS: seq<byte> := [88, 77, 65, 83]

  /** The four directions a window reads in. */
  datatype Orientation = Horizontal | Vertical | DiagonalRight | DiagonalLeft

  /** The k-th cell of the window starting at (row, col). */
  function Position(o: Orientation, row: nat, col: nat, k: nat): (int, int)
  {
    match o
    case Horizontal => (row, col + k)
    case Vertical => (row + k, col)
    case DiagonalRight => (row + k, col + k)
    case DiagonalLeft => (row + k, col - k)
  }

  /** The position of p in the row-major data, when it has one. */
  predicate Addressable(data: seq<byte>, cols: nat, p: (int, int))
  {
    0 <= p.0 && 0 <= p.1 && p.0 * cols + p.1 < |data|
  }

  /** The byte stored at position p (0 where there is none, which the
      windows the counts read never reach). */
  function Cell(data: seq<byte>, cols: nat, p: (int, int)): byte
  {
    if Addressable(data, cols, p) then data[p.0 * cols + p.1] else 0
  }

  /** The assertions each window getter makes before it reads. */
  predicate WindowAsserts(o: Orientation, row: nat, col: nat, n: nat, rows: nat, cols: nat)
  {
    match o
    case Horizontal => row < rows && n <= cols && col < cols - n + 1
    case Vertical => col < cols && n <= rows && row < rows - n + 1
    case DiagonalRight => n <= cols && col < cols - n + 1 && n <= rows && row < rows - n + 1
    case DiagonalLeft => 1 <= n && col >= n - 1 && n <= rows && row < rows - n + 1
  }

  /** Every read of the window stays inside the data. */
  ghost predicate Readable(data: seq<byte>, cols: nat, o: Orientation, row: nat, col: nat, n: nat)
  {
    forall k :: 0 <= k < n ==> Addressable(data, cols, Position(o, row, col, k))
  }

  /** The n bytes read from (row, col) along o. */
  function WindowOf(data: seq<byte>, cols: nat, o: Orientation, row: nat, col: nat, n: nat): (w: seq<byte>)
    ensures |w| == n
  {
    seq(n, k requires 0 <= k < n => Cell(data, cols, Position(o, row, col, k)))
  }

  /** Element by element agreement over the common length (iterator zip). */
  predicate ZipAll(a: seq<byte>, b: seq<byte>)
  {
    forall k :: 0 <= k < |a| && k < |b| ==> a[k] == b[k]
  }

  function Reverse(s: seq<byte>): (r: seq<byte>)
    ensures |r| == |s| && forall k :: 0 <= k < |s| ==> r[k] == s[|s| - 1 - k]
  {
    seq(|s|, k requires 0 <= k < |s| => s[|s| - 1 - k])
  }

  /** `cmp_needle`: the word read forwards or backwards agrees with the needle. */
  predicate Matches(word: seq<byte>, needle: seq<byte>)
  {
    ZipAll(word, needle) || ZipAll(Reverse(word), needle)
  }

  /** For words as long as the needle, a match is the needle or its reverse. */
  lemma MatchesIff(word: seq<byte>, needle: seq<byte>)
    requires |word| == |needle|
    ensures Matches(word, needle) <==> word == needle || Reverse(word) == needle
  {
    if ZipAll(word, needle) {
      assert word == needle;
    }
    if ZipAll(Reverse(word), needle) {
      assert Reverse(word) == needle;
    }
  }

  lemma ReverseReverse(s: seq<byte>)
    ensures Reverse(Reverse(s)) == s
  {
  }

  /** Matching is the same question for a needle and its reverse. */
  lemma MatchesReversed(word: seq<byte>, needle: seq<byte>)
    requires |word| == |needle|
    ensures Matches(word, needle) <==> Matches(word, Reverse(needle))
  {
    MatchesIff(word, needle);
    MatchesIff(word, Reverse(needle));
    ReverseReverse(word);
    ReverseReverse(needle);
    if Reverse(word) == needle {
      assert word == Reverse(needle);
    }
    if word == needle {
      assert Reverse(word) == Reverse(needle);
    }
  }

  /** What is looked for at a start position: a needle along one orientation,
      or the two crossing diagonals of a 3x3 block that read MAS. */
  datatype Probe = Needle(o: Orientation, needle: seq<byte>) | Sam

  predicate Hit(data: seq<byte>, cols: nat, probe: Probe, r: nat, c: nat)
  {
    match probe
    case Needle(o, needle) => Matches(WindowOf(data, cols, o, r, c, |needle|), needle)
    case Sam =>
      Matches(WindowOf(data, cols, DiagonalRight, r, c, 3), MAS)
      && Matches(WindowOf(data, cols, DiagonalLeft, r, c + 2, 3), MAS)
  }

  /** The hit test of a probe as a predicate on start positions. */
  function HitAt(data: seq<byte>, cols: nat, probe: Probe): (nat, nat) -> bool
  {
    (r: nat, c: nat) => Hit(data, cols, probe, r, c)
  }

  /** The number of (r, c), c in [c0, c1), where hit holds. */
  function CountRow(hit: (nat, nat) -> bool, r: nat, c0: nat, c1: nat): nat
    decreases c1
  {
    if c1 <= c0 then 0 else CountRow(hit, r, c0, c1 - 1) + if hit(r, c1 - 1) then 1 else 0
  }

  /** The number of positions of [r0, r1) x [c0, c1) where hit holds
      (`cartesian_product(..).filter(..).count()`). */
  function CountRect(hit: (nat, nat) -> bool, r0: nat, r1: nat, c0: nat, c1: nat): nat
    decreases r1
  {
    if r1 <= r0 then 0 else CountRect(hit, r0, r1 - 1, c0, c1) + CountRow(hit, r1 - 1, c0, c1)
  }

  /** The positions of the rectangle where hit holds. */
  ghost function Positions(hit: (nat, nat) -> bool, r0: nat, r1: nat, c0: nat, c1: nat): set<(nat, nat)>
  {
    set r: nat, c: nat | r0 <= r < r1 && c0 <= c < c1 && hit(r, c) :: (r, c)
  }

  lemma {:induction false} CountRowCard(hit: (nat, nat) -> bool, r: nat, c0: nat, c1: nat)
    ensures CountRow(hit, r, c0, c1) == |Positions(hit, r, r + 1, c0, c1)|
    decreases c1
  {
    if c1 <= c0 {
      assert Positions(hit, r, r + 1, c0, c1) == {};
    } else {
      CountRowCard(hit, r, c0, c1 - 1);
      var prev := Positions(hit, r, r + 1, c0, c1 - 1);
      if hit(r, c1 - 1) {
        assert Positions(hit, r, r + 1, c0, c1) == prev + {(r, c1 - 1)};
      } else {
        assert Positions(hit, r, r + 1, c0, c1) == prev;
      }
    }
  }

  /** Counting the rectangle counts exactly the positions that hit. */
  lemma {:induction false} CountRectCard(hit: (nat, nat) -> bool, r0: nat, r1: nat, c0: nat, c1: nat)
    ensures CountRect(hit, r0, r1, c0, c1) == |Positions(hit, r0, r1, c0, c1)|
    decreases r1
  {
    if r1 <= r0 {
      assert Positions(hit, r0, r1, c0, c1) == {};
    } else {
      CountRectCard(hit, r0, r1 - 1, c0, c1);
      CountRowCard(hit, r1 - 1, c0, c1);
      var above := Positions(hit, r0, r1 - 1, c0, c1);
      var last := Positions(hit, r1 - 1, r1, c0, c1);
      assert Positions(hit, r0, r1, c0, c1) == above + last;
      assert above * last == {};
    }
  }

  /** The start positions of the rectangle where the probe hits. */
  ghost function HitSet(data: seq<byte>, cols: nat, probe: Probe, r0: nat, r1: nat, c0: nat, c1: nat): set<(nat, nat)>
  {
    Positions(HitAt(data, cols, probe), r0, r1, c0, c1)
  }

  /** Reversing the needle finds the same windows. */
  lemma HitSetReversed(data: seq<byte>, cols: nat, o: Orientation, needle: seq<byte>, r0: nat, r1: nat, c0: nat, c1: nat)
    ensures HitSet(data, cols, Needle(o, needle), r0, r1, c0, c1)
      == HitSet(data, cols, Needle(o, Reverse(needle)), r0, r1, c0, c1)
  {
    forall r: nat, c: nat
      ensures HitAt(data, cols, Needle(o, needle))(r, c) <==> HitAt(data, cols, Needle(o, Reverse(needle)))(r, c)
    {
      MatchesReversed(WindowOf(data, cols, o, r, c, |needle|), needle);
    }
  }

  /** The matching windows over every start position each getter accepts,
      summed over the four orientations. */
  ghost function NeedleTotal(data: seq<byte>, rows: nat, cols: nat, needle: seq<byte>): nat
    requires 1 <= |needle| <= rows && |needle| <= cols
  {
    var n := |needle|;
    |HitSet(data, cols, Needle(Horizontal, needle), 0, rows, 0, cols - n + 1)|
    + |HitSet(data, cols, Needle(Vertical, needle), 0, rows - n + 1, 0, cols)|
    + |HitSet(data, cols, Needle(DiagonalRight, needle), 0, rows - n + 1, 0, cols - n + 1)|
    + |HitSet(data, cols, Needle(DiagonalLeft, needle), 0, rows - n + 1, n - 1, cols)|
  }

  lemma NeedleTotalReversed(data: seq<byte>, rows: nat, cols: nat, needle: seq<byte>)
    requires 1 <= |needle| <= rows && |needle| <= cols
    ensures NeedleTotal(data, rows, cols, needle) == NeedleTotal(data, rows, cols, Reverse(needle))
  {
    var n := |needle|;
    var h, v := cols - n + 1, rows - n + 1;
    CardReversed(data, cols, Horizontal, needle, 0, rows, 0, h);
    CardReversed(data, cols, Vertical, needle, 0, v, 0, cols);
    CardReversed(data, cols, DiagonalRight, needle, 0, v, 0, h);
    CardReversed(data, cols, DiagonalLeft, needle, 0, v, n - 1, cols);
  }

  lemma CardReversed(data: seq<byte>, cols: nat, o: Orientation, needle: seq<byte>, r0: nat, r1: nat, c0: nat, c1: nat)
    ensures |HitSet(data, cols, Needle(o, needle), r0, r1, c0, c1)|
      == |HitSet(data, cols, Needle(o, Reverse(needle)), r0, r1, c0, c1)|
  {
    HitSetReversed(data, cols, o, needle, r0, r1, c0, c1);
  }

  /** The letter grid, stored row-major. */
  class WordSearch {
    var data: seq<byte>
    const rows: nat
    const cols: nat

    ghost predicate Valid()
      reads this
    {
      |data| == rows * cols
    }

    /** A rows x cols grid of zero bytes. */
    constructor Zeros(rows: nat, cols: nat)
      ensures this.rows == rows && this.cols == cols && Valid()
      ensures forall i :: 0 <= i < |data| ==> data[i] == 0
    {
      this.rows := rows;
      this.cols := cols;
      data := seq(rows * cols, _ => 0);
    }

    function Idx(row: nat, col: nat): nat
    {
      Linear((row, col), cols)
    }

    /** Writes one byte at row * cols + col. */
    method Set(row: nat, col: nat, value: byte)
      requires Idx(row, col) < |data|
      modifies this
      ensures data == old(data)[Idx(row, col) := value]
    {
      data := data[Idx(row, col) := value];
    }

    function Get(row: nat, col: nat): byte
      reads this
      requires Idx(row, col) < |data|
    {
      data[Idx(row, col)]
    }

    /** `horizontal`, `vertical`, `diagonal_right` and `diagonal_left`: the
        n bytes from (row, col) along o, copied into a fresh buffer. */
    method Window(o: Orientation, row: nat, col: nat, n: nat) returns (ret: seq<byte>)
      requires Valid() && WindowAsserts(o, row, col, n, rows, cols)
      requires o == DiagonalLeft ==> Readable(data, cols, o, row, col, n)
      ensures |ret| == n
      ensures Readable(data, cols, o, row, col, n)
      ensures forall k :: 0 <= k < n ==> ret[k] == Cell(data, cols, Position(o, row, col, k))
      ensures o != DiagonalLeft ==> forall k :: 0 <= k < n ==>
        var p := Position(o, row, col, k); 0 <= p.0 < rows && 0 <= p.1 < cols
    {
      if o != DiagonalLeft {
        AssertedWindowInside(o, row, col, n);
      }
      var buffer := new byte[n](_ => 0);
      for offset := 0 to n
        invariant forall k :: 0 <= k < offset ==> buffer[k] == Cell(data, cols, Position(o, row, col, k))
      {
        buffer[offset] := Cell(data, cols, Position(o, row, col, offset));
      }
      ret := buffer[..];
    }

    /** Outside the left diagonal the assertions keep the window inside the
        grid, so every read is in the data. */
    lemma AssertedWindowInside(o: Orientation, row: nat, col: nat, n: nat)
      requires Valid() && WindowAsserts(o, row, col, n, rows, cols) && o != DiagonalLeft
      ensures forall k :: 0 <= k < n ==>
        var p := Position(o, row, col, k); 0 <= p.0 < rows && 0 <= p.1 < cols
      ensures Readable(data, cols, o, row, col, n)
    {
      forall k | 0 <= k < n
        ensures Addressable(data, cols, Position(o, row, col, k))
      {
        var p := Position(o, row, col, k);
        LinearInBounds((p.0 as nat, p.1 as nat), rows, cols);
      }
    }

    /** A left diagonal that starts inside the grid stays inside it. */
    lemma LeftWindowInside(row: nat, col: nat, n: nat)
      requires Valid() && WindowAsserts(DiagonalLeft, row, col, n, rows, cols) && col < cols
      ensures Readable(data, cols, DiagonalLeft, row, col, n)
    {
      forall k | 0 <= k < n
        ensures Addressable(data, cols, Position(DiagonalLeft, row, col, k))
      {
        LinearInBounds((row + k, col - k), rows, cols);
      }
    }

    /** `find_all_needles`: the windows that read the needle either way,
        over every start position each getter accepts, in the four
        orientations. */
    function FindAllNeedles(needle: seq<byte>): (count: nat)
      reads this
      requires Valid() && 1 <= |needle| <= rows && |needle| <= cols
      ensures count == NeedleTotal(data, rows, cols, needle)
    {
      var n := |needle|;
      CountRectCard(HitAt(data, cols, Needle(Horizontal, needle)), 0, rows, 0, cols - n + 1);
      CountRectCard(HitAt(data, cols, Needle(Vertical, needle)), 0, rows - n + 1, 0, cols);
      CountRectCard(HitAt(data, cols, Needle(DiagonalRight, needle)), 0, rows - n + 1, 0, cols - n + 1);
      CountRectCard(HitAt(data, cols, Needle(DiagonalLeft, needle)), 0, rows - n + 1, n - 1, cols);
      CountRect(HitAt(data, cols, Needle(Horizontal, needle)), 0, rows, 0, cols - n + 1)
      + CountRect(HitAt(data, cols, Needle(Vertical, needle)), 0, rows - n + 1, 0, cols)
      + CountRect(HitAt(data, cols, Needle(DiagonalRight, needle)), 0, rows - n + 1, 0, cols - n + 1)
      + CountRect(HitAt(data, cols, Needle(DiagonalLeft, needle)), 0, rows - n + 1, n - 1, cols)
    }

    /** Every window the count looks at passes its getter's assertions and
        reads only inside the data. */
    lemma CountedWindowsFit(o: Orientation, n: nat, r: nat, c: nat)
      requires Valid() && 1 <= n <= rows && n <= cols
      requires match o
        case Horizontal => r < rows && c < cols - n + 1
        case Vertical => r < rows - n + 1 && c < cols
        case DiagonalRight => r < rows - n + 1 && c < cols - n + 1
        case DiagonalLeft => r < rows - n + 1 && n - 1 <= c < cols
      ensures WindowAsserts(o, r, c, n, rows, cols) && Readable(data, cols, o, r, c, n)
    {
      if o == DiagonalLeft {
        LeftWindowInside(r, c, n);
      } else {
        AssertedWindowInside(o, r, c, n);
      }
    }

    /** Searching for a word or for its reverse gives the same count. */
    lemma FindAllNeedlesReversed(needle: seq<byte>)
      requires Valid() && 1 <= |needle| <= rows && |needle| <= cols
      ensures FindAllNeedles(needle) == FindAllNeedles(Reverse(needle))
    {
      NeedleTotalReversed(data, rows, cols, needle);
    }

    /** `find_all_sams`: the top-left corners (r, c), r < rows - 2 and
        c < cols - 2, of the 3x3 blocks whose two diagonals read MAS either way. */
    function FindAllSams(): (count: nat)
      reads this
      requires Valid() && 2 <= rows && 2 <= cols
      ensures count == |HitSet(data, cols, Sam, 0, rows - 2, 0, cols - 2)|
      ensures forall r: nat, c: nat :: (r, c) in HitSet(data, cols, Sam, 0, rows - 2, 0, cols - 2) ==>
        Matches(WindowOf(data, cols, DiagonalRight, r, c, 3), MAS)
        && Matches(WindowOf(data, cols, DiagonalLeft, r, c + 2, 3), MAS)
    {
      CountRectCard(HitAt(data, cols, Sam), 0, rows - 2, 0, cols - 2);
      CountRect(HitAt(data, cols, Sam), 0, rows - 2, 0, cols - 2)
    }
  }
}
