/** Day 8: antennas of one frequency put antinodes on every grid cell of the
    line through each pair of them (src/bin/day8/main.rs, the body of main). */
module Day8 {
  import opened Utils
  import opened Numbers

  const DOT: byte := 46

  /** A (row, column) position as signed 32-bit coordinates. */
  type Pos = (int, int)

  /** The cells of one line, tagged with their position. */
  function RowCells(row: seq<byte>, i: nat): (cells: seq<(byte, Pos)>)
    ensures |cells| == |row|
    ensures forall j :: 0 <= j < |row| ==> cells[j] == (row[j], (i as int, j as int))
  {
    seq(|row|, j requires 0 <= j < |row| => (row[j], (i as int, j as int)))
  }

  /** Every cell of the input in row-major order. */
  function Cells(input: seq<seq<byte>>): seq<(byte, Pos)>
  {
    if |input| == 0 then [] else Cells(input[..|input| - 1]) + RowCells(input[|input| - 1], |input| - 1)
  }

  /** The positions of the cells holding b, in order. */
  function FilterPos(cells: seq<(byte, Pos)>, b: byte): seq<Pos>
  {
    if |cells| == 0 then []
    else FilterPos(cells[..|cells| - 1], b) + if cells[|cells| - 1].0 == b then [cells[|cells| - 1].1] else []
  }

  ghost function Chars(cells: seq<(byte, Pos)>): set<byte>
  {
    set c <- cells :: c.0
  }

  /** The antenna map of a list of cells: a key per frequency that occurs,
      mapped to its positions in order. */
  ghost predicate Grouped(antennas: map<byte, seq<Pos>>, cells: seq<(byte, Pos)>)
  {
    (forall b :: b in antennas <==> b != DOT && b in Chars(cells))
    && forall b <- antennas :: antennas[b] == FilterPos(cells, b)
  }

  /** Adds one cell to the antenna map: appended to its frequency's list or
      starting a new one; `.` is skipped. */
  function Record(antennas: map<byte, seq<Pos>>, cell: (byte, Pos)): map<byte, seq<Pos>>
  {
    var (c, pos) := cell;
    if c == DOT then antennas
    else if c in antennas then antennas[c := antennas[c] + [pos]]
    else antennas[c := [pos]]
  }

  lemma FilterPosSnoc(cells: seq<(byte, Pos)>, cell: (byte, Pos), b: byte)
    ensures FilterPos(cells + [cell], b) == FilterPos(cells, b) + if cell.0 == b then [cell.1] else []
  {
    assert (cells + [cell])[..|cells|] == cells;
  }

  lemma FilterPosAbsent(cells: seq<(byte, Pos)>, b: byte)
    requires b !in Chars(cells)
    ensures FilterPos(cells, b) == []
  {
    if |cells| > 0 {
      assert cells[..|cells| - 1] + [cells[|cells| - 1]] == cells;
      assert Chars(cells[..|cells| - 1]) <= Chars(cells);
      FilterPosAbsent(cells[..|cells| - 1], b);
    }
  }

  /** Recording a cell keeps the map grouped. */
  lemma RecordStep(antennas: map<byte, seq<Pos>>, cells: seq<(byte, Pos)>, cell: (byte, Pos))
    requires Grouped(antennas, cells)
    ensures Grouped(Record(antennas, cell), cells + [cell])
  {
    var next := Record(antennas, cell);
    assert Chars(cells + [cell]) == Chars(cells) + {cell.0};
    forall b <- next
      ensures next[b] == FilterPos(cells + [cell], b)
    {
      FilterPosSnoc(cells, cell, b);
      if b == cell.0 && b !in antennas {
        FilterPosAbsent(cells, b);
      }
    }
  }

  lemma CellsSnoc(input: seq<seq<byte>>, i: nat)
    requires i < |input|
    ensures Cells(input[..i + 1]) == Cells(input[..i]) + RowCells(input[i], i)
  {
    assert input[..i + 1][..i] == input[..i];
  }

  /** The inner loop of the grouping: records the cells of line i. */
  method RecordRow(antennas: map<byte, seq<Pos>>, ghost done: seq<(byte, Pos)>, row: seq<byte>, i: nat)
    returns (result: map<byte, seq<Pos>>)
    requires Grouped(antennas, done)
    ensures Grouped(result, done + RowCells(row, i))
  {
    result := antennas;
    ghost var line := RowCells(row, i);
    assert done + line[..0] == done;
    for j := 0 to |row|
      invariant Grouped(result, done + line[..j])
    {
      var cell := (row[j], (i as int, j as int));
      RecordStep(result, done + line[..j], cell);
      assert done + line[..j + 1] == (done + line[..j]) + [cell];
      result := Record(result, cell);
    }
    assert line[..|row|] == line;
  }

  /** Grouping the antennas: every non-`.` byte is recorded under its
      character, in row-major order. */
  method GroupAntennas(input: seq<seq<byte>>) returns (antennas: map<byte, seq<Pos>>)
    ensures Grouped(antennas, Cells(input))
  {
    antennas := map[];
    for i := 0 to |input|
      invariant Grouped(antennas, Cells(input[..i]))
    {
      antennas := RecordRow(antennas, Cells(input[..i]), input[i], i);
      CellsSnoc(input, i);
    }
    assert input[..|input|] == input;
  }

  /** Row-major order on positions. */
  predicate Before(p: Pos, q: Pos)
  {
    p.0 < q.0 || (p.0 == q.0 && p.1 < q.1)
  }

  ghost predicate StrictlySorted(s: seq<Pos>)
  {
    forall i, j :: 0 <= i < j < |s| ==> Before(s[i], s[j])
  }

  /** The positions of a cell list come in row-major order. */
  ghost predicate CellsSorted(cells: seq<(byte, Pos)>)
  {
    forall i, j :: 0 <= i < j < |cells| ==> Before(cells[i].1, cells[j].1)
  }

  /** Every tagged position of the input is a real cell holding its byte. */
  lemma {:induction false} CellsSound(input: seq<seq<byte>>)
    ensures forall cell <- Cells(input) ::
      0 <= cell.1.0 < |input| && 0 <= cell.1.1 < |input[cell.1.0]| && input[cell.1.0][cell.1.1] == cell.0
  {
    if |input| > 0 {
      var init := input[..|input| - 1];
      CellsSound(init);
      assert forall r :: 0 <= r < |init| ==> init[r] == input[r];
    }
  }

  /** The tags come in row-major order. */
  lemma {:induction false} CellsInOrder(input: seq<seq<byte>>)
    ensures CellsSorted(Cells(input))
  {
    if |input| > 0 {
      var init := input[..|input| - 1];
      CellsInOrder(init);
      CellsSound(init);
      var front: seq<(byte, Pos)> := Cells(init);
      var last: seq<(byte, Pos)> := RowCells(input[|input| - 1], |input| - 1);
      var all: seq<(byte, Pos)> := front + last;
      forall i: nat, j: nat | i < j < |all|
        ensures Before(all[i].1, all[j].1)
      {
        if i < |front| && j >= |front| {
          assert front[i] in front;
        }
      }
    }
  }

  /** Every cell of the input is tagged. */
  lemma {:induction false} CellsComplete(input: seq<seq<byte>>, r: nat, c: nat)
    requires r < |input| && c < |input[r]|
    ensures (input[r][c], (r as int, c as int)) in Cells(input)
  {
    var init := input[..|input| - 1];
    if r < |init| {
      CellsComplete(init, r, c);
    } else {
      assert RowCells(input[r], r)[c] == (input[r][c], (r as int, c as int));
    }
  }

  /** The filtered positions keep the order of the cells. */
  lemma {:induction false} FilterPosSorted(cells: seq<(byte, Pos)>, b: byte)
    requires CellsSorted(cells)
    ensures StrictlySorted(FilterPos(cells, b))
    ensures forall p <- FilterPos(cells, b) :: (b, p) in cells
  {
    if |cells| > 0 {
      var init := cells[..|cells| - 1];
      var last := cells[|cells| - 1];
      FilterPosSorted(init, b);
      forall p <- FilterPos(init, b)
        ensures Before(p, last.1)
      {
        var k :| 0 <= k < |init| && init[k] == (b, p);
      }
    }
  }

  /** The grouped lists are the row-major lists of each frequency's cells. */
  lemma GroupedFacts(antennas: map<byte, seq<Pos>>, input: seq<seq<byte>>)
    requires Grouped(antennas, Cells(input))
    ensures forall b <- antennas :: StrictlySorted(antennas[b])
    ensures forall b <- antennas, p <- antennas[b] ::
      0 <= p.0 < |input| && 0 <= p.1 < |input[p.0]| && input[p.0][p.1] == b
    ensures forall r, c :: 0 <= r < |input| && 0 <= c < |input[r]| && input[r][c] != DOT ==>
      input[r][c] in antennas && (r, c) in antennas[input[r][c]]
  {
    var cells := Cells(input);
    CellsSound(input);
    CellsInOrder(input);
    forall b <- antennas
      ensures StrictlySorted(antennas[b]) && forall p <- antennas[b] :: (b, p) in cells
    {
      FilterPosSorted(cells, b);
    }
    forall r, c | 0 <= r < |input| && 0 <= c < |input[r]| && input[r][c] != DOT
      ensures input[r][c] in antennas && (r, c) in antennas[input[r][c]]
    {
      var b := input[r][c];
      CellsComplete(input, r, c);
      FilterPosComplete(cells, b, (r, c));
    }
  }

  lemma {:induction false} FilterPosComplete(cells: seq<(byte, Pos)>, b: byte, p: Pos)
    requires (b, p) in cells
    ensures p in FilterPos(cells, b)
  {
    var init := cells[..|cells| - 1];
    if cells[|cells| - 1] != (b, p) {
      assert cells == init + [cells[|cells| - 1]];
      FilterPosComplete(init, b, p);
    }
  }

  /** The grid the antinodes must fall in: rows x (length of the first line). */
  predicate InBounds(p: Pos, bounds: (int, int))
  {
    0 <= p.0 < bounds.0 && 0 <= p.1 < bounds.1
  }

  function Step(start: Pos, d: Pos, m: int): Pos
  {
    (start.0 + m * d.0, start.1 + m * d.1)
  }

  /** p is reached by stepping from start by d some number of times, start
      and p both lying in the grid. */
  ghost predicate OnRay(start: Pos, d: Pos, bounds: (int, int), p: Pos)
  {
    InBounds(start, bounds) && InBounds(p, bounds) && exists m: nat :: p == Step(start, d, m)
  }

  /** How far the walk can still go before it leaves the grid. */
  function Room(a: Pos, d: Pos, bounds: (int, int)): int
  {
    if d.0 > 0 then bounds.0 - a.0
    else if d.0 < 0 then a.0 + 1
    else if d.1 > 0 then bounds.1 - a.1
    else a.1 + 1
  }

  /** The cells a walk from start by d visits before it leaves the grid
      (just start when d is zero). */
  ghost function RayNodes(start: Pos, d: Pos, bounds: (int, int)): set<Pos>
    decreases if InBounds(start, bounds) then Room(start, d, bounds) else 0
  {
    if !InBounds(start, bounds) then {}
    else if d == (0, 0) then {start}
    else {start} + RayNodes((start.0 + d.0, start.1 + d.1), d, bounds)
  }

  /** Lying between two points of an interval stays in the interval. */
  lemma BetweenInRange(x: int, d: int, m: nat, s: nat, bound: int)
    requires 0 <= x < bound && 0 <= x + s * d < bound && m <= s
    ensures 0 <= x + m * d < bound
  {
    if d >= 0 {
      MulLeMono(m, s, d);
    } else {
      MulLeMono(m, s, -d);
    }
  }

  /** Every cell the walk visits is on the ray. */
  lemma {:induction false} RaySound(start: Pos, d: Pos, bounds: (int, int), p: Pos)
    requires p in RayNodes(start, d, bounds)
    ensures OnRay(start, d, bounds, p)
    decreases if InBounds(start, bounds) then Room(start, d, bounds) else 0
  {
    assert start == Step(start, d, 0);
    var next := (start.0 + d.0, start.1 + d.1);
    if p != start {
      RaySound(next, d, bounds, p);
      var m: nat :| p == Step(next, d, m);
      assert (m + 1) * d.0 == m * d.0 + d.0 && (m + 1) * d.1 == m * d.1 + d.1;
      assert p == Step(start, d, m + 1);
    }
  }

  /** Every cell of the ray is visited by the walk. */
  lemma {:induction false} RayComplete(start: Pos, d: Pos, bounds: (int, int), p: Pos)
    requires OnRay(start, d, bounds, p)
    ensures p in RayNodes(start, d, bounds)
    decreases if InBounds(start, bounds) then Room(start, d, bounds) else 0
  {
    var m: nat :| p == Step(start, d, m);
    if d != (0, 0) && m != 0 {
      var next := (start.0 + d.0, start.1 + d.1);
      assert next == Step(start, d, 1);
      BetweenInRange(start.0, d.0, 1, m, bounds.0);
      BetweenInRange(start.1, d.1, 1, m, bounds.1);
      assert m * d.0 == (m - 1) * d.0 + d.0 && m * d.1 == (m - 1) * d.1 + d.1;
      assert p == Step(next, d, m - 1);
      RayComplete(next, d, bounds, p);
    }
  }

  /** The walk visits exactly the points of the ray. */
  lemma RayMember(start: Pos, d: Pos, bounds: (int, int), p: Pos)
    ensures p in RayNodes(start, d, bounds) <==> OnRay(start, d, bounds, p)
  {
    if p in RayNodes(start, d, bounds) {
      RaySound(start, d, bounds, p);
    }
    if OnRay(start, d, bounds, p) {
      RayComplete(start, d, bounds, p);
    }
  }

  /** One `while !out_of_bounds(&antinode)` walk: insert every cell from
      start on, stepping by d, until the walk leaves the grid. */
  method WalkRay(start: Pos, d: Pos, bounds: (int, int), antinodes: set<Pos>) returns (result: set<Pos>)
    requires d != (0, 0)
    ensures result == antinodes + RayNodes(start, d, bounds)
  {
    result := antinodes;
    var antinode := start;
    while InBounds(antinode, bounds)
      invariant result + RayNodes(antinode, d, bounds) == antinodes + RayNodes(start, d, bounds)
      decreases Room(antinode, d, bounds)
    {
      result := result + {antinode};
      antinode := (antinode.0 + d.0, antinode.1 + d.1);
    }
  }

  function Minus(p: Pos, q: Pos): Pos
  {
    (p.0 - q.0, p.1 - q.1)
  }

  /** The antinodes of the pair (v[i], v[j]): the walk from the second
      antenna away from the first, and from the first away from the second. */
  ghost function PairNodes(v: seq<Pos>, bounds: (int, int), i: nat, j: nat): set<Pos>
  {
    if i < j < |v| then RayNodes(v[j], Minus(v[j], v[i]), bounds) + RayNodes(v[i], Minus(v[i], v[j]), bounds)
    else {}
  }

  ghost function Pairs(v: seq<Pos>, bounds: (int, int)): (nat, nat) -> set<Pos>
  {
    (i: nat, j: nat) => PairNodes(v, bounds, i, j)
  }

  /** The union of f(i, k) over i < k < j. */
  ghost function RowUnion(f: (nat, nat) -> set<Pos>, i: nat, j: nat): set<Pos>
    decreases j
  {
    if j <= i + 1 then {} else RowUnion(f, i, j - 1) + f(i, j - 1)
  }

  /** The union of f(a, k) over a < i and a < k < n. */
  ghost function ListUnion(f: (nat, nat) -> set<Pos>, i: nat, n: nat): set<Pos>
  {
    if i == 0 then {} else ListUnion(f, i - 1, n) + RowUnion(f, i - 1, n)
  }

  /** The antinodes of one frequency are the points on the rays of its pairs. */
  ghost predicate PairAntinode(v: seq<Pos>, bounds: (int, int), p: Pos)
  {
    exists i, j :: 0 <= i < j < |v| && p in PairNodes(v, bounds, i, j)
  }

  lemma {:induction false} RowUnionMember(f: (nat, nat) -> set<Pos>, i: nat, j: nat, p: Pos)
    ensures p in RowUnion(f, i, j) <==> exists k :: i < k < j && p in f(i, k)
    decreases j
  {
    if j > i + 1 {
      RowUnionMember(f, i, j - 1, p);
    }
  }

  lemma {:induction false} ListUnionMember(f: (nat, nat) -> set<Pos>, i: nat, n: nat, p: Pos)
    ensures p in ListUnion(f, i, n) <==> exists a, k :: 0 <= a < i && a < k < n && p in f(a, k)
  {
    if i > 0 {
      ListUnionMember(f, i - 1, n, p);
      RowUnionMember(f, i - 1, n, p);
      if p in RowUnion(f, i - 1, n) {
        var k :| i - 1 < k < n && p in f(i - 1, k);
        assert 0 <= i - 1 < i && i - 1 < k < n && p in f(i - 1, k);
      }
    }
  }

  /** The antinodes of one frequency's pairs. */
  lemma ListNodesMember(v: seq<Pos>, bounds: (int, int), p: Pos)
    ensures p in ListUnion(Pairs(v, bounds), |v|, |v|) <==> PairAntinode(v, bounds, p)
  {
    ListUnionMember(Pairs(v, bounds), |v|, |v|, p);
    if PairAntinode(v, bounds, p) {
      var i, j :| 0 <= i < j < |v| && p in PairNodes(v, bounds, i, j);
      assert p in Pairs(v, bounds)(i, j);
    }
  }

  lemma UnionAssoc(a: set<Pos>, b: set<Pos>, c: set<Pos>)
    ensures (a + b) + c == a + (b + c)
  {
  }

  /** One pair more in the row union, with nothing known about f. */
  lemma RowUnionStep(f: (nat, nat) -> set<Pos>, i: nat, j: nat, a: set<Pos>, result: set<Pos>, x: set<Pos>)
    requires i < j && result == (a + RowUnion(f, i, j)) + x && x == f(i, j)
    ensures result == a + RowUnion(f, i, j + 1)
  {
  }

  /** The two walks of one pair: from the second antenna away from the
      first, then from the first away from the second. */
  method PairAntinodes(first: Pos, second: Pos, bounds: (int, int), antinodes: set<Pos>) returns (result: set<Pos>)
    requires first != second
    ensures result == antinodes
      + (RayNodes(second, Minus(second, first), bounds) + RayNodes(first, Minus(first, second), bounds))
  {
    var d := Minus(second, first);
    result := WalkRay(second, d, bounds, antinodes);
    result := WalkRay(first, Minus(first, second), bounds, result);
    UnionAssoc(antinodes, RayNodes(second, d, bounds), RayNodes(first, Minus(first, second), bounds));
  }

  /** One more pair (i, j) in the inner loop. */
  method RowStep(v: seq<Pos>, bounds: (int, int), i: nat, j: nat, ghost antinodes: set<Pos>, acc: set<Pos>)
    returns (result: set<Pos>)
    requires i < j < |v| && v[i] != v[j] && acc == antinodes + RowUnion(Pairs(v, bounds), i, j)
    ensures result == antinodes + RowUnion(Pairs(v, bounds), i, j + 1)
  {
    result := PairAntinodes(v[i], v[j], bounds, acc);
    RowUnionStep(Pairs(v, bounds), i, j, antinodes, result, PairNodes(v, bounds, i, j));
  }

  /** The inner loop: the walks of each pair (i, j), i < j. */
  method RowAntinodes(v: seq<Pos>, bounds: (int, int), i: nat, antinodes: set<Pos>) returns (result: set<Pos>)
    requires i < |v| && forall k :: i < k < |v| ==> v[k] != v[i]
    ensures result == antinodes + RowUnion(Pairs(v, bounds), i, |v|)
  {
    result := antinodes;
    for j := i + 1 to |v|
      invariant result == antinodes + RowUnion(Pairs(v, bounds), i, j)
    {
      result := RowStep(v, bounds, i, j, antinodes, result);
    }
  }

  /** The two walks for every pair i < j of one frequency's list. */
  method ListAntinodes(v: seq<Pos>, bounds: (int, int), antinodes: set<Pos>) returns (result: set<Pos>)
    requires StrictlySorted(v)
    ensures result == antinodes + ListUnion(Pairs(v, bounds), |v|, |v|)
  {
    result := antinodes;
    for i := 0 to |v|
      invariant result == antinodes + ListUnion(Pairs(v, bounds), i, |v|)
    {
      assert forall k :: i < k < |v| ==> v[k] != v[i] by {
        forall k | i < k < |v| ensures v[k] != v[i] { assert Before(v[i], v[k]); }
      }
      result := RowAntinodes(v, bounds, i, result);
    }
  }

  /** p is an antinode of some frequency. */
  ghost predicate IsAntinode(antennas: map<byte, seq<Pos>>, bounds: (int, int), p: Pos)
  {
    exists b <- antennas :: PairAntinode(antennas[b], bounds, p)
  }

  /** The antinode set: every frequency's pairs, in whatever order the map
      yields its keys. */
  method Antinodes(antennas: map<byte, seq<Pos>>, bounds: (int, int)) returns (antinodes: set<Pos>)
    requires forall b <- antennas :: StrictlySorted(antennas[b])
    ensures forall p :: p in antinodes <==> IsAntinode(antennas, bounds, p)
  {
    antinodes := {};
    var keys := antennas.Keys;
    while keys != {}
      invariant keys <= antennas.Keys
      invariant forall p :: p in antinodes <==> exists b <- antennas.Keys - keys :: p in ListUnion(Pairs(antennas[b], bounds), |antennas[b]|, |antennas[b]|)
      decreases |keys|
    {
      var b :| b in keys;
      antinodes := ListAntinodes(antennas[b], bounds, antinodes);
      keys := keys - {b};
    }
    forall p
      ensures p in antinodes <==> IsAntinode(antennas, bounds, p)
    {
      forall b <- antennas {
        ListNodesMember(antennas[b], bounds, p);
      }
    }
  }

  /** The answer: the number of distinct antinode cells. */
  method CountAntinodes(input: seq<seq<byte>>) returns (count: nat, antennas: map<byte, seq<Pos>>, antinodes: set<Pos>)
    requires |input| > 0 && |input[0]| > 0
    ensures Grouped(antennas, Cells(input))
    ensures forall p :: p in antinodes <==> IsAntinode(antennas, (|input|, |input[0]|), p)
    ensures count == |antinodes|
  {
    var bounds := (|input|, |input[0]|);
    antennas := GroupAntennas(input);
    GroupedFacts(antennas, input);
    antinodes := Antinodes(antennas, bounds);
    count := |antinodes|;
  }

  /** Every antinode lies in the grid. */
  lemma AntinodeInBounds(antennas: map<byte, seq<Pos>>, bounds: (int, int), p: Pos)
    requires IsAntinode(antennas, bounds, p)
    ensures InBounds(p, bounds)
  {
    var b :| b in antennas && PairAntinode(antennas[b], bounds, p);
    var v := antennas[b];
    var i, j :| 0 <= i < j < |v| && p in PairNodes(v, bounds, i, j);
    if p in RayNodes(v[j], Minus(v[j], v[i]), bounds) {
      RaySound(v[j], Minus(v[j], v[i]), bounds, p);
    } else {
      RaySound(v[i], Minus(v[i], v[j]), bounds, p);
    }
  }

  /** An antenna of a frequency with at least two antennas is itself an
      antinode when it lies in the grid. */
  lemma AntennaIsAntinode(antennas: map<byte, seq<Pos>>, bounds: (int, int), b: byte, k: nat)
    requires b in antennas && |antennas[b]| >= 2 && k < |antennas[b]| && InBounds(antennas[b][k], bounds)
    ensures IsAntinode(antennas, bounds, antennas[b][k])
  {
    var v := antennas[b];
    var p := v[k];
    if k > 0 {
      assert p == Step(v[k], Minus(v[k], v[0]), 0);
      assert p in RayNodes(v[k], Minus(v[k], v[0]), bounds);
      assert p in PairNodes(v, bounds, 0, k);
    } else {
      assert p == Step(v[0], Minus(v[0], v[1]), 0);
      assert p in RayNodes(v[0], Minus(v[0], v[1]), bounds);
      assert p in PairNodes(v, bounds, 0, 1);
    }
  }

  /** The ray from the second antenna away from the first is on their line. */
  lemma ForwardOnLine(first: Pos, second: Pos, bounds: (int, int), p: Pos)
    requires OnRay(second, Minus(second, first), bounds, p)
    ensures exists k: int :: p == Step(first, Minus(second, first), k)
  {
    var d := Minus(second, first);
    var m: nat :| p == Step(second, d, m);
    assert (m + 1) * d.0 == m * d.0 + d.0 && (m + 1) * d.1 == m * d.1 + d.1;
    assert p == Step(first, d, m + 1);
  }

  /** So is the ray from the first antenna away from the second. */
  lemma BackwardOnLine(first: Pos, second: Pos, bounds: (int, int), p: Pos)
    requires OnRay(first, Minus(first, second), bounds, p)
    ensures exists k: int :: p == Step(first, Minus(second, first), k)
  {
    var d := Minus(second, first);
    var m: nat :| p == Step(first, Minus(first, second), m);
    var k: int := -(m as int);
    assert m * (-d.0) == k * d.0 && m * (-d.1) == k * d.1;
    assert p == Step(first, d, k);
  }

  /** A pair's antinodes lie on its line, and the pair is two distinct cells. */
  lemma PairOnLine(v: seq<Pos>, bounds: (int, int), i: nat, j: nat, p: Pos)
    requires StrictlySorted(v) && i < j < |v| && p in PairNodes(v, bounds, i, j)
    ensures v[i] != v[j] && exists k: int :: p == Step(v[i], Minus(v[j], v[i]), k)
  {
    assert Before(v[i], v[j]);
    RayMember(v[j], Minus(v[j], v[i]), bounds, p);
    RayMember(v[i], Minus(v[i], v[j]), bounds, p);
    if OnRay(v[j], Minus(v[j], v[i]), bounds, p) {
      ForwardOnLine(v[i], v[j], bounds, p);
    } else {
      BackwardOnLine(v[i], v[j], bounds, p);
    }
  }

  /** Every antinode is first + k * d for a pair (first, second) of one
      frequency with d = second - first nonzero. */
  lemma AntinodeOnLine(antennas: map<byte, seq<Pos>>, bounds: (int, int), p: Pos)
    requires forall b <- antennas :: StrictlySorted(antennas[b])
    requires IsAntinode(antennas, bounds, p)
    ensures exists b <- antennas, i, j, k: int ::
      (0 <= i < j < |antennas[b]| && antennas[b][i] != antennas[b][j]
       && p == Step(antennas[b][i], Minus(antennas[b][j], antennas[b][i]), k))
  {
    var b :| b in antennas && PairAntinode(antennas[b], bounds, p);
    var v := antennas[b];
    var i, j :| 0 <= i < j < |v| && p in PairNodes(v, bounds, i, j);
    PairOnLine(v, bounds, i, j, p);
    var k: int :| p == Step(v[i], Minus(v[j], v[i]), k);
  }
}
