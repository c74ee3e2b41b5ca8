/** Day 12, the prices: the fence cost sums area times perimeter, and the
    bulk-discount cost sums area times the number of straight sides, counted
    by sorting the fence pieces of each orientation (src/bin/day12/main.rs,
    lines 82-134). */
module Day12Sides {
  import opened Utils
  import opened Day12

  // ---------------------------------------------------------------------
  // Orientations

  /** The four `cmp_fns`: orientation 0 keeps the pieces whose neighbour is
      below, 1 above, 2 to the right and 3 to the left. The first two are
      keyed by (row, column) of the inside plot, the others by (column, row),
      so that pieces of one straight side share the first component and
      have consecutive second components. */
  function Orient(o: nat, e: Fence): (r: Option<Point>)
    requires o < 4
  {
    var inner, other := e.0, e.1;
    if o == 0 then (if other.0 > inner.0 then Some(inner) else None)
    else if o == 1 then (if inner.0 > other.0 then Some(inner) else None)
    else if o == 2 then (if other.1 > inner.1 then Some((inner.1, inner.0)) else None)
    else (if inner.1 > other.1 then Some((inner.1, inner.0)) else None)
  }

  /** The keys of orientation o over a set of fence pieces. */
  ghost function Keys(perimeter: set<Fence>, o: nat): set<Point>
    requires o < 4
  {
    set e | e in perimeter && Orient(o, e).Some? :: Orient(o, e).value
  }

  lemma KeysAdd(S: set<Fence>, e: Fence, o: nat)
    requires o < 4
    ensures Keys(S + {e}, o) == Keys(S, o) + (if Orient(o, e).Some? then {Orient(o, e).value} else {})
  {
  }

  /** `filter_map` over the perimeter set; a `HashSet` is visited in an order
      the model leaves open. The list holds exactly the keys. */
  method Collect(perimeter: set<Fence>, o: nat) returns (v: seq<Point>)
    requires o < 4
    ensures forall p :: p in v <==> p in Keys(perimeter, o)
  {
    v := [];
    var rest := perimeter;
    while rest != {}
      invariant rest <= perimeter
      invariant forall p :: p in v <==> p in Keys(perimeter - rest, o)
      decreases rest
    {
      var e :| e in rest;
      KeysAdd(perimeter - rest, e, o);
      assert perimeter - (rest - {e}) == perimeter - rest + {e};
      match Orient(o, e) {
        case Some(p) =>
          v := v + [p];
        case None =>
      }
      rest := rest - {e};
    }
    assert perimeter - rest == perimeter;
  }

  // ---------------------------------------------------------------------
  // Sorting (the library's `sort`)

  /** The order of `(i32, i32)` tuples: lexicographic. */
  predicate PointLe(a: Point, b: Point)
  {
    a.0 < b.0 || (a.0 == b.0 && a.1 <= b.1)
  }

  ghost predicate Sorted(v: seq<Point>)
  {
    forall i, j :: 0 <= i < j < |v| ==> PointLe(v[i], v[j])
  }

  /** x inserted into v before the first element not below it. */
  function Insert(x: Point, v: seq<Point>): (r: seq<Point>)
    ensures multiset(r) == multiset(v) + multiset{x}
  {
    if v == [] then [x]
    else if PointLe(x, v[0]) then [x] + v
    else
      assert v == [v[0]] + v[1..];
      [v[0]] + Insert(x, v[1..])
  }

  lemma {:induction false} InsertSorted(x: Point, v: seq<Point>)
    requires Sorted(v)
    ensures Sorted(Insert(x, v))
  {
    if v != [] && !PointLe(x, v[0]) {
      var r' := Insert(x, v[1..]);
      assert Sorted(v[1..]);
      InsertSorted(x, v[1..]);
      assert v == [v[0]] + v[1..];
      forall y | y in r'
        ensures PointLe(v[0], y)
      {
        assert y in multiset(r');
      }
      SortedCons(v[0], r');
    } else if v != [] {
      SortedCons(x, v);
    }
  }

  lemma SortedCons(x: Point, v: seq<Point>)
    requires Sorted(v) && forall y :: y in v ==> PointLe(x, y)
    ensures Sorted([x] + v)
  {
    forall i, j | 0 <= i < j < |[x] + v|
      ensures PointLe(([x] + v)[i], ([x] + v)[j])
    {
      assert ([x] + v)[j] == v[j - 1];
      if i > 0 {
        assert ([x] + v)[i] == v[i - 1];
      }
    }
  }

  /** `v.sort()`: the elements of v in order. */
  function SortPoints(v: seq<Point>): (r: seq<Point>)
    ensures Sorted(r) && multiset(r) == multiset(v)
  {
    if v == [] then []
    else
      assert v == v[..|v| - 1] + [v[|v| - 1]];
      var s := SortPoints(v[..|v| - 1]);
      InsertSorted(v[|v| - 1], s);
      Insert(v[|v| - 1], s)
  }

  // ---------------------------------------------------------------------
  // Counting the sides of one orientation

  /** The Rust's test for a new side: another line, or a gap along it. */
  predicate NewSide(last: Point, p: Point)
  {
    last.0 != p.0 || p.1 - last.1 > 1
  }

  /** The sides the loop has counted after the first n keys. */
  function Breaks(v: seq<Point>, n: nat): nat
    requires n <= |v|
  {
    if n <= 1 then 0 else Breaks(v, n - 1) + (if NewSide(v[n - 2], v[n - 1]) then 1 else 0)
  }

  /** The first piece of each straight side: the keys whose predecessor on
      the same line is not a key. */
  ghost function Starts(S: set<Point>): set<Point>
  {
    set p | p in S && (p.0, p.1 - 1) !in S
  }

  /** The keys a list holds. */
  ghost function Elems(v: seq<Point>): set<Point>
  {
    set p | p in v
  }

  /** The loop body over the sorted keys (lines 113-125): `last` starts at
      the first key, which therefore never starts a side inside the loop;
      the final increment counts it. */
  method CountSides(v: seq<Point>) returns (sides: nat)
    requires |v| > 0
    ensures sides == Breaks(v, |v|) + 1
  {
    sides := 0;
    var last := v[0];
    for i := 0 to |v|
      invariant sides == Breaks(v, i)
      invariant last == v[if i == 0 then 0 else i - 1]
    {
      var p := v[i];
      if last.0 != p.0 {
        sides := sides + 1;
      } else if p.1 - last.1 > 1 {
        sides := sides + 1;
      }
      last := p;
    }
    sides := sides + 1;
  }

  /** On sorted keys, the count is the number of straight sides: the keys
      that start one. */
  lemma SidesAreStarts(v: seq<Point>)
    requires Sorted(v) && |v| > 0
    ensures Breaks(v, |v|) + 1 == |Starts(Elems(v))|
  {
    PrefixStarts(v, |v|);
    assert v[..|v|] == v;
  }

  lemma {:induction false} PrefixStarts(v: seq<Point>, n: nat)
    requires Sorted(v) && 0 < n <= |v|
    ensures Breaks(v, n) + 1 == |Starts(Elems(v[..n]))|
  {
    if n == 1 {
      assert Elems(v[..1]) == {v[0]};
      assert Starts({v[0]}) == {v[0]};
    } else {
      PrefixStarts(v, n - 1);
      var S := Elems(v[..n - 1]);
      var q, p := v[n - 2], v[n - 1];
      assert Elems(v[..n]) == S + {p} by {
        assert v[..n] == v[..n - 1] + [p];
      }
      assert q in S by {
        assert v[..n - 1][n - 2] == q;
      }
      forall x | x in S
        ensures PointLe(x, q)
      {
        var j :| 0 <= j < n - 1 && v[..n - 1][j] == x;
        assert v[j] == x;
      }
      StartsGrow(S, q, p);
    }
  }

  /** Adding a key p that is not below any key, with q the greatest key. */
  lemma StartsGrow(S: set<Point>, q: Point, p: Point)
    requires q in S && PointLe(q, p) && forall x :: x in S ==> PointLe(x, q)
    ensures |Starts(S + {p})| == |Starts(S)| + (if NewSide(q, p) then 1 else 0)
  {
    if p in S {
      assert p == q;
      assert S + {p} == S;
    } else {
      assert (p.0, p.1 - 1) in S <==> (p.0, p.1 - 1) == q;
      assert forall x :: x in S ==> (x.0, x.1 - 1) != p;
      StartsAdd(S, p);
    }
  }

  lemma StartsAdd(S: set<Point>, p: Point)
    requires p !in S && forall x :: x in S ==> (x.0, x.1 - 1) != p
    ensures Starts(S + {p}) == Starts(S) + (if (p.0, p.1 - 1) in S then {} else {p})
  {
  }

  /** The least key of a nonempty set starts a side: its predecessor on the
      line is below it. */
  lemma StartsNonempty(K: set<Point>)
    requires K != {}
    ensures |Starts(K)| >= 1
  {
    var p := LeastKey(K);
    assert p in Starts(K);
  }

  lemma {:induction false} LeastKey(K: set<Point>) returns (p: Point)
    requires K != {}
    ensures p in K && forall x :: x in K ==> PointLe(p, x)
  {
    var y :| y in K;
    if K == {y} {
      p := y;
    } else {
      var q := LeastKey(K - {y});
      p := if PointLe(q, y) then q else y;
      forall x | x in K
        ensures PointLe(p, x)
      {
        if x != y {
          assert x in K - {y};
        }
      }
    }
  }

  // ---------------------------------------------------------------------
  // Every region has pieces of all four orientations

  /** How far along orientation o a plot lies. */
  function Score(o: nat, c: Coord): int
    requires o < 4
  {
    if o == 0 then c.0 else if o == 1 then -(c.0 as int) else if o == 2 then c.1 else -(c.1 as int)
  }

  /** The direction the pieces of orientation o face. */
  function Facing(o: nat): (j: nat)
    requires o < 4
    ensures j < 4
  {
    if o == 0 then 1 else if o == 1 then 0 else if o == 2 then 3 else 2
  }

  lemma {:induction false} Extreme(A: set<Coord>, o: nat) returns (c: Coord)
    requires A != {} && o < 4
    ensures c in A && forall x :: x in A ==> Score(o, x) <= Score(o, c)
  {
    var y :| y in A;
    if A == {y} {
      c := y;
    } else {
      var z := Extreme(A - {y}, o);
      c := if Score(o, y) <= Score(o, z) then z else y;
      forall x | x in A
        ensures Score(o, x) <= Score(o, c)
      {
        if x != y {
          assert x in A - {y};
        }
      }
    }
  }

  lemma RegionLinks(h: Plot, A: set<Coord>, a: Coord, b: Coord)
    requires h.Valid() && Region(h, A) && a in A
    ensures Link(h, a, b) ==> b in A
  {
    if Link(h, a, b) {
      RegionClosed(h, A, a, b);
    }
  }

  /** The plot of a region furthest along orientation o borders the map's
      edge or another plant on that side, so no orientation is without keys:
      the `v[0]` of the side count always exists. */
  lemma KeysNonempty(h: Plot, A: set<Coord>, o: nat)
    requires h.Valid() && Region(h, A) && o < 4
    ensures Keys(Fences(h, A), o) != {}
  {
    var s :| s in A && Component(h, s, A);
    var c := Extreme(A, o);
    var d := DIRECTIONS[Facing(o)];
    ExtremeBorders(h, A, o, c);
    FencesMeaning(h, A, FenceOf(c, d));
    FacingKey(o, c);
    assert Orient(o, FenceOf(c, d)).value in Keys(Fences(h, A), o);
  }

  lemma ExtremeBorders(h: Plot, A: set<Coord>, o: nat, c: Coord)
    requires h.Valid() && Region(h, A) && o < 4
    requires c in A && forall x :: x in A ==> Score(o, x) <= Score(o, c)
    ensures Borders(h, c, DIRECTIONS[Facing(o)])
  {
    var d := DIRECTIONS[Facing(o)];
    var s :| s in A && Component(h, s, A);
    assert h.Inside(c);
    if h.Step(c, d).Some? {
      var n := h.Step(c, d).value;
      RegionLinks(h, A, c, n);
      assert Score(o, n) > Score(o, c);
    }
  }

  lemma FacingKey(o: nat, c: Coord)
    requires o < 4
    ensures Orient(o, FenceOf(c, DIRECTIONS[Facing(o)])).Some?
  {
  }

  // ---------------------------------------------------------------------
  // The sides of one garden, and the two prices

  /** The number of straight sides of a perimeter: the sides of the first k
      orientations. */
  ghost function SidesUpTo(perimeter: set<Fence>, k: nat): nat
    requires k <= 4
  {
    if k == 0 then 0 else SidesUpTo(perimeter, k - 1) + |Starts(Keys(perimeter, k - 1))|
  }

  ghost function Sides(perimeter: set<Fence>): nat
  {
    SidesUpTo(perimeter, 4)
  }

  lemma SortedElems(v: seq<Point>)
    ensures Elems(SortPoints(v)) == Elems(v)
  {
    var r := SortPoints(v);
    forall p
      ensures p in r <==> p in v
    {
      assert p in r <==> p in multiset(r);
      assert p in v <==> p in multiset(v);
    }
  }

  /** One turn of the `for cmp_fn in cmp_fns` loop (lines 107-125):
      collect, sort and count the keys of orientation o. */
  method OrientationSides(perimeter: set<Fence>, o: nat) returns (n: nat)
    requires o < 4 && Keys(perimeter, o) != {}
    ensures n == |Starts(Keys(perimeter, o))|
  {
    var v := Collect(perimeter, o);
    var vs := SortPoints(v);
    SortedElems(v);
    ghost var k :| k in Keys(perimeter, o);
    assert k in Elems(vs);
    n := CountSides(vs);
    SidesAreStarts(vs);
    assert Elems(v) == Keys(perimeter, o);
  }

  /** The loop over the four orientations (lines 105-126). */
  method SidesOf(perimeter: set<Fence>) returns (sides: nat)
    requires forall o :: o < 4 ==> Keys(perimeter, o) != {}
    ensures sides == Sides(perimeter)
  {
    sides := 0;
    for o := 0 to 4
      invariant sides == SidesUpTo(perimeter, o)
    {
      var n := OrientationSides(perimeter, o);
      sides := sides + n;
    }
  }

  /** Every garden has at least four sides. */
  lemma FourSides(h: Plot, A: set<Coord>)
    requires h.Valid() && Region(h, A)
    ensures Sides(Fences(h, A)) >= 4
  {
    var P := Fences(h, A);
    forall o | o < 4
      ensures |Starts(Keys(P, o))| >= 1
    {
      KeysNonempty(h, A, o);
      StartsNonempty(Keys(P, o));
    }
    assert SidesUpTo(P, 1) >= 1;
    assert SidesUpTo(P, 2) >= 2;
    assert SidesUpTo(P, 3) >= 3;
  }

  /** Lines 82-85: the sum of area times perimeter. */
  function FenceCost(gardens: seq<Garden>): nat
  {
    if gardens == [] then 0
    else FenceCost(gardens[..|gardens| - 1]) + |gardens[|gardens| - 1].area| * |gardens[|gardens| - 1].perimeter|
  }

  /** Lines 89-132, as a specification: the sum of sides times area. */
  ghost function SidesCostOf(gardens: seq<Garden>): nat
  {
    if gardens == [] then 0
    else SidesCostOf(gardens[..|gardens| - 1]) + Sides(gardens[|gardens| - 1].perimeter) * |gardens[|gardens| - 1].area|
  }

  /** The bulk-discount price, garden by garden. */
  method SidesCost(gardens: seq<Garden>) returns (cost: nat)
    requires forall i, o :: 0 <= i < |gardens| && o < 4 ==> Keys(gardens[i].perimeter, o) != {}
    ensures cost == SidesCostOf(gardens)
  {
    cost := 0;
    for i := 0 to |gardens|
      invariant cost == SidesCostOf(gardens[..i])
    {
      var sides := SidesOf(gardens[i].perimeter);
      assert gardens[..i + 1][..i] == gardens[..i];
      cost := cost + sides * |gardens[i].area|;
    }
    assert gardens[..|gardens|] == gardens;
  }

  /** Every garden of a division has keys in all four orientations. */
  lemma GardensKeyed(h: Plot, gardens: seq<Garden>)
    requires h.Valid() && Fenced(h, gardens)
    ensures forall i, o :: 0 <= i < |gardens| && o < 4 ==> Keys(gardens[i].perimeter, o) != {}
  {
    forall i, o | 0 <= i < |gardens| && o < 4
      ensures Keys(gardens[i].perimeter, o) != {}
    {
      GardenKeyed(h, gardens[i], o);
    }
  }

  lemma GardenKeyed(h: Plot, g: Garden, o: nat)
    requires h.Valid() && Region(h, g.area) && g.perimeter == Fences(h, g.area) && o < 4
    ensures Keys(g.perimeter, o) != {}
  {
    KeysNonempty(h, g.area, o);
  }

  /** `find_gardens` with its two printed totals returned: the fence cost and
      the bulk-discount cost of a division of the map into its regions. */
  method Prices(grid: Grid<byte>) returns (cost: nat, costWithSides: nat)
    requires grid.Valid() && grid.rows > 0 && grid.cols > 0
    ensures exists gardens :: Charted(Snapshot(grid), gardens) && cost == FenceCost(gardens) && costWithSides == SidesCostOf(gardens)
  {
    ghost var h := Snapshot(grid);
    var gardens := FindGardens(grid);
    cost := FenceCost(gardens);
    GardensKeyed(h, gardens);
    costWithSides := SidesCost(gardens);
  }
}
