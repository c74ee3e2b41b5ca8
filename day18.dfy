/** Day 18: bytes fall onto a square memory grid; Dijkstra's algorithm over
    a binary heap finds the length of the shortest way from the top-left to
    the bottom-right corner, and part two finds the first byte after which
    no way is left (src/bin/day18/main.rs). The heap is a sequence whose
    `pop` takes the greatest element, the distance table a map. */
module Day18 {
  import opened Utils

  // ---------------------------------------------------------------------
  // Heap elements and their order

  /** `PathElement`: a queued cell with the length of the way that reached it. */
  datatype PathElement = PathElement(score: nat, pos: Coord)

  datatype Ordering = Less | Equal | Greater

  function Flip(o: Ordering): Ordering
  {
    match o
    case Less => Greater
    case Equal => Equal
    case Greater => Less
  }

  /** `cmp` on unsigned integers. */
  function CmpNat(a: nat, b: nat): (r: Ordering)
    ensures r == Less <==> a < b
    ensures r == Equal <==> a == b
  {
    if a < b then Less else if a == b then Equal else Greater
  }

  /** `cmp` on pairs: lexicographic. */
  function CmpPos(a: Coord, b: Coord): Ordering
  {
    match CmpNat(a.0, b.0)
    case Equal => CmpNat(a.1, b.1)
    case Less => Less
    case Greater => Greater
  }

  /** `PathElement::cmp`: the score compared the other way round, then the
      position. */
  function Cmp(a: PathElement, b: PathElement): Ordering
  {
    match CmpNat(b.score, a.score)
    case Equal => CmpPos(a.pos, b.pos)
    case Less => Less
    case Greater => Greater
  }

  /** The order is reversed on score: a lower score is greater, so a
      max-heap pops a lowest score first. */
  lemma CmpReversesScore(a: PathElement, b: PathElement)
    ensures a.score < b.score ==> Cmp(a, b) == Greater
    ensures a.score > b.score ==> Cmp(a, b) == Less
    ensures Cmp(a, b) != Greater ==> a.score >= b.score
  {
  }

  /** `cmp` is a total order, as `Ord` demands: antisymmetric, equal only
      on equal elements, and transitive. */
  lemma CmpTotalOrder(a: PathElement, b: PathElement, c: PathElement)
    ensures Cmp(a, b) == Flip(Cmp(b, a))
    ensures Cmp(a, b) == Equal <==> a == b
    ensures Cmp(a, b) != Greater && Cmp(b, c) != Greater ==> Cmp(a, c) != Greater
  {
  }

  /** `BinaryHeap::pop`: removes a greatest element. */
  method Pop(q: seq<PathElement>) returns (e: PathElement, rest: seq<PathElement>)
    requires |q| > 0
    ensures multiset(q) == multiset(rest) + multiset{e}
    ensures forall k :: 0 <= k < |q| ==> Cmp(q[k], e) != Greater
    ensures forall k :: 0 <= k < |q| ==> e.score <= q[k].score
  {
    var best := 0;
    for i := 1 to |q|
      invariant best < i
      invariant forall k :: 0 <= k < i ==> Cmp(q[k], q[best]) != Greater
    {
      if Cmp(q[i], q[best]) == Greater {
        forall k | 0 <= k < i
          ensures Cmp(q[k], q[i]) != Greater
        {
          CmpTotalOrder(q[k], q[best], q[i]);
          CmpTotalOrder(q[i], q[best], q[i]);
        }
        best := i;
      }
    }
    e := q[best];
    rest := q[..best] + q[best + 1..];
    assert q == q[..best] + [e] + q[best + 1..];
    forall k | 0 <= k < |q|
      ensures e.score <= q[k].score
    {
      CmpReversesScore(q[k], e);
    }
  }


  // ---------------------------------------------------------------------
  // Moves

  /** o is one of p's four orthogonal neighbours. */
  predicate Neighbour(p: Coord, o: Coord)
  {
    (o.0 == p.0 && (o.1 == p.1 + 1 || o.1 + 1 == p.1))
    || (o.1 == p.1 && (o.0 == p.0 + 1 || o.0 + 1 == p.0))
  }

  /** The neighbours `find_shortest_path` considers from p, as the code is
      written: a step up in either coordinate is bounded by bounds.0. This
      is the rule the search below follows. */
  function OptionsAsWritten(p: Coord, bounds: (nat, nat)): (r: seq<Coord>)
    requires bounds.0 > 0
    ensures forall o: Coord :: o in r <==> Neighbour(p, o) && (o.0 > p.0 ==> o.0 < bounds.0) && (o.1 > p.1 ==> o.1 < bounds.0)
  {
    (if p.0 > 0 then [(p.0 - 1, p.1)] else [])
    + (if p.0 < bounds.0 - 1 then [(p.0 + 1, p.1)] else [])
    + (if p.1 > 0 then [(p.0, p.1 - 1)] else [])
    + (if p.1 < bounds.0 - 1 then [(p.0, p.1 + 1)] else [])
  }

  /** On a grid that is not square the written bound lets the search leave
      it: from (0, 0) on a 3 x 1 grid it considers (0, 1), whose second
      coordinate is not below bounds.1. */
  lemma OptionsAsWrittenLeavesGrid()
    ensures var bounds: (nat, nat), o: Coord := (3, 1), (0, 1);
            o in OptionsAsWritten((0, 0), bounds) && !(o.1 < bounds.1) && o !in Options((0, 0), bounds)
  {
  }

  /** The neighbours that were evidently meant, each coordinate bounded by
      its own bound. */
  function Options(p: Coord, bounds: (nat, nat)): (r: seq<Coord>)
    requires bounds.0 > 0 && bounds.1 > 0
    ensures forall o: Coord :: o in r <==> Neighbour(p, o) && (o.0 > p.0 ==> o.0 < bounds.0) && (o.1 > p.1 ==> o.1 < bounds.1)
  {
    (if p.0 > 0 then [(p.0 - 1, p.1)] else [])
    + (if p.0 < bounds.0 - 1 then [(p.0 + 1, p.1)] else [])
    + (if p.1 > 0 then [(p.0, p.1 - 1)] else [])
    + (if p.1 < bounds.1 - 1 then [(p.0, p.1 + 1)] else [])
  }

  /** From an in-bounds cell, every intended option is in bounds. */
  lemma OptionsInBounds(p: Coord, bounds: (nat, nat))
    requires bounds.0 > 0 && bounds.1 > 0 && p.0 < bounds.0 && p.1 < bounds.1
    ensures forall o :: o in Options(p, bounds) ==> o.0 < bounds.0 && o.1 < bounds.1
  {
  }

  /** On a square grid, the one `main` uses, the written rule is the
      intended one, so the search's answers there are about the grid. */
  lemma OptionsAgreeOnSquare(p: Coord, bounds: (nat, nat))
    requires bounds.0 > 0 && bounds.0 == bounds.1
    ensures OptionsAsWritten(p, bounds) == Options(p, bounds)
  {
  }

  // ---------------------------------------------------------------------
  // Ways through the memory

  /** w is a way from `from` to `to`: each step goes to an option of the
      previous cell that no byte has fallen on. */
  ghost predicate IsWay(bounds: (nat, nat), fallen: set<Coord>, w: seq<Coord>, from: Coord, to: Coord)
    requires bounds.0 > 0
  {
    |w| > 0 && w[0] == from && w[|w| - 1] == to
    && forall i :: 0 <= i < |w| - 1 ==> StepOk(bounds, fallen, w, i)
  }

  /** Step i of w goes to an option of w[i] that no byte has fallen on. */
  ghost predicate StepOk(bounds: (nat, nat), fallen: set<Coord>, w: seq<Coord>, i: nat)
    requires bounds.0 > 0 && i + 1 < |w|
  {
    w[i + 1] in OptionsAsWritten(w[i], bounds) && w[i + 1] !in fallen
  }

  /** There is a way of n steps. */
  ghost predicate ReachableIn(bounds: (nat, nat), fallen: set<Coord>, from: Coord, to: Coord, n: nat)
    requires bounds.0 > 0
  {
    exists w :: IsWay(bounds, fallen, w, from, to) && |w| == n + 1
  }

  ghost predicate Reachable(bounds: (nat, nat), fallen: set<Coord>, from: Coord, to: Coord)
    requires bounds.0 > 0
  {
    exists w :: IsWay(bounds, fallen, w, from, to)
  }

  lemma WayExtend(bounds: (nat, nat), fallen: set<Coord>, from: Coord, p: Coord, n: nat, o: Coord)
    requires bounds.0 > 0
    requires ReachableIn(bounds, fallen, from, p, n) && o in OptionsAsWritten(p, bounds) && o !in fallen
    ensures ReachableIn(bounds, fallen, from, o, n + 1)
  {
    var w :| IsWay(bounds, fallen, w, from, p) && |w| == n + 1;
    var w' := w + [o];
    forall i | 0 <= i < |w'| - 1
      ensures StepOk(bounds, fallen, w', i)
    {
      if i < |w| - 1 {
        assert StepOk(bounds, fallen, w, i);
        assert w'[i] == w[i] && w'[i + 1] == w[i + 1];
      } else {
        assert w'[i] == p && w'[i + 1] == o;
      }
    }
    assert IsWay(bounds, fallen, w', from, o);
  }

  /** A way of no steps stays where it starts. */
  lemma ZeroWay(bounds: (nat, nat), fallen: set<Coord>, from: Coord, to: Coord)
    requires bounds.0 > 0
    ensures ReachableIn(bounds, fallen, from, to, 0) <==> from == to
  {
    if from == to {
      assert IsWay(bounds, fallen, [from], from, to);
    }
  }

  /** Every cell a way passes is reached by the way's prefix. */
  lemma WayPrefix(bounds: (nat, nat), fallen: set<Coord>, w: seq<Coord>, from: Coord, to: Coord, m: nat)
    requires bounds.0 > 0 && IsWay(bounds, fallen, w, from, to) && m < |w|
    ensures ReachableIn(bounds, fallen, from, w[m], m)
  {
    var v := w[..m + 1];
    forall i | 0 <= i < |v| - 1
      ensures StepOk(bounds, fallen, v, i)
    {
      assert StepOk(bounds, fallen, w, i);
      assert v[i] == w[i] && v[i + 1] == w[i + 1];
    }
    assert IsWay(bounds, fallen, v, from, w[m]);
  }

  /** Adding bytes only removes ways. */
  lemma MoreBytesFewerWays(bounds: (nat, nat), fallen: set<Coord>, more: set<Coord>, from: Coord, to: Coord)
    requires bounds.0 > 0 && fallen <= more
    ensures Reachable(bounds, more, from, to) ==> Reachable(bounds, fallen, from, to)
  {
    if Reachable(bounds, more, from, to) {
      var w :| IsWay(bounds, more, w, from, to);
      forall i | 0 <= i < |w| - 1
        ensures StepOk(bounds, fallen, w, i)
      {
        assert StepOk(bounds, more, w, i);
      }
      assert IsWay(bounds, fallen, w, from, to);
    }
  }

  // ---------------------------------------------------------------------
  // Termination measure: the sum of the distance table

  ghost function Pick(m: map<Coord, nat>): (k: Coord)
    requires |m| > 0
    ensures k in m
  {
    var k :| k in m; k
  }

  ghost function MapSum(m: map<Coord, nat>): nat
    decreases |m|
  {
    if |m| == 0 then 0
    else
      var k := Pick(m);
      m[k] + MapSum(m - {k})
  }

  /** The sum does not depend on the key taken first. */
  lemma {:induction false} MapSumRemove(m: map<Coord, nat>, k: Coord)
    requires k in m
    ensures MapSum(m) == m[k] + MapSum(m - {k})
    decreases |m|
  {
    var j := Pick(m);
    if j != k {
      assert |m - {j}| == |m| - 1;
      assert |m - {k}| == |m| - 1;
      MapSumRemove(m - {j}, k);
      MapSumRemove(m - {k}, j);
      assert m - {j} - {k} == m - {k} - {j};
    }
  }

  /** Lowering or adding one entry changes the sum by the difference. */
  lemma MapSumUpdate(m: map<Coord, nat>, k: Coord, v: nat)
    ensures k in m ==> MapSum(m[k := v]) + m[k] == MapSum(m) + v
    ensures k !in m ==> MapSum(m[k := v]) == MapSum(m) + v
  {
    MapSumRemove(m[k := v], k);
    assert m[k := v] - {k} == m - {k};
    if k in m {
      MapSumRemove(m, k);
    } else {
      MapSumAbsent(m, k);
    }
  }

  lemma MapSumAbsent(m: map<Coord, nat>, k: Coord)
    requires k !in m
    ensures MapSum(m - {k}) == MapSum(m)
  {
    assert m - {k} == m;
  }

  /** The cells the search can ever touch: the start's rectangle joined with
      the square of side bounds.0 that the written rule keeps to. */
  function Region(start: Coord, bounds: (nat, nat)): (r: set<Coord>)
    ensures forall c :: c in r <==> c.0 <= Max(start.0, bounds.0) && c.1 <= Max(start.1, bounds.0)
  {
    set x: nat, y: nat | x <= Max(start.0, bounds.0) && y <= Max(start.1, bounds.0) :: (x, y)
  }

  function Max(a: nat, b: nat): nat
  {
    if a < b then b else a
  }

  // ---------------------------------------------------------------------
  // The search

  /** Every option of p that no byte has fallen on is in the table, at
      distance at most s + 1. */
  ghost predicate Relaxed(bounds: (nat, nat), fallen: set<Coord>, p: Coord, s: nat, distances: map<Coord, nat>)
    requires bounds.0 > 0
  {
    forall o :: o in OptionsAsWritten(p, bounds) && o !in fallen ==> o in distances && distances[o] <= s + 1
  }

  /** A finished cell: its distance is no longer than any way to it, and
      its options are relaxed from that distance. */
  ghost predicate Settled(start: Coord, bounds: (nat, nat), fallen: set<Coord>, p: Coord, distances: map<Coord, nat>)
    requires bounds.0 > 0
  {
    p in distances
    && (forall n :: ReachableIn(bounds, fallen, start, p, n) ==> distances[p] <= n)
    && Relaxed(bounds, fallen, p, distances[p], distances)
  }

  /** What the search keeps between two pops:
      - the start stays in the table at distance 0;
      - every queued element's score is the length of a way to its cell and
        no less than the cell's distance;
      - every cell in the table is queued with its distance, or finished;
      - finished cells are settled;
      - the end was never popped. */
  ghost predicate SearchInv(start: Coord, end: Coord, bounds: (nat, nat), fallen: set<Coord>,
                            q: seq<PathElement>, distances: map<Coord, nat>, done: set<Coord>)
    requires bounds.0 > 0
  {
    start in distances && distances[start] == 0 && distances.Keys <= Region(start, bounds) && end !in done
    && (forall k :: 0 <= k < |q| ==> q[k].pos in distances && distances[q[k].pos] <= q[k].score
                                     && ReachableIn(bounds, fallen, start, q[k].pos, q[k].score))
    && (forall p :: p in distances ==> PathElement(distances[p], p) in q || p in done)
    && (forall p :: p in done ==> Settled(start, bounds, fallen, p, distances))
  }

  /** From (q, d) to (q2, d2) the search only queued options of e's cell
      with score e.score + 1 and lowered or added their distances to that
      score; every lowered or added distance is queued; unless a cell was
      added, the sum of the table and the queue length did not grow. */
  ghost predicate Grows(bounds: (nat, nat), fallen: set<Coord>, e: PathElement,
                        q: seq<PathElement>, d: map<Coord, nat>, q2: seq<PathElement>, d2: map<Coord, nat>)
    requires bounds.0 > 0
  {
    |q| <= |q2| && q2[..|q|] == q
    && d.Keys <= d2.Keys
    && (forall p :: p in d ==> d2[p] <= d[p])
    && (forall p :: p in d2 && (p !in d || d2[p] != d[p]) ==> Changed(bounds, fallen, e, p, d2))
    && (forall k :: |q| <= k < |q2| ==> Queued(bounds, fallen, e, q2[k], d2))
    && (forall p :: p in d2 && (p !in d || d2[p] != d[p]) ==> PathElement(d2[p], p) in q2[|q|..])
    && (d2.Keys == d.Keys ==> MapSum(d2) + |q2| <= MapSum(d) + |q|)
  }

  /** p's distance was set from e: p is a free option of e's cell, one step
      further. */
  ghost predicate Changed(bounds: (nat, nat), fallen: set<Coord>, e: PathElement, p: Coord, d: map<Coord, nat>)
    requires bounds.0 > 0 && p in d
  {
    p in OptionsAsWritten(e.pos, bounds) && p !in fallen && d[p] == e.score + 1
  }

  /** x was queued from e: one step further, onto an option of e's cell,
      and no shorter than that cell's distance. */
  ghost predicate Queued(bounds: (nat, nat), fallen: set<Coord>, e: PathElement, x: PathElement, d: map<Coord, nat>)
    requires bounds.0 > 0
  {
    x.score == e.score + 1 && x.pos in OptionsAsWritten(e.pos, bounds) && x.pos !in fallen
    && x.pos in d && d[x.pos] <= x.score
  }

  lemma GrowsNone(bounds: (nat, nat), fallen: set<Coord>, e: PathElement, q: seq<PathElement>, d: map<Coord, nat>)
    requires bounds.0 > 0
    ensures Grows(bounds, fallen, e, q, d, q, d)
  {
    assert q[..|q|] == q;
  }

  lemma GrowsTrans(bounds: (nat, nat), fallen: set<Coord>, e: PathElement,
                   q1: seq<PathElement>, d1: map<Coord, nat>, q2: seq<PathElement>, d2: map<Coord, nat>,
                   q3: seq<PathElement>, d3: map<Coord, nat>)
    requires bounds.0 > 0
    requires Grows(bounds, fallen, e, q1, d1, q2, d2) && Grows(bounds, fallen, e, q2, d2, q3, d3)
    ensures Grows(bounds, fallen, e, q1, d1, q3, d3)
  {
    assert q3[..|q1|] == q1 by {
      assert q3[..|q1|] == q3[..|q2|][..|q1|];
    }
    forall k | |q1| <= k < |q3|
      ensures Queued(bounds, fallen, e, q3[k], d3)
    {
      if k < |q2| {
        assert q3[k] == q3[..|q2|][k];
        assert Queued(bounds, fallen, e, q2[k], d2);
      }
    }
    forall p | p in d3 && (p !in d1 || d3[p] != d1[p])
      ensures Changed(bounds, fallen, e, p, d3)
    {
      if p in d2 && d3[p] == d2[p] {
        assert Changed(bounds, fallen, e, p, d2);
      }
    }
    forall p | p in d3 && (p !in d1 || d3[p] != d1[p])
      ensures PathElement(d3[p], p) in q3[|q1|..]
    {
      if p in d2 && d3[p] == d2[p] {
        var x := PathElement(d2[p], p);
        assert x in q2[|q1|..];
        var k :| |q1| <= k < |q2| && q2[k] == x;
        assert q3[k] == q3[..|q2|][k];
        assert q3[|q1|..][k - |q1|] == x;
      } else {
        var x := PathElement(d3[p], p);
        assert x in q3[|q2|..];
        var k :| |q2| <= k < |q3| && q3[k] == x;
        assert q3[|q1|..][k - |q1|] == x;
      }
    }
  }

  lemma GrowsPush(bounds: (nat, nat), fallen: set<Coord>, e: PathElement,
                  q: seq<PathElement>, d: map<Coord, nat>, option: Coord)
    requires bounds.0 > 0 && option in OptionsAsWritten(e.pos, bounds) && option !in fallen
    requires option !in d || e.score + 1 < d[option]
    ensures Grows(bounds, fallen, e, q, d, q + [PathElement(e.score + 1, option)], d[option := e.score + 1])
  {
    var x := PathElement(e.score + 1, option);
    var q2 := q + [x];
    var d2 := d[option := e.score + 1];
    assert q2[..|q|] == q;
    assert q2[|q|..] == [x];
    assert |q2| == |q| + 1 && q2[|q|] == x;
    assert Queued(bounds, fallen, e, x, d2);
    forall k | |q| <= k < |q2|
      ensures Queued(bounds, fallen, e, q2[k], d2)
    {
      assert k == |q|;
    }
    forall p | p in d
      ensures d2[p] <= d[p]
    {
      if p == option {
        assert d2[p] == e.score + 1;
      }
    }
    forall p | p in d2 && (p !in d || d2[p] != d[p])
      ensures Changed(bounds, fallen, e, p, d2) && PathElement(d2[p], p) in q2[|q|..]
    {
      assert p == option;
    }
    if d2.Keys == d.Keys {
      assert option in d;
      MapSumUpdate(d, option, e.score + 1);
    }
  }

  /** One of the four blocks of the loop: queue `option` with score + 1 if
      no byte is there and that beats its distance so far. */
  method Relax(q: seq<PathElement>, distances: map<Coord, nat>, e: PathElement, option: Coord,
               bounds: (nat, nat), fallen: set<Coord>)
    returns (q': seq<PathElement>, distances': map<Coord, nat>)
    requires bounds.0 > 0 && option in OptionsAsWritten(e.pos, bounds)
    ensures option !in fallen ==> option in distances' && distances'[option] <= e.score + 1
    ensures distances'.Keys == distances.Keys + (if option in fallen then {} else {option})
    ensures forall p :: p in distances' && p != option ==> distances'[p] == distances[p]
    ensures option in distances && distances'[option] != distances[option] ==> distances'[option] < distances[option]
    ensures Grows(bounds, fallen, e, q, distances, q', distances')
  {
    q', distances' := q, distances;
    if option !in fallen && (option !in distances || e.score + 1 < distances[option]) {
      distances' := distances[option := e.score + 1];
      q' := q + [PathElement(e.score + 1, option)];
      GrowsPush(bounds, fallen, e, q, distances, option);
    } else {
      GrowsNone(bounds, fallen, e, q, distances);
    }
  }

  /** Relaxed, one neighbour block at a time, with the written bounds. */
  lemma RelaxedByCases(bounds: (nat, nat), fallen: set<Coord>, x: nat, y: nat, s: nat, d: map<Coord, nat>)
    requires bounds.0 > 0
    requires x > 0 && (x - 1, y) !in fallen ==> (x - 1, y) in d && d[(x - 1, y)] <= s + 1
    requires x < bounds.0 - 1 && (x + 1, y) !in fallen ==> (x + 1, y) in d && d[(x + 1, y)] <= s + 1
    requires y > 0 && (x, y - 1) !in fallen ==> (x, y - 1) in d && d[(x, y - 1)] <= s + 1
    requires y < bounds.0 - 1 && (x, y + 1) !in fallen ==> (x, y + 1) in d && d[(x, y + 1)] <= s + 1
    ensures Relaxed(bounds, fallen, (x, y), s, d)
  {
  }

  /** The loop body after the pop: the four neighbour blocks, the second
      coordinate's step up bounded by bounds.0 as written. */
  method Expand(q: seq<PathElement>, distances: map<Coord, nat>, e: PathElement,
                bounds: (nat, nat), fallen: set<Coord>)
    returns (q': seq<PathElement>, distances': map<Coord, nat>)
    requires bounds.0 > 0
    ensures Grows(bounds, fallen, e, q, distances, q', distances')
    ensures Relaxed(bounds, fallen, e.pos, e.score, distances')
  {
    var x, y := e.pos.0, e.pos.1;
    var s := e.score;
    q', distances' := q, distances;
    GrowsNone(bounds, fallen, e, q, distances);
    if x > 0 {
      q', distances' := RelaxFrom(q, distances, q', distances', e, (x - 1, y), bounds, fallen);
    }
    ghost var d1 := distances';
    assert Lowers(d1, d1);
    if x < bounds.0 - 1 {
      q', distances' := RelaxFrom(q, distances, q', distances', e, (x + 1, y), bounds, fallen);
    }
    ghost var d2 := distances';
    assert Lowers(d2, d2);
    if y > 0 {
      q', distances' := RelaxFrom(q, distances, q', distances', e, (x, y - 1), bounds, fallen);
    }
    ghost var d3 := distances';
    assert Lowers(d3, d3);
    if y < bounds.0 - 1 {
      q', distances' := RelaxFrom(q, distances, q', distances', e, (x, y + 1), bounds, fallen);
    }
    assert Lowers(d1, d2) && Lowers(d2, d3) && Lowers(d3, distances');
    if x > 0 {
      Below(d1, d2, d3, distances', (x - 1, y), s + 1, (x - 1, y) !in fallen);
    }
    Below(d2, d2, d3, distances', (x + 1, y), s + 1, x < bounds.0 - 1 && (x + 1, y) !in fallen);
    if y > 0 {
      Below(d3, d3, d3, distances', (x, y - 1), s + 1, (x, y - 1) !in fallen);
    }
    RelaxedByCases(bounds, fallen, x, y, s, distances');
  }

  /** d2 keeps every key of d, and no entry rises. */
  ghost predicate Lowers(d: map<Coord, nat>, d2: map<Coord, nat>)
  {
    forall p :: p in d ==> p in d2 && d2[p] <= d[p]
  }

  /** A distance, once at most b, stays at most b through three later
      tables that only lower entries. */
  lemma Below(d1: map<Coord, nat>, d2: map<Coord, nat>, d3: map<Coord, nat>, d4: map<Coord, nat>,
              o: Coord, b: nat, cond: bool)
    requires cond ==> o in d1 && d1[o] <= b
    requires Lowers(d1, d2) && Lowers(d2, d3) && Lowers(d3, d4)
    ensures cond ==> o in d4 && d4[o] <= b
  {
  }

  /** Relax as a further step of one expansion from (q0, d0). */
  method RelaxFrom(q0: seq<PathElement>, d0: map<Coord, nat>, q: seq<PathElement>, d: map<Coord, nat>,
                   e: PathElement, option: Coord, bounds: (nat, nat), fallen: set<Coord>)
    returns (q2: seq<PathElement>, d2: map<Coord, nat>)
    requires bounds.0 > 0 && option in OptionsAsWritten(e.pos, bounds)
    requires Grows(bounds, fallen, e, q0, d0, q, d)
    ensures Grows(bounds, fallen, e, q0, d0, q2, d2)
    ensures Lowers(d, d2)
    ensures option !in fallen ==> option in d2 && d2[option] <= e.score + 1
  {
    q2, d2 := Relax(q, d, e, option, bounds, fallen);
    GrowsTrans(bounds, fallen, e, q0, d0, q, d, q2, d2);
  }

  /** Options of a cell of the region stay in the region. */
  lemma OptionsInRegion(start: Coord, bounds: (nat, nat), p: Coord)
    requires bounds.0 > 0 && p in Region(start, bounds)
    ensures forall o :: o in OptionsAsWritten(p, bounds) ==> o in Region(start, bounds)
  {
  }

  /** One turn of the loop keeps the search invariant: e was popped as a
      least-score element and its options relaxed. */
  lemma SearchStep(start: Coord, end: Coord, bounds: (nat, nat), fallen: set<Coord>,
                   q: seq<PathElement>, d: map<Coord, nat>, done: set<Coord>,
                   e: PathElement, rest: seq<PathElement>, q2: seq<PathElement>, d2: map<Coord, nat>)
    requires bounds.0 > 0
    requires SearchInv(start, end, bounds, fallen, q, d, done)
    requires multiset(q) == multiset(rest) + multiset{e} && e.pos != end
    requires forall k :: 0 <= k < |q| ==> e.score <= q[k].score
    requires Grows(bounds, fallen, e, rest, d, q2, d2) && Relaxed(bounds, fallen, e.pos, e.score, d2)
    ensures SearchInv(start, end, bounds, fallen, q2, d2, done + {e.pos})
  {
    assert e in multiset(q);
    assert e in q;
    RegionStep(start, bounds, fallen, d, e, rest, q2, d2);
    QueueStep(start, bounds, fallen, q, d, e, rest, q2, d2);
    TableStep(bounds, fallen, q, d, done, e, rest, q2, d2);
    DoneStep(start, end, bounds, fallen, q, d, done, e, rest, q2, d2);
  }

  /** After a turn the table still lies in the region. */
  lemma RegionStep(start: Coord, bounds: (nat, nat), fallen: set<Coord>, d: map<Coord, nat>,
                   e: PathElement, rest: seq<PathElement>, q2: seq<PathElement>, d2: map<Coord, nat>)
    requires bounds.0 > 0
    requires d.Keys <= Region(start, bounds) && e.pos in d
    requires Grows(bounds, fallen, e, rest, d, q2, d2)
    ensures d.Keys <= d2.Keys <= Region(start, bounds)
  {
    OptionsInRegion(start, bounds, e.pos);
    forall p | p in d2
      ensures p in Region(start, bounds)
    {
      if p !in d {
        assert Changed(bounds, fallen, e, p, d2);
      }
    }
  }

  /** After a turn, every queued element still names a cell of the table,
      no nearer than its score, and a length some way from the start has. */
  lemma QueueStep(start: Coord, bounds: (nat, nat), fallen: set<Coord>,
                  q: seq<PathElement>, d: map<Coord, nat>,
                  e: PathElement, rest: seq<PathElement>, q2: seq<PathElement>, d2: map<Coord, nat>)
    requires bounds.0 > 0
    requires forall k :: 0 <= k < |q| ==> q[k].pos in d && d[q[k].pos] <= q[k].score
                                          && ReachableIn(bounds, fallen, start, q[k].pos, q[k].score)
    requires multiset(q) == multiset(rest) + multiset{e} && e in q
    requires Grows(bounds, fallen, e, rest, d, q2, d2)
    ensures forall k :: 0 <= k < |q2| ==> q2[k].pos in d2 && d2[q2[k].pos] <= q2[k].score
                                          && ReachableIn(bounds, fallen, start, q2[k].pos, q2[k].score)
  {
    assert ReachableIn(bounds, fallen, start, e.pos, e.score);
    forall k | 0 <= k < |q2|
      ensures q2[k].pos in d2 && d2[q2[k].pos] <= q2[k].score
              && ReachableIn(bounds, fallen, start, q2[k].pos, q2[k].score)
    {
      if k < |rest| {
        assert q2[k] == q2[..|rest|][k];
        assert rest[k] in multiset(q);
        assert rest[k] in q;
      } else {
        assert Queued(bounds, fallen, e, q2[k], d2);
        WayExtend(bounds, fallen, start, e.pos, e.score, q2[k].pos);
      }
    }
  }

  /** After a turn, every cell of the table is queued with its distance or
      finished. */
  lemma TableStep(bounds: (nat, nat), fallen: set<Coord>,
                  q: seq<PathElement>, d: map<Coord, nat>, done: set<Coord>,
                  e: PathElement, rest: seq<PathElement>, q2: seq<PathElement>, d2: map<Coord, nat>)
    requires bounds.0 > 0
    requires forall p :: p in d ==> PathElement(d[p], p) in q || p in done
    requires multiset(q) == multiset(rest) + multiset{e}
    requires Grows(bounds, fallen, e, rest, d, q2, d2)
    ensures forall p :: p in d2 ==> PathElement(d2[p], p) in q2 || p in done + {e.pos}
  {
    forall p | p in d2
      ensures PathElement(d2[p], p) in q2 || p in done + {e.pos}
    {
      var x := PathElement(d2[p], p);
      if p !in d || d2[p] != d[p] {
        assert x in q2[|rest|..];
      } else if x in q && x != e {
        assert multiset(q)[x] == multiset(rest)[x] + multiset{e}[x];
        assert x in multiset(rest);
        assert x in rest;
        var k :| 0 <= k < |rest| && rest[k] == x;
        assert q2[..|rest|][k] == x;
      }
    }
  }


  /** A distance set from e is a way length, so a settled cell and e's own
      cell keep their distances through a turn. */
  lemma DistanceKept(start: Coord, bounds: (nat, nat), fallen: set<Coord>, d: map<Coord, nat>,
                     e: PathElement, rest: seq<PathElement>, q2: seq<PathElement>, d2: map<Coord, nat>, p: Coord)
    requires bounds.0 > 0
    requires ReachableIn(bounds, fallen, start, e.pos, e.score)
    requires Grows(bounds, fallen, e, rest, d, q2, d2)
    requires (p == e.pos && p in d) || Settled(start, bounds, fallen, p, d)
    ensures d2[p] == d[p]
  {
    if d2[p] != d[p] {
      assert Changed(bounds, fallen, e, p, d2);
      if p != e.pos {
        WayExtend(bounds, fallen, start, e.pos, e.score, p);
      }
    }
  }

  /** After a turn every finished cell, the popped one included, is
      settled. The popped cell is new only when it was queued with its
      distance, so its score is that distance; any way to it passes a
      queued cell no farther than the way is long, and e has the least
      score of the queue. */
  lemma DoneStep(start: Coord, end: Coord, bounds: (nat, nat), fallen: set<Coord>,
                 q: seq<PathElement>, d: map<Coord, nat>, done: set<Coord>,
                 e: PathElement, rest: seq<PathElement>, q2: seq<PathElement>, d2: map<Coord, nat>)
    requires bounds.0 > 0
    requires SearchInv(start, end, bounds, fallen, q, d, done) && e in q
    requires forall k :: 0 <= k < |q| ==> e.score <= q[k].score
    requires Grows(bounds, fallen, e, rest, d, q2, d2) && Relaxed(bounds, fallen, e.pos, e.score, d2)
    ensures forall p :: p in done + {e.pos} ==> Settled(start, bounds, fallen, p, d2)
  {
    var i :| 0 <= i < |q| && q[i] == e;
    assert ReachableIn(bounds, fallen, start, e.pos, e.score);
    forall p | p in done
      ensures Settled(start, bounds, fallen, p, d2)
    {
      SettledKept(start, bounds, fallen, d, e, rest, q2, d2, p);
    }
    if e.pos !in done {
      var c := e.pos;
      assert PathElement(d[c], c) in q;
      DistanceKept(start, bounds, fallen, d, e, rest, q2, d2, c);
      assert d2[c] == e.score;
      forall n | ReachableIn(bounds, fallen, start, c, n)
        ensures d2[c] <= n
      {
        Frontier(start, end, bounds, fallen, q, d, done, c, n);
      }
      assert Settled(start, bounds, fallen, c, d2);
    }
  }

  /** A settled cell stays settled through a turn. */
  lemma SettledKept(start: Coord, bounds: (nat, nat), fallen: set<Coord>, d: map<Coord, nat>,
                    e: PathElement, rest: seq<PathElement>, q2: seq<PathElement>, d2: map<Coord, nat>, p: Coord)
    requires bounds.0 > 0
    requires ReachableIn(bounds, fallen, start, e.pos, e.score)
    requires Grows(bounds, fallen, e, rest, d, q2, d2) && Settled(start, bounds, fallen, p, d)
    ensures Settled(start, bounds, fallen, p, d2)
  {
    DistanceKept(start, bounds, fallen, d, e, rest, q2, d2, p);
    forall o | o in OptionsAsWritten(p, bounds) && o !in fallen
      ensures o in d2 && d2[o] <= d2[p] + 1
    {
      assert o in d && d[o] <= d[p] + 1;
    }
  }

  /** The first cell of w outside a set, given one is outside. */
  lemma FirstOutside(w: seq<Coord>, done: set<Coord>, k: nat) returns (j: nat)
    requires k < |w| && w[k] !in done
    ensures j <= k && w[j] !in done && forall i :: 0 <= i < j ==> w[i] in done
  {
    j := 0;
    while w[j] in done
      invariant j <= k && forall i :: 0 <= i < j ==> w[i] in done
      decreases k - j
    {
      j := j + 1;
    }
  }

  /** Any way from the start to a cell that is not finished passes a cell
      that is queued with a score no larger than the way is long: the
      first unfinished cell of the way, reached from a settled one. */
  lemma Frontier(start: Coord, end: Coord, bounds: (nat, nat), fallen: set<Coord>,
                 q: seq<PathElement>, d: map<Coord, nat>, done: set<Coord>, p: Coord, n: nat)
    requires bounds.0 > 0
    requires SearchInv(start, end, bounds, fallen, q, d, done)
    requires ReachableIn(bounds, fallen, start, p, n) && p !in done
    ensures exists k :: 0 <= k < |q| && q[k].score <= n
  {
    var w :| IsWay(bounds, fallen, w, start, p) && |w| == n + 1;
    var j := FirstOutside(w, done, n);
    FirstOutsideNear(start, end, bounds, fallen, q, d, done, w, p, j);
    var c := w[j];
    var x := PathElement(d[c], c);
    assert x in q;
    var k :| 0 <= k < |q| && q[k] == x;
  }

  /** The first unfinished cell of a way is in the table, at a distance no
      larger than its place on the way. */
  lemma FirstOutsideNear(start: Coord, end: Coord, bounds: (nat, nat), fallen: set<Coord>,
                         q: seq<PathElement>, d: map<Coord, nat>, done: set<Coord>,
                         w: seq<Coord>, p: Coord, j: nat)
    requires bounds.0 > 0
    requires SearchInv(start, end, bounds, fallen, q, d, done)
    requires IsWay(bounds, fallen, w, start, p) && j < |w|
    requires forall i :: 0 <= i < j ==> w[i] in done
    ensures w[j] in d && d[w[j]] <= j
  {
    if j > 0 {
      var b := w[j - 1];
      WayPrefix(bounds, fallen, w, start, p, j - 1);
      assert b in done;
      assert Settled(start, bounds, fallen, b, d);
      assert d[b] <= j - 1;
      assert StepOk(bounds, fallen, w, j - 1);
      assert Relaxed(bounds, fallen, b, d[b], d);
    }
  }

  /** A proper subset has fewer elements. */
  lemma ProperSubsetSmaller<T>(a: set<T>, b: set<T>)
    requires a < b
    ensures |a| < |b|
  {
    var x :| x in b && x !in a;
    assert b == a + (b - a);
    assert x in b - a;
  }

  /** The measure of the loop falls on every turn that does not return. */
  lemma SearchMeasure(start: Coord, bounds: (nat, nat), fallen: set<Coord>,
                      q: seq<PathElement>, d: map<Coord, nat>,
                      e: PathElement, rest: seq<PathElement>, q2: seq<PathElement>, d2: map<Coord, nat>)
    requires bounds.0 > 0
    requires |q| == |rest| + 1 && d2.Keys <= Region(start, bounds)
    requires Grows(bounds, fallen, e, rest, d, q2, d2)
    ensures |Region(start, bounds) - d2.Keys| < |Region(start, bounds) - d.Keys|
            || (|Region(start, bounds) - d2.Keys| == |Region(start, bounds) - d.Keys| && MapSum(d2) + |q2| < MapSum(d) + |q|)
  {
    if d2.Keys != d.Keys {
      var r := Region(start, bounds);
      assert r - d2.Keys < r - d.Keys;
      ProperSubsetSmaller(r - d2.Keys, r - d.Keys);
    }
  }

  /** An empty queue means the end cannot be reached: a way to it would
      pass a queued cell. */
  lemma Unreachable(start: Coord, end: Coord, bounds: (nat, nat), fallen: set<Coord>,
                    d: map<Coord, nat>, done: set<Coord>)
    requires bounds.0 > 0
    requires SearchInv(start, end, bounds, fallen, [], d, done)
    ensures !Reachable(bounds, fallen, start, end)
  {
    if w :| IsWay(bounds, fallen, w, start, end) {
      assert ReachableIn(bounds, fallen, start, end, |w| - 1);
      Frontier(start, end, bounds, fallen, [], d, done, end, |w| - 1);
      assert false;
    }
  }

  /** A least-score element popped at the end is no longer than any way
      to the end. */
  lemma Shortest(start: Coord, end: Coord, bounds: (nat, nat), fallen: set<Coord>,
                 q: seq<PathElement>, d: map<Coord, nat>, done: set<Coord>, e: PathElement)
    requires bounds.0 > 0
    requires SearchInv(start, end, bounds, fallen, q, d, done) && e.pos == end
    requires forall k :: 0 <= k < |q| ==> e.score <= q[k].score
    ensures forall n :: ReachableIn(bounds, fallen, start, end, n) ==> e.score <= n
  {
    forall n | ReachableIn(bounds, fallen, start, end, n)
      ensures e.score <= n
    {
      Frontier(start, end, bounds, fallen, q, d, done, end, n);
    }
  }

  /** The search starts with the start queued at distance 0. */
  lemma SearchInit(start: Coord, end: Coord, bounds: (nat, nat), fallen: set<Coord>)
    requires bounds.0 > 0
    ensures SearchInv(start, end, bounds, fallen, [PathElement(0, start)], map[start := 0], {})
  {
    assert IsWay(bounds, fallen, [start], start, start);
  }

  /** A popped element is as far from the start as its score says. */
  lemma PoppedReachable(start: Coord, end: Coord, bounds: (nat, nat), fallen: set<Coord>,
                        q: seq<PathElement>, d: map<Coord, nat>, done: set<Coord>,
                        e: PathElement, rest: seq<PathElement>)
    requires bounds.0 > 0
    requires SearchInv(start, end, bounds, fallen, q, d, done)
    requires multiset(q) == multiset(rest) + multiset{e}
    ensures ReachableIn(bounds, fallen, start, e.pos, e.score)
  {
    assert e in multiset(q);
    assert e in q;
  }

  /** `find_shortest_path`: Dijkstra's search from start to end with the
      fallen bytes as walls and the neighbours of the written rule. It
      returns the score of the first popped element at the end, the length
      of a shortest way there, or None once the queue is empty, exactly
      when no way is left. bounds.0 must be positive: `bounds.0 - 1`
      underflows otherwise. */
  method FindShortestPath(start: Coord, end: Coord, bounds: (nat, nat), fallen: set<Coord>)
    returns (res: Option<nat>)
    requires bounds.0 > 0
    ensures res.Some? ==> ReachableIn(bounds, fallen, start, end, res.value)
    ensures res.Some? ==> forall n :: ReachableIn(bounds, fallen, start, end, n) ==> res.value <= n
    ensures res.None? <==> !Reachable(bounds, fallen, start, end)
  {
    var q := [PathElement(0, start)];
    var distances := map[start := 0];
    ghost var done: set<Coord> := {};
    ghost var region := Region(start, bounds);
    SearchInit(start, end, bounds, fallen);
    while true
      invariant SearchInv(start, end, bounds, fallen, q, distances, done)
      decreases |region - distances.Keys|, MapSum(distances) + |q|
    {
      if |q| == 0 {
        Unreachable(start, end, bounds, fallen, distances, done);
        return None;
      }
      var e, rest := Pop(q);
      if e.pos == end {
        PoppedReachable(start, end, bounds, fallen, q, distances, done, e, rest);
        Shortest(start, end, bounds, fallen, q, distances, done, e);
        return Some(e.score);
      }
      var q2, d2 := Expand(rest, distances, e, bounds, fallen);
      SearchStep(start, end, bounds, fallen, q, distances, done, e, rest, q2, d2);
      assert |multiset(q)| == |multiset(rest)| + 1;
      SearchMeasure(start, bounds, fallen, q, distances, e, rest, q2, d2);
      q, distances, done := q2, d2, done + {e.pos};
    }
  }

  /** On bounds (3, 1), following line 93, the search reaches the cell
      (0, 1) past the grid's single column in one step. */
  method NonSquareSearch() returns (r: Option<nat>)
    ensures r == Some(1)
  {
    var bounds: (nat, nat) := (3, 1);
    var w: seq<Coord> := [(0, 0), (0, 1)];
    assert StepOk(bounds, {}, w, 0);
    assert IsWay(bounds, {}, w, (0, 0), (0, 1));
    assert ReachableIn(bounds, {}, (0, 0), (0, 1), 1);
    ZeroWay(bounds, {}, (0, 0), (0, 1));
    r := FindShortestPath((0, 0), (0, 1), bounds, {});
  }


  // ---------------------------------------------------------------------
  // The two parts

  const BOUNDS: (nat, nat) := (71, 71)
  const START: Coord := (0, 0)
  const END: Coord := (70, 70)
  const NUM_BYTES_FALLEN: nat := 1024

  /** The cells of the first n bytes. */
  function Fallen(bytes: seq<Coord>, n: nat): (r: set<Coord>)
    requires n <= |bytes|
    ensures forall c :: c in r <==> exists k :: 0 <= k < n && bytes[k] == c
  {
    set k | 0 <= k < n :: bytes[k]
  }

  lemma FallenNext(bytes: seq<Coord>, n: nat)
    requires n < |bytes|
    ensures Fallen(bytes, n + 1) == Fallen(bytes, n) + {bytes[n]}
  {
  }

  /** Once the end is cut off, more fallen bytes keep it cut off: the first
      blocking byte is the only place the answer can change. */
  lemma BlockedStaysBlocked(bytes: seq<Coord>, i: nat, j: nat)
    requires i <= j <= |bytes|
    requires !Reachable(BOUNDS, Fallen(bytes, i), START, END)
    ensures !Reachable(BOUNDS, Fallen(bytes, j), START, END)
  {
    MoreBytesFewerWays(BOUNDS, Fallen(bytes, i), Fallen(bytes, j), START, END);
  }

  /** No byte before index i (and from NUM_BYTES_FALLEN on) has cut the end
      off yet. */
  ghost predicate OpenBefore(bytes: seq<Coord>, i: nat)
    requires i <= |bytes|
  {
    forall j :: NUM_BYTES_FALLEN <= j < i ==> OpenAfter(bytes, j)
  }

  /** The end is still reachable once byte j has fallen. */
  ghost predicate OpenAfter(bytes: seq<Coord>, j: nat)
  {
    j < |bytes| && Reachable(BOUNDS, Fallen(bytes, j + 1), START, END)
  }

  /** Part two of `main`: let the bytes after the first 1024 fall one by
      one and report the first after which no way is left. */
  method FirstBlock(bytes: seq<Coord>) returns (r: Option<Coord>)
    requires NUM_BYTES_FALLEN <= |bytes|
    ensures r.None? ==> OpenBefore(bytes, |bytes|)
    ensures r.Some? ==> exists i :: NUM_BYTES_FALLEN <= i < |bytes| && bytes[i] == r.value
                          && OpenBefore(bytes, i) && !Reachable(BOUNDS, Fallen(bytes, i + 1), START, END)
  {
    var fallen := Fallen(bytes, NUM_BYTES_FALLEN);
    for i := NUM_BYTES_FALLEN to |bytes|
      invariant fallen == Fallen(bytes, i)
      invariant OpenBefore(bytes, i)
    {
      FallenNext(bytes, i);
      fallen := fallen + {bytes[i]};
      var res := FindShortestPath(START, END, BOUNDS, fallen);
      if res.None? {
        return Some(bytes[i]);
      }
    }
    return None;
  }

  /** `main` on the parsed bytes: part one's score, the length of a
      shortest way with the first 1024 bytes fallen (None where `unwrap`
      would panic, and then part two does not run), and part two's first
      blocking byte. BOUNDS is square, so the written neighbour rule is
      the intended one here (OptionsAgreeOnSquare). */
  method Solve(bytes: seq<Coord>) returns (score: Option<nat>, block: Option<Coord>)
    requires NUM_BYTES_FALLEN <= |bytes|
    ensures score.Some? ==> ReachableIn(BOUNDS, Fallen(bytes, NUM_BYTES_FALLEN), START, END, score.value)
    ensures score.Some? ==> forall n :: ReachableIn(BOUNDS, Fallen(bytes, NUM_BYTES_FALLEN), START, END, n) ==> score.value <= n
    ensures score.None? <==> !Reachable(BOUNDS, Fallen(bytes, NUM_BYTES_FALLEN), START, END)
    ensures score.None? ==> block.None?
    ensures score.Some? && block.None? ==> OpenBefore(bytes, |bytes|)
    ensures block.Some? ==> exists i :: NUM_BYTES_FALLEN <= i < |bytes| && bytes[i] == block.value
                              && OpenBefore(bytes, i) && !Reachable(BOUNDS, Fallen(bytes, i + 1), START, END)
  {
    score := FindShortestPath(START, END, BOUNDS, Fallen(bytes, NUM_BYTES_FALLEN));
    if score.None? {
      return score, None;
    }
    block := FirstBlock(bytes);
  }
}
