/** Day 13: a claw machine has buttons A and B moving the claw by fixed
    vectors; the number of presses reaching the prize solves a 2x2 integer
    linear system, and a machine costs 3 tokens per A press and 1 per B press. */
module Day13 {
  import opened Utils
  import Numbers

  type Pair = (int, int)

  const I64_MIN: int := -0x8000_0000_0000_0000
  const I64_MAX: int := 0x7fff_ffff_ffff_ffff

  /** The offset star 2 adds to both prize coordinates. */
  const PRIZE_OFFSET: int := 10_000_000_000_000

  predicate InI64(x: int)
  {
    I64_MIN <= x <= I64_MAX
  }

  function Abs(x: int): nat
  {
    if x < 0 then -x else x
  }

  /** Rust's `/` on integers, which truncates toward zero. */
  function TruncDiv(x: int, d: int): int
    requires d != 0
  {
    var q := Abs(x) / Abs(d);
    if (x < 0) != (d < 0) then -q else q
  }

  /** The determinant of the system, the divisor of the first elimination. */
  function Det(a: Pair, b: Pair): int
  {
    a.1 * b.0 - a.0 * b.1
  }

  /** The numerator of the first elimination. */
  function Numer(a: Pair, c: Pair): int
  {
    a.1 * c.0 - a.0 * c.1
  }

  /** u presses of A and v presses of B reach the prize c. */
  predicate Solves(a: Pair, b: Pair, c: Pair, u: int, v: int)
  {
    u * a.0 + v * b.0 == c.0 && u * a.1 + v * b.1 == c.1
  }

  ghost predicate HasIntegerSolution(a: Pair, b: Pair, c: Pair)
  {
    exists u: int, v: int :: Solves(a, b, c, u, v)
  }

  /** Every intermediate value `solve_system` reaches fits in an i64 (the
      source computes in i64 and would overflow otherwise); the
      back-substitution is reached only when the determinant divides. */
  predicate NoOverflow(a: Pair, b: Pair, c: Pair)
    requires Det(a, b) != 0
  {
    InI64(a.1 * c.0) && InI64(a.0 * c.1) && InI64(Numer(a, c))
    && InI64(a.1 * b.0) && InI64(a.0 * b.1) && InI64(Det(a, b))
    && (Numer(a, c) % Det(a, b) == 0 ==>
          var v := TruncDiv(Numer(a, c), Det(a, b));
          InI64(b.1 * v) && InI64(c.1 - b.1 * v))
  }

  /** The divisions `solve_system` reaches have nonzero divisors: the
      determinant always, a.1 only once the determinant divides. */
  predicate Divisible(a: Pair, b: Pair, c: Pair)
  {
    Det(a, b) != 0 && (Numer(a, c) % Det(a, b) == 0 ==> a.1 != 0)
  }

  /** `solve_system`: eliminate u to get v, then back-substitute. Division by
      the determinant demands it be nonzero, and division by a.1 demands the
      same of a.1 when it is reached. */
  function SolveSystem(a: Pair, b: Pair, c: Pair): (r: Option<Pair>)
    requires Divisible(a, b, c)
    requires NoOverflow(a, b, c)
    ensures Numer(a, c) % Det(a, b) != 0 ==> r == None
    ensures Numer(a, c) % Det(a, b) == 0 && (c.1 - b.1 * TruncDiv(Numer(a, c), Det(a, b))) % a.1 != 0 ==> r == None
    ensures r.Some? ==> Solves(a, b, c, r.value.0, r.value.1)
    ensures r.Some? <==> HasIntegerSolution(a, b, c)
  {
    if Numer(a, c) % Det(a, b) != 0 then
      NoSolutionWhenDetDoesNotDivide(a, b, c);
      None
    else
      var v := TruncDiv(Numer(a, c), Det(a, b));
      if (c.1 - b.1 * v) % a.1 != 0 then
        NoSolutionWhenA1DoesNotDivide(a, b, c, v);
        None
      else
        var u := TruncDiv(c.1 - b.1 * v, a.1);
        BackSubstitution(a, b, c, u, v);
        Some((u, v))
  }

  /** Euclidean division of an exact multiple, and truncating division of it. */
  lemma ExactDivision(x: int, d: int, k: int)
    requires d != 0 && x == k * d
    ensures x % d == 0 && x / d == k && TruncDiv(x, d) == k
  {
    EuclidExact(x, d, k);
    TruncExact(x, d, k);
  }

  lemma EuclidExact(x: int, d: int, k: int)
    requires d != 0 && x == k * d
    ensures x % d == 0 && x / d == k
  {
    var q, r := x / d, x % d;
    assert x == q * d + r && 0 <= r < Abs(d);
    ProductOfDifference(q, k, d, r);
  }

  /** (q - k) * d == -r with 0 <= r < |d| forces q == k and r == 0. */
  lemma ProductOfDifference(q: int, k: int, d: int, r: int)
    requires d != 0 && 0 <= r < Abs(d) && q * d + r == k * d
    ensures q == k && r == 0
  {
    var e := q - k;
    assert e * d == -r;
    if e != 0 {
      AbsProduct(e, d);
      Numbers.MulLeMono(1, Abs(e), Abs(d));
      assert false;
    }
  }

  lemma AbsProduct(x: int, y: int)
    ensures Abs(x * y) == Abs(x) * Abs(y)
  {
    if x < 0 && y < 0 {
      assert x * y == (-x) * (-y);
    } else if x < 0 {
      assert -(x * y) == (-x) * y;
    } else if y < 0 {
      assert -(x * y) == x * (-y);
    }
  }

  lemma TruncExact(x: int, d: int, k: int)
    requires d != 0 && x == k * d
    ensures TruncDiv(x, d) == k
  {
    AbsProduct(k, d);
    Numbers.DivModUnique(Abs(x), Abs(d), Abs(k), 0);
    assert Abs(x) / Abs(d) == Abs(k);
    if k == 0 {
      assert x == 0;
    } else if k > 0 {
      assert (x < 0) == (d < 0) by {
        if d < 0 { assert x == k * d < 0; } else { assert x == k * d > 0; }
      }
    } else {
      assert (x < 0) != (d < 0) by {
        if d < 0 { assert x == (-k) * (-d) > 0; } else { assert x == -((-k) * d) < 0; }
      }
    }
  }

  lemma DivThenMul(x: int, d: int)
    requires d != 0 && x % d == 0
    ensures TruncDiv(x, d) * d == x
  {
    ExactDivision(x, d, x / d);
  }

  /** Any solution makes the first numerator the determinant times v. */
  lemma EliminateU(a: Pair, b: Pair, c: Pair, u: int, v: int)
    requires Solves(a, b, c, u, v)
    ensures Numer(a, c) == v * Det(a, b)
  {
    Eliminate(a.0, a.1, b.0, b.1, c.0, c.1, u, v);
  }

  lemma Eliminate(a0: int, a1: int, b0: int, b1: int, c0: int, c1: int, u: int, v: int)
    requires u * a0 + v * b0 == c0 && u * a1 + v * b1 == c1
    ensures a1 * c0 - a0 * c1 == v * (a1 * b0 - a0 * b1)
  {
    calc {
      a1 * c0 - a0 * c1;
      a1 * (u * a0 + v * b0) - a0 * (u * a1 + v * b1);
      a1 * (u * a0) + a1 * (v * b0) - a0 * (u * a1) - a0 * (v * b1);
      v * (a1 * b0) - v * (a0 * b1);
      v * (a1 * b0 - a0 * b1);
    }
  }

  /** Back-substituting v and u satisfies the first equation too. */
  lemma Substitute(a0: int, a1: int, b0: int, b1: int, c0: int, c1: int, u: int, v: int)
    requires a1 != 0
    requires a1 * c0 - a0 * c1 == v * (a1 * b0 - a0 * b1) && u * a1 == c1 - b1 * v
    ensures u * a0 + v * b0 == c0
  {
    calc {
      a1 * (u * a0 + v * b0);
      a0 * (u * a1) + v * (a1 * b0);
      a0 * (c1 - b1 * v) + v * (a1 * b0);
      a0 * c1 + v * (a1 * b0 - a0 * b1);
      a1 * c0;
    }
    assert a1 * (u * a0 + v * b0 - c0) == 0;
    NonzeroFactor(a1, u * a0 + v * b0 - c0);
  }

  lemma NonzeroFactor(x: int, y: int)
    requires x != 0 && x * y == 0
    ensures y == 0
  {
    if y != 0 {
      AbsProduct(x, y);
      Numbers.MulLeMono(1, Abs(x), Abs(y));
    }
  }

  lemma NoSolutionWhenDetDoesNotDivide(a: Pair, b: Pair, c: Pair)
    requires Det(a, b) != 0 && Numer(a, c) % Det(a, b) != 0
    ensures !HasIntegerSolution(a, b, c)
  {
    if HasIntegerSolution(a, b, c) {
      var u, v :| Solves(a, b, c, u, v);
      EliminateU(a, b, c, u, v);
      ExactDivision(Numer(a, c), Det(a, b), v);
      assert false;
    }
  }

  lemma NoSolutionWhenA1DoesNotDivide(a: Pair, b: Pair, c: Pair, v: int)
    requires Det(a, b) != 0 && a.1 != 0 && Numer(a, c) % Det(a, b) == 0
    requires v == TruncDiv(Numer(a, c), Det(a, b)) && (c.1 - b.1 * v) % a.1 != 0
    ensures !HasIntegerSolution(a, b, c)
  {
    if HasIntegerSolution(a, b, c) {
      var u', v' :| Solves(a, b, c, u', v');
      EliminateU(a, b, c, u', v');
      ExactDivision(Numer(a, c), Det(a, b), v');
      assert c.1 - b.1 * v == u' * a.1;
      ExactDivision(c.1 - b.1 * v, a.1, u');
      assert false;
    }
  }

  lemma BackSubstitution(a: Pair, b: Pair, c: Pair, u: int, v: int)
    requires Det(a, b) != 0 && a.1 != 0 && Numer(a, c) % Det(a, b) == 0
    requires v == TruncDiv(Numer(a, c), Det(a, b)) && (c.1 - b.1 * v) % a.1 == 0
    requires u == TruncDiv(c.1 - b.1 * v, a.1)
    ensures Solves(a, b, c, u, v)
  {
    DivThenMul(Numer(a, c), Det(a, b));
    DivThenMul(c.1 - b.1 * v, a.1);
    Substitute(a.0, a.1, b.0, b.1, c.0, c.1, u, v);
  }

  /** With a nonzero determinant the solution is unique, so `solve_system`
      returns exactly the solution there is (negative presses included). */
  lemma SolutionIsUnique(a: Pair, b: Pair, c: Pair, u: int, v: int)
    requires Divisible(a, b, c) && NoOverflow(a, b, c)
    requires Solves(a, b, c, u, v)
    ensures SolveSystem(a, b, c) == Some((u, v))
  {
    EliminateU(a, b, c, u, v);
    ExactDivision(Numer(a, c), Det(a, b), v);
    assert c.1 - b.1 * v == u * a.1;
    ExactDivision(c.1 - b.1 * v, a.1, u);
  }

  /** A zero a.1 is never divided by when the determinant does not divide:
      buttons (1, 0) and (0, 2) with the prize at (5, 3) have no solution. */
  lemma ZeroA1WithoutDivision()
    ensures Divisible((1, 0), (0, 2), (5, 3)) && NoOverflow((1, 0), (0, 2), (5, 3))
    ensures SolveSystem((1, 0), (0, 2), (5, 3)) == None
  {
    assert Det((1, 0), (0, 2)) == -2 && Numer((1, 0), (5, 3)) == -3;
    assert -3 % -2 == 1;
  }

  /** Three tokens per A press, one per B press. */
  function Cost(presses: Pair): int
  {
    presses.0 * 3 + presses.1
  }

  datatype ClawMachine = ClawMachine(btnA: Pair, btnB: Pair, prize: Pair)

  /** The prize location, moved by offset. */
  function Target(m: ClawMachine, offset: int): Pair
  {
    (m.prize.0 + offset, m.prize.1 + offset)
  }

  /** The system can be handed to `solve_system` when the prize is moved by offset. */
  predicate Solvable(m: ClawMachine, offset: int)
  {
    Divisible(m.btnA, m.btnB, Target(m, offset)) && NoOverflow(m.btnA, m.btnB, Target(m, offset))
  }

  /** The tokens one machine costs; a machine without a solution costs nothing. */
  function MachineCost(m: ClawMachine, offset: int): (cost: int)
    requires Solvable(m, offset)
    ensures !HasIntegerSolution(m.btnA, m.btnB, Target(m, offset)) ==> cost == 0
  {
    match SolveSystem(m.btnA, m.btnB, Target(m, offset))
    case Some(presses) => Cost(presses)
    case None => 0
  }

  /** A machine whose system has an integer solution costs 3u + v for that solution. */
  lemma SolvedMachineCost(m: ClawMachine, offset: int, u: int, v: int)
    requires Solvable(m, offset)
    requires Solves(m.btnA, m.btnB, Target(m, offset), u, v)
    ensures MachineCost(m, offset) == 3 * u + v
  {
    SolutionIsUnique(m.btnA, m.btnB, Target(m, offset), u, v);
  }

  /** The total cost of the machines with a solution; star 1 uses offset 0
      and star 2 uses PRIZE_OFFSET. */
  function TotalCost(machines: seq<ClawMachine>, offset: int): (total: int)
    requires forall m <- machines :: Solvable(m, offset)
    ensures (forall m <- machines :: !HasIntegerSolution(m.btnA, m.btnB, Target(m, offset))) ==> total == 0
  {
    if |machines| == 0 then 0
    else
      assert machines[0] in machines;
      assert forall m <- machines[1..] :: m in machines;
      MachineCost(machines[0], offset) + TotalCost(machines[1..], offset)
  }

  /** The total splits over any division of the machine list. */
  lemma {:induction false} TotalCostAppend(xs: seq<ClawMachine>, ys: seq<ClawMachine>, offset: int)
    requires forall m <- xs + ys :: Solvable(m, offset)
    ensures forall m <- xs :: Solvable(m, offset)
    ensures forall m <- ys :: Solvable(m, offset)
    ensures TotalCost(xs + ys, offset) == TotalCost(xs, offset) + TotalCost(ys, offset)
  {
    assert forall m <- xs :: m in xs + ys;
    assert forall m <- ys :: m in xs + ys;
    if |xs| > 0 {
      assert (xs + ys)[1..] == xs[1..] + ys;
      TotalCostAppend(xs[1..], ys, offset);
    } else {
      assert xs + ys == ys;
    }
  }
}
