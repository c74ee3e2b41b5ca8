/** Day 17, part 2: the search for an initial A that makes the hard-coded
    program print itself. The search grows candidates three bits at a time:
    after step idx it keeps every A below 2^(10 + 3 idx) whose output, read
    through the low 3j + 10 bits at each earlier step j, starts with the
    first j + 1 values of the program. */
module Day17Search {
  import opened Utils
  import opened Numbers
  import opened Day17

  /** The digits the search has fixed after step j: bits below 3j + 10. */
  function Window(a: nat, j: nat): nat
  {
    a % Pow2(3 * j + 10)
  }

  /** The filter of step j: the output is longer than j and its first j + 1
      values are those of the program. */
  predicate Good(x: nat, j: nat)
    requires j < |CODE|
  {
    |PseudoOutput(x)| > j && PseudoOutput(x)[..j + 1] == CODE[..j + 1]
  }

  /** A passes the filters of the first n steps. */
  ghost predicate Survives(a: nat, n: nat)
    requires n <= |CODE|
  {
    forall j :: 0 <= j < n ==> Good(Window(a, j), j)
  }

  /** What the search keeps after its last step. */
  ghost predicate Survivor(a: nat)
  {
    a < Pow2(7 + 3 * |CODE|) && Survives(a, |CODE|)
  }

  /** The ten bits the filter of step j reads from a candidate at output
      position j: the window shifted down by 3j. */
  function WindowTop(a: nat, j: nat): nat
  {
    Shr(Window(a, j), 3 * j)
  }

  /** Output value i is the digit of A shifted right by 3i. */
  lemma {:induction false} PseudoOutputAt(x: nat, i: nat)
    requires i < |PseudoOutput(x)|
    ensures PseudoOutput(x)[i] == PseudoDigit(Shr(x, 3 * i))
    decreases i
  {
    if i > 0 {
      PseudoOutputAt(x / 8, i - 1);
      ShrEight(x, 3 * (i - 1));
    }
  }

  /** The output is longer than i exactly when A has a non-zero bit from 3i up. */
  lemma {:induction false} OutputLongerThan(x: nat, i: nat)
    ensures |PseudoOutput(x)| > i <==> Shr(x, 3 * i) > 0
    decreases i
  {
    if x == 0 {
      ShrZero(3 * i);
    } else if i > 0 {
      OutputLongerThan(x / 8, i - 1);
      ShrEight(x, 3 * (i - 1));
    }
  }

  /** A digit depends on the three low bits of A and the three bits the
      shift selects. */
  lemma DigitFromReadBits(x: nat, y: nat)
    requires x % 8 == y % 8
    requires Shr(x, Xor(x % 8, 2)) % 8 == Shr(y, Xor(x % 8, 2)) % 8
    ensures PseudoDigit(x) == PseudoDigit(y)
  {
    var b := Xor(x % 8, 2);
    XorBelow8(x % 8, 2);
    XorThreeBitLaws();
    MaskedChain(XorValue, b, Shr(x, b));
    MaskedChain(XorValue, b, Shr(y, b));
  }

  /** Bits b .. b + 2 of A, for b below 8, lie among its ten low bits. */
  lemma ReadBitsInTen(x: nat, b: nat)
    requires b < 8
    ensures Shr(x % 1024, b) % 8 == Shr(x, b) % 8
  {
    assert Pow2(3) == 8 by { assert Pow2(0) == 1; }
    assert Pow2(10) == 1024 by { assert Pow2(5) == 32; }
    ModPow2Mod(x, b + 3, 10);
    ShrLow(x, b, 3);
    ShrLow(x % 1024, b, 3);
  }

  /** A digit depends on the ten low bits of A only: three select the shift
      (at most 7) and the next three are read. */
  lemma PseudoDigitLocal(x: nat)
    ensures PseudoDigit(x) == PseudoDigit(x % 1024)
  {
    assert Pow2(3) == 8 by { assert Pow2(0) == 1; }
    assert Pow2(10) == 1024 by { assert Pow2(5) == 32; }
    ModPow2Mod(x, 3, 10);
    XorBelow8(x % 8, 2);
    ReadBitsInTen(x, Xor(x % 8, 2));
    DigitFromReadBits(x, x % 1024);
  }

  /** The window of step j holds everything output position i <= j reads. */
  lemma WindowDigit(a: nat, i: nat, j: nat)
    requires i <= j
    ensures PseudoDigit(Shr(Window(a, j), 3 * i)) == PseudoDigit(Shr(a, 3 * i))
  {
    var k := 3 * (j - i) + 10;
    assert Window(a, j) == a % Pow2(3 * i + k);
    ShrLow(a, 3 * i, k);
    ModPow2Mod(Shr(a, 3 * i), 10, k);
    assert Pow2(10) == 1024 by { assert Pow2(5) == 32; }
    PseudoDigitLocal(Shr(Window(a, j), 3 * i));
    PseudoDigitLocal(Shr(a, 3 * i));
  }

  lemma PseudoDigitOfZero()
    ensures PseudoDigit(0) == 1
  {
    assert Xor(0, 2) == 2 by {
      assert Xor(0, 1) == 1 by { assert Xor(0, 0) == 0; }
    }
    ShrZero(2);
    assert Xor(2, 0) == 2;
    assert Xor(2, 3) == 1 by {
      assert Xor(1, 1) == 0 by { assert Xor(0, 0) == 0; }
    }
  }

  /** Where the window of step j reads only zero bits, the output value at j is 1.
      So a filter can reject a candidate whose full value prints the program
      only at a position where the program holds a 1. */
  lemma ZeroWindowPrintsOne(a: nat, j: nat)
    requires j < |PseudoOutput(a)| && WindowTop(a, j) == 0
    ensures PseudoOutput(a)[j] == 1
  {
    PseudoOutputAt(a, j);
    WindowDigit(a, j, j);
    PseudoDigitOfZero();
  }

  /** The filter of step j accepts the window of a value whose output starts
      with the program, as long as the window's top ten bits are not all zero. */
  lemma GoodWindow(a: nat, j: nat)
    requires j < |CODE| && |PseudoOutput(a)| > j && PseudoOutput(a)[..j + 1] == CODE[..j + 1]
    requires WindowTop(a, j) > 0
    ensures Good(Window(a, j), j)
  {
    var w := Window(a, j);
    OutputLongerThan(w, j);
    forall i | 0 <= i <= j
      ensures PseudoOutput(w)[i] == CODE[i]
    {
      PseudoOutputAt(w, i);
      PseudoOutputAt(a, i);
      WindowDigit(a, i, j);
      assert PseudoOutput(a)[i] == PseudoOutput(a)[..j + 1][i];
    }
    assert PseudoOutput(w)[..j + 1] == CODE[..j + 1];
  }

  /** Every survivor prints the program, possibly followed by more values. */
  lemma SurvivorPrintsProgram(a: nat)
    requires Survivor(a)
    ensures |PseudoOutput(a)| >= |CODE| && PseudoOutput(a)[..|CODE|] == CODE
  {
    var last := |CODE| - 1;
    SmallMod(a, Pow2(3 * last + 10));
    assert Window(a, last) == a;
    assert Good(Window(a, last), last);
    assert Good(a, last);
  }

  /** Started from a survivor, the computer running the program halts having
      printed the program, and printed exactly the program when A has at most
      16 octal digits. */
  lemma SurvivorRunsProgram(a: nat, fuel: nat)
    requires Survivor(a) && fuel >= 8 * |PseudoOutput(a)|
    ensures RunFor(Machine(a, 0, 0, 0, []), Program(), fuel).Halted?
    ensures var out := RunFor(Machine(a, 0, 0, 0, []), Program(), fuel).m.output;
      |out| >= |CODE| && out[..|CODE|] == CODE
    ensures RunFor(Machine(a, 0, 0, 0, []), Program(), fuel).m.output == CODE <==> a < Pow2(3 * |CODE|)
  {
    SurvivorPrintsProgram(a);
    assert PseudoOutput(a) != [];
    ComputerMatchesPseudo(a, fuel);
    OutputLongerThan(a, |CODE|);
    ShrIsDiv(a, 3 * |CODE|);
    DivIsZero(a, Pow2(3 * |CODE|));
    if |PseudoOutput(a)| == |CODE| {
      assert PseudoOutput(a) == PseudoOutput(a)[..|CODE|];
    }
  }

  /** A value below 2^55 that prints the program as a prefix survives, unless
      its window is all zero at position 2 or 8, the two positions where the
      program holds a 1. */
  lemma PrefixSolutionSurvives(a: nat)
    requires a < Pow2(7 + 3 * |CODE|)
    requires |PseudoOutput(a)| >= |CODE| && PseudoOutput(a)[..|CODE|] == CODE
    requires WindowTop(a, 2) > 0 && WindowTop(a, 8) > 0
    ensures Survivor(a)
  {
    forall j | 0 <= j < |CODE|
      ensures Good(Window(a, j), j)
    {
      assert PseudoOutput(a)[..j + 1] == CODE[..j + 1];
      if WindowTop(a, j) == 0 {
        assert PseudoOutput(a)[j] == CODE[j] != 1;
        ZeroWindowPrintsOne(a, j);
        assert false;
      }
      GoodWindow(a, j);
    }
  }

  /** Candidates of step idx + 1 are those of step idx with one more octal
      digit on top that pass filter idx. */
  lemma SurvivesStep(a: nat, idx: nat)
    requires idx < |CODE| && a < Pow2(3 * idx + 10)
    ensures Survives(a, idx + 1) <==> Survives(a % Pow2(7 + 3 * idx), idx) && Good(a, idx)
  {
    var low := a % Pow2(7 + 3 * idx);
    forall j | 0 <= j < idx
      ensures Window(low, j) == Window(a, j)
    {
      ModPow2Mod(a, 3 * j + 10, 7 + 3 * idx);
    }
    SmallMod(a, Pow2(3 * idx + 10));
    assert Window(a, idx) == a;
  }

  lemma QuotientBound(a: nat, p: nat)
    requires p > 0
    ensures a < 8 * p <==> a / p < 8
  {
    var q, r := a / p, a % p;
    DivModParts(a, p);
    if q < 8 {
      MulLeMono(q + 1, 8, p);
      BelowNext(a, q, p, r);
    } else {
      MulLeMono(8, q, p);
    }
  }

  lemma BelowNext(a: int, q: int, p: int, r: int)
    requires a == q * p + r && r < p
    ensures a < (q + 1) * p
  {
  }

  lemma QuotientBelow(x: nat, p: nat, n: nat)
    requires p > 0 && x < n * p
    ensures x / p < n
  {
    DivModParts(x, p);
    if x / p >= n {
      MulLeMono(n, x / p, p);
    }
  }

  /** The smallest element of a non-empty list. */
  function Minimum(s: seq<nat>): (m: nat)
    requires |s| > 0
    ensures m in s && forall x :: x in s ==> m <= x
  {
    if |s| == 1 then s[0]
    else
      var rest := Minimum(s[1..]);
      assert forall x :: x in s ==> x == s[0] || x in s[1..];
      if s[0] <= rest then s[0] else rest
  }

  /** A candidate with the digit i placed at p on top, as `option + (i << shift)`. */
  function WithDigit(option: nat, i: nat, p: nat): nat
  {
    option + i * p
  }

  /** The first n extensions of a candidate by the digits 0, 1, ... placed at p. */
  function Digits(option: nat, p: nat, n: nat): (s: seq<nat>)
    ensures |s| == n
  {
    if n == 0 then [] else Digits(option, p, n - 1) + [WithDigit(option, n - 1, p)]
  }

  /** Every candidate followed by its eight extensions, in list order. */
  function Expand(olds: seq<nat>, p: nat): seq<nat>
  {
    if olds == [] then [] else Expand(olds[..|olds| - 1], p) + Digits(olds[|olds| - 1], p, 8)
  }

  /** The values of a list that pass filter idx, in order. */
  function Keep(s: seq<nat>, idx: nat): seq<nat>
    requires idx < |CODE|
  {
    if s == [] then []
    else Keep(s[..|s| - 1], idx) + (if Good(s[|s| - 1], idx) then [s[|s| - 1]] else [])
  }

  lemma KeepSnoc(s: seq<nat>, x: nat, idx: nat)
    requires idx < |CODE|
    ensures Keep(s + [x], idx) == Keep(s, idx) + (if Good(x, idx) then [x] else [])
  {
    assert (s + [x])[..|s|] == s;
  }

  lemma {:induction false} KeepAppend(s: seq<nat>, t: seq<nat>, idx: nat)
    requires idx < |CODE|
    ensures Keep(s + t, idx) == Keep(s, idx) + Keep(t, idx)
    decreases |t|
  {
    if t == [] {
      assert s + t == s;
    } else {
      var init, last := t[..|t| - 1], t[|t| - 1];
      assert s + t == (s + init) + [last];
      assert t == init + [last];
      KeepSnoc(s + init, last, idx);
      KeepSnoc(init, last, idx);
      KeepAppend(s, init, idx);
    }
  }

  /** A value passes Keep exactly when it is in the list and passes the filter. */
  lemma {:induction false} KeepMembers(s: seq<nat>, idx: nat, a: nat)
    requires idx < |CODE|
    ensures a in Keep(s, idx) <==> a in s && Good(a, idx)
    decreases |s|
  {
    if s != [] {
      var init, last := s[..|s| - 1], s[|s| - 1];
      assert s == init + [last];
      KeepMembers(init, idx, a);
    }
  }

  /** The extensions by the first n digits are the values with low part
      option and a digit below n at p. */
  lemma {:induction false} DigitsMembers(option: nat, p: nat, n: nat, a: nat)
    requires option < p && n <= 8
    ensures a in Digits(option, p, n) <==> a % p == option && a / p < n
  {
    if n > 0 {
      var v := WithDigit(option, n - 1, p);
      assert Digits(option, p, n) == Digits(option, p, n - 1) + [v];
      DigitsMembers(option, p, n - 1, a);
      SplitDigit(option, n - 1, p);
      if a % p == option && a / p == n - 1 {
        DivModParts(a, p);
        Recompose(a, a / p, p, a % p, n - 1, option);
      }
    }
  }

  lemma Recompose(a: int, q: int, p: int, r: int, i: int, low: int)
    requires a == q * p + r && q == i && r == low
    ensures a == low + i * p
  {
  }

  lemma {:induction false} ExpandMembers(olds: seq<nat>, p: nat, a: nat)
    requires p > 0 && forall x :: x in olds ==> x < p
    ensures a in Expand(olds, p) <==> a / p < 8 && a % p in olds
    decreases |olds|
  {
    if olds != [] {
      var init, last := olds[..|olds| - 1], olds[|olds| - 1];
      assert olds == init + [last];
      assert forall x :: x in init ==> x in olds;
      ExpandMembers(init, p, a);
      assert last in olds;
      DigitsMembers(last, p, 8, a);
    }
  }

  /** The filter applied to the printed list decides whether the candidate is kept. */
  lemma KeepStep(options: seq<nat>, digits: seq<nat>, a: nat, idx: nat, out: seq<nat>)
    requires idx < |CODE| && out == [] + PseudoOutput(a)
    ensures var kept := options + Keep(digits, idx);
      options + Keep(digits + [a], idx) ==
        if |out| > idx && out[..idx + 1] == CODE[..idx + 1] then kept + [a] else kept
  {
    assert out == PseudoOutput(a);
    KeepSnoc(digits, a, idx);
    AppendAssoc(options, Keep(digits, idx), [a]);
  }

  /** Tries the eight digits on top of one candidate, in order, appending
      those that pass filter idx. */
  method ExtendOption(options: seq<nat>, option: nat, p: nat, idx: nat) returns (result: seq<nat>)
    requires idx < |CODE|
    ensures result == options + Keep(Digits(option, p, 8), idx)
  {
    result := options;
    var i := 0;
    while i < 8
      invariant 0 <= i <= 8
      invariant result == options + Keep(Digits(option, p, i), idx)
    {
      var a := WithDigit(option, i, p);
      var out := PseudoComputer(a, []);
      ghost var digits := Digits(option, p, i);
      assert Digits(option, p, i + 1) == digits + [a];
      KeepStep(options, digits, a, idx, out);
      if |out| > idx && out[..idx + 1] == CODE[..idx + 1] {
        result := result + [a];
      }
      i := i + 1;
    }
  }

  /** One step of the search: every candidate with each of the eight digits
      on top at p, kept when it passes filter idx. */
  method SearchStep(olds: seq<nat>, p: nat, idx: nat) returns (result: seq<nat>)
    requires idx < |CODE|
    ensures result == Keep(Expand(olds, p), idx)
  {
    result := [];
    var k := 0;
    while k < |olds|
      invariant 0 <= k <= |olds|
      invariant result == Keep(Expand(olds[..k], p), idx)
    {
      result := ExtendOption(result, olds[k], p, idx);
      assert olds[..k + 1][..k] == olds[..k];
      KeepAppend(Expand(olds[..k], p), Digits(olds[k], p, 8), idx);
      k := k + 1;
    }
    assert olds[..k] == olds;
  }

  /** The candidates after a step, as a set: those below 8p whose low part
      was a candidate, kept by filter idx. */
  lemma StepMembers(olds: seq<nat>, p: nat, idx: nat, a: nat)
    requires idx < |CODE| && p > 0 && forall x :: x in olds ==> x < p
    ensures a in Keep(Expand(olds, p), idx) <==> a < 8 * p && a % p in olds && Good(a, idx)
  {
    KeepMembers(Expand(olds, p), idx, a);
    ExpandMembers(olds, p, a);
    QuotientBound(a, p);
  }

  /** If olds holds the survivors of the first idx filters below 2^(7 + 3 idx),
      one step gives the survivors of the first idx + 1 filters below 2^(10 + 3 idx). */
  lemma StepKeepsSurvivors(olds: seq<nat>, p: nat, idx: nat)
    requires idx < |CODE| && p == Pow2(7 + 3 * idx)
    requires forall a: nat :: a in olds <==> a < p && Survives(a, idx)
    ensures forall a: nat :: a in Keep(Expand(olds, p), idx) <==>
      a < Pow2(7 + 3 * (idx + 1)) && Survives(a, idx + 1)
  {
    Pow2Plus3(7 + 3 * idx);
    forall a: nat
      ensures a in Keep(Expand(olds, p), idx) <==> a < Pow2(7 + 3 * (idx + 1)) && Survives(a, idx + 1)
    {
      StepMembers(olds, p, idx, a);
      if a < Pow2(3 * idx + 10) {
        SurvivesStep(a, idx);
      }
    }
  }

  /** The search: the least value every filter keeps, or None where the
      final list is empty and taking its minimum panics. */
  method FindQuine() returns (answer: Option<nat>)
    ensures answer.Some? ==> Survivor(answer.value)
    ensures answer.Some? ==> forall a: nat :: Survivor(a) ==> answer.value <= a
    ensures answer.None? <==> forall a: nat :: !Survivor(a)
  {
    var options: seq<nat> := seq(128, i => i);
    assert Pow2(7) == 128;
    forall a: nat | a < 128
      ensures a in options
    {
      assert options[a] == a;
    }
    var idx := 0;
    while idx < |CODE|
      invariant 0 <= idx <= |CODE|
      invariant forall a: nat :: a in options <==> a < Pow2(7 + 3 * idx) && Survives(a, idx)
    {
      var olds := options;
      var p := Pow2(7 + 3 * idx);
      options := SearchStep(olds, p, idx);
      StepKeepsSurvivors(olds, p, idx);
      idx := idx + 1;
    }
    if options == [] {
      return None;
    }
    assert idx == |CODE| && options[0] in options;
    assert Survivor(options[0]);
    answer := Some(Minimum(options));
  }
}
