/** Day 7: a calibration equation is a result and a list of terms; it holds
    when operators +, * and || (decimal concatenation), evaluated strictly
    left to right, can be put between the terms so that they give the result. */
module Day7 {
  import opened Numbers
  import opened Utils

  datatype Operator = Add | Mult | Concat

  /** `I64_LOG_10_TABLE`: the largest number of each digit count 1..17. */
  const I64_LOG_10_TABLE: seq<int> := [
    9,
    99,
    999,
    9999,
    99999,
    999999,
    9999999,
    99999999,
    999999999,
    9999999999,
    99999999999,
    999999999999,
    9999999999999,
    99999999999999,
    999999999999999,
    9999999999999999,
    99999999999999999
  ]

  /** The largest right operand `concat_i64` handles; above it the table
      scan runs out and the source reaches `unreachable!()`. */
  const CONCAT_MAX: int := 99999999999999999

  lemma TableIsPowersOfTen()
    ensures |I64_LOG_10_TABLE| == 17 && I64_LOG_10_TABLE[16] == CONCAT_MAX
    ensures forall i :: 0 <= i < 17 ==> I64_LOG_10_TABLE[i] == Pow(10, i + 1) - 1
  {
    assert Pow(10, 1) == 10;
    assert Pow(10, 2) == 100;
    assert Pow(10, 3) == 1000;
    assert Pow(10, 4) == 10000;
    assert Pow(10, 5) == 100000;
    assert Pow(10, 6) == 1000000;
    assert Pow(10, 7) == 10000000;
    assert Pow(10, 8) == 100000000;
    assert Pow(10, 9) == 1000000000;
    assert Pow(10, 10) == 10000000000;
    assert Pow(10, 11) == 100000000000;
    assert Pow(10, 12) == 1000000000000;
    assert Pow(10, 13) == 10000000000000;
    assert Pow(10, 14) == 100000000000000;
    assert Pow(10, 15) == 1000000000000000;
    assert Pow(10, 16) == 10000000000000000;
    assert Pow(10, 17) == 100000000000000000;
  }

  /** The table scan of `concat_i64` from entry i on: the first entry at
      least the right operand gives the power of ten to shift by. None is
      the `unreachable!()` after the last entry. */
  function ConcatScan(left: int, right: int, i: nat): Option<int>
    requires i <= 17
    decreases 17 - i
  {
    if i == 17 then None
    else if right <= I64_LOG_10_TABLE[i] then Some(left * (I64_LOG_10_TABLE[i] + 1) + right)
    else ConcatScan(left, right, i + 1)
  }

  /** `concat_i64`: the decimal digits of left followed by those of right,
      or None where the source panics. */
  function ConcatI64(left: int, right: int): Option<int>
  {
    ConcatScan(left, right, 0)
  }

  /** The digits of a natural number, with 0 counting as one digit. */
  function Digits(n: nat): (d: nat)
    ensures d >= 1 && n < Pow(10, d)
  {
    if n == 0 then 1 else NumDigits(n)
  }

  /** The value || denotes: left shifted by the digit count of a
      nonnegative right operand, plus right; a negative right operand is
      shifted by one digit, as the table scan stops at its first entry. */
  function DecimalConcat(left: int, right: int): int
  {
    if right < 0 then left * 10 + right else left * Pow(10, Digits(right)) + right
  }

  /** `concat_i64` panics exactly for a right operand above CONCAT_MAX, and
      otherwise shifts left by the right operand's digit count (by one
      digit for a negative right operand). */
  lemma ConcatIsShift(left: int, right: int)
    ensures ConcatI64(left, right).None? <==> CONCAT_MAX < right
    ensures 0 <= right <= CONCAT_MAX ==> ConcatI64(left, right) == Some(left * Pow(10, Digits(right)) + right)
    ensures right < 0 ==> ConcatI64(left, right) == Some(left * 10 + right)
    ensures right <= CONCAT_MAX ==> ConcatI64(left, right) == Some(DecimalConcat(left, right))
  {
    TableIsPowersOfTen();
    if 0 <= right <= CONCAT_MAX {
      ConcatScanShift(left, right, 0);
    } else if CONCAT_MAX < right {
      ConcatScanPast(left, right, 0);
    }
  }

  /** Past the last entry the scan finds nothing for a right operand above every entry. */
  lemma {:induction false} ConcatScanPast(left: int, right: int, i: nat)
    requires i <= 17 && CONCAT_MAX < right
    ensures ConcatScan(left, right, i) == None
    decreases 17 - i
  {
    if i < 17 {
      TableIsPowersOfTen();
      TableAscending(i);
      ConcatScanPast(left, right, i + 1);
    }
  }

  lemma TableAscending(i: nat)
    requires i < 17
    ensures I64_LOG_10_TABLE[i] <= CONCAT_MAX
  {
  }

  lemma {:induction false} ConcatScanShift(left: int, right: nat, i: nat)
    requires i < 17 && right <= CONCAT_MAX && (i == 0 || Pow(10, i) <= right)
    ensures ConcatScan(left, right, i) == Some(left * Pow(10, Digits(right)) + right)
    decreases 17 - i
  {
    TableIsPowersOfTen();
    if right <= I64_LOG_10_TABLE[i] {
      if right == 0 {
        assert i == 0;
      } else {
        DigitsUnique(right, i + 1);
      }
    } else {
      ConcatScanShift(left, right, i + 1);
    }
  }

  /** Concatenation never gives less than the product, for a nonnegative
      left operand and a positive right one. */
  lemma ProductBelowConcat(left: nat, right: int)
    requires 1 <= right
    ensures left * right <= DecimalConcat(left, right) && left <= DecimalConcat(left, right)
  {
    ProductBelowShift(left, right, Pow(10, Digits(right)));
  }

  lemma ProductBelowShift(l: nat, r: nat, p: nat)
    requires 1 <= r < p
    ensures l * r <= l * p + r && l <= l * p + r
  {
    MulLeMono(r, p, l);
    MulLeMono(1, p, l);
  }

  /** Every term after the first is a right operand `concat_i64` accepts. */
  predicate TermsOk(terms: seq<int>)
  {
    forall i :: 1 <= i < |terms| ==> terms[i] <= CONCAT_MAX
  }

  function Apply(op: Operator, l: int, r: int): int
  {
    match op
    case Add => l + r
    case Mult => l * r
    case Concat => DecimalConcat(l, r)
  }

  /** The first k + 1 terms with the first k operators between them,
      evaluated strictly left to right. */
  function EvalPrefix(terms: seq<int>, ops: seq<Operator>, k: nat): int
    requires k < |terms| && k <= |ops|
  {
    if k == 0 then terms[0]
    else Apply(ops[k - 1], EvalPrefix(terms, ops, k - 1), terms[k])
  }

  /** All the terms with one operator between each two of them. */
  function Eval(terms: seq<int>, ops: seq<Operator>): int
    requires |terms| >= 1 && |ops| == |terms| - 1
  {
    EvalPrefix(terms, ops, |ops|)
  }

  /** Some choice of operators makes the terms evaluate to the result. */
  ghost predicate Achievable(result: int, terms: seq<int>)
    requires |terms| >= 1
  {
    exists ops: seq<Operator> :: |ops| == |terms| - 1 && Eval(terms, ops) == result
  }

  /** A prefix's value depends only on the operators inside the prefix. */
  lemma {:induction false} EvalPrefixLocal(terms: seq<int>, ops: seq<Operator>, ops': seq<Operator>, k: nat)
    requires k < |terms| && k <= |ops| && k <= |ops'|
    requires ops[..k] == ops'[..k]
    ensures EvalPrefix(terms, ops, k) == EvalPrefix(terms, ops', k)
  {
    if k > 0 {
      assert ops[k - 1] == ops[..k][k - 1] && ops'[k - 1] == ops'[..k][k - 1];
      assert ops[..k - 1] == ops[..k][..k - 1] && ops'[..k - 1] == ops'[..k][..k - 1];
      EvalPrefixLocal(terms, ops, ops', k - 1);
    }
  }

  /** Appending an operator applies it to the next term. */
  lemma EvalPrefixSnoc(terms: seq<int>, ops: seq<Operator>, op: Operator)
    requires |ops| + 2 <= |terms|
    ensures EvalPrefix(terms, ops + [op], |ops| + 1) == Apply(op, EvalPrefix(terms, ops, |ops|), terms[|ops| + 1])
  {
    assert (ops + [op])[..|ops|] == ops[..|ops|];
    EvalPrefixLocal(terms, ops + [op], ops, |ops|);
  }

  predicate Positive(terms: seq<int>)
  {
    forall i :: 0 <= i < |terms| ==> terms[i] >= 1
  }

  /** With positive terms each operator gives at least its left operand. */
  lemma ApplyGrows(op: Operator, l: int, r: int)
    requires l >= 1 && 1 <= r
    ensures Apply(op, l, r) >= l
  {
    ProductBelowConcat(l, r);
    MulLeMono(1, r, l);
  }

  /** With positive terms longer prefixes evaluate to more, starting from at least 1. */
  lemma {:induction false} EvalPrefixGrows(terms: seq<int>, ops: seq<Operator>, k: nat, j: nat)
    requires k <= j < |terms| && j <= |ops| && Positive(terms)
    ensures 1 <= EvalPrefix(terms, ops, k) <= EvalPrefix(terms, ops, j)
    decreases j
  {
    if k < j {
      EvalPrefixGrows(terms, ops, k, j - 1);
      ApplyGrows(ops[j - 1], EvalPrefix(terms, ops, j - 1), terms[j]);
    } else if k > 0 {
      EvalPrefixGrows(terms, ops, k - 1, k - 1);
      ApplyGrows(ops[k - 1], EvalPrefix(terms, ops, k - 1), terms[k]);
    }
  }

  /** A queued option of `find_operators`: the value of the first numOps + 1
      terms under some operators, not above the result once an operator is in. */
  ghost predicate IsOption(o: (int, nat), terms: seq<int>, result: int)
  {
    o.1 + 2 <= |terms|
    && (o.1 > 0 ==> o.0 <= result)
    && exists ops: seq<Operator> :: |ops| == o.1 && EvalPrefix(terms, ops, o.1) == o.0
  }

  /** The option lies on the way to the full evaluation under target. */
  ghost predicate OnPath(o: (int, nat), terms: seq<int>, target: seq<Operator>)
    requires |target| + 1 == |terms|
  {
    o.1 + 2 <= |terms| && o.0 == EvalPrefix(terms, target, o.1)
  }

  /** What an option still stands for: 4^(operators still to choose). */
  function Level(k: nat, n: nat): (l: nat)
    ensures l >= 1
  {
    Pow(4, if k + 2 <= n then n - 2 - k else 0)
  }

  /** The termination measure of both searches: the levels of the queued options. */
  function Weight<T>(options: seq<(int, T)>, depth: T -> nat, n: nat): nat
  {
    if |options| == 0 then 0
    else Weight(options[..|options| - 1], depth, n) + Level(depth(options[|options| - 1].1), n)
  }

  lemma {:induction false} WeightAppend<T>(a: seq<(int, T)>, b: seq<(int, T)>, depth: T -> nat, n: nat)
    ensures Weight(a + b, depth, n) == Weight(a, depth, n) + Weight(b, depth, n)
    decreases |b|
  {
    if |b| > 0 {
      assert (a + b)[..|a + b| - 1] == a + b[..|b| - 1];
      WeightAppend(a, b[..|b| - 1], depth, n);
    } else {
      assert a + b == a;
    }
  }

  lemma WeightSingle<T>(o: (int, T), depth: T -> nat, n: nat)
    ensures Weight([o], depth, n) == Level(depth(o.1), n)
  {
    assert [o][..0] == [];
  }

  /** Three options one level deeper stand for less than the option they replace. */
  lemma LevelDrop(k: nat, n: nat)
    requires k + 3 <= n
    ensures 3 * Level(k + 1, n) < Level(k, n)
  {
    assert Level(k, n) == 4 * Level(k + 1, n);
  }

  /** On the target's path the next value is at most the whole evaluation,
      and a concatenation step passes the product guard. */
  lemma PathStep(terms: seq<int>, target: seq<Operator>, k: nat)
    requires |target| + 1 == |terms| && Positive(terms)
    requires k + 2 <= |terms|
    ensures EvalPrefix(terms, target, k + 1) <= Eval(terms, target)
    ensures target[k] == Concat ==> EvalPrefix(terms, target, k) * terms[k + 1] <= Eval(terms, target)
  {
    EvalPrefixGrows(terms, target, k + 1, |target|);
    EvalPrefixGrows(terms, target, k, k);
    if target[k] == Concat {
      ProductBelowConcat(EvalPrefix(terms, target, k), terms[k + 1]);
    }
  }

  function NumOps(k: nat): nat
  {
    k
  }

  /** Every queued option of `find_operators` is an option. */
  ghost predicate AllOptions(options: seq<(int, nat)>, terms: seq<int>, result: int)
  {
    forall j :: 0 <= j < |options| ==> IsOption(options[j], terms, result)
  }

  /** Some queued option lies on the target's path. */
  ghost predicate Covered(options: seq<(int, nat)>, terms: seq<int>, target: seq<Operator>)
    requires |target| + 1 == |terms|
  {
    exists j :: 0 <= j < |options| && OnPath(options[j], terms, target)
  }

  /** The target is a solution with positive terms; the search must find it. */
  ghost predicate Solution(terms: seq<int>, result: int, target: seq<Operator>)
  {
    Positive(terms) && |target| + 1 == |terms| && Eval(terms, target) == result
  }

  /** Taking the last option off the queue. */
  lemma PopBack(options: seq<(int, nat)>, terms: seq<int>, result: int, target: seq<Operator>)
    requires |options| > 0 && AllOptions(options, terms, result)
    ensures IsOption(options[|options| - 1], terms, result)
    ensures AllOptions(options[..|options| - 1], terms, result)
    ensures (Solution(terms, result, target) && Covered(options, terms, target)
             && !OnPath(options[|options| - 1], terms, target))
            ==> Covered(options[..|options| - 1], terms, target)
  {
    if Solution(terms, result, target) && Covered(options, terms, target) {
      var j :| 0 <= j < |options| && OnPath(options[j], terms, target);
      if j < |options| - 1 {
        assert options[..|options| - 1][j] == options[j];
      }
    }
  }

  /** Putting an option at either end of the queue. */
  lemma PushBoth(options: seq<(int, nat)>, o: (int, nat), terms: seq<int>, result: int, target: seq<Operator>)
    requires AllOptions(options, terms, result) && IsOption(o, terms, result)
    ensures AllOptions(options + [o], terms, result) && AllOptions([o] + options, terms, result)
    ensures (Solution(terms, result, target) && (Covered(options, terms, target) || OnPath(o, terms, target)))
            ==> Covered(options + [o], terms, target) && Covered([o] + options, terms, target)
  {
    PushAll(options, o, terms, result);
    if Solution(terms, result, target) && (Covered(options, terms, target) || OnPath(o, terms, target)) {
      PushCovered(options, o, terms, target);
    }
  }

  lemma PushAll(options: seq<(int, nat)>, o: (int, nat), terms: seq<int>, result: int)
    requires AllOptions(options, terms, result) && IsOption(o, terms, result)
    ensures AllOptions(options + [o], terms, result) && AllOptions([o] + options, terms, result)
  {
    var back, front := options + [o], [o] + options;
    forall j | 0 <= j < |back|
      ensures IsOption(back[j], terms, result)
    {
      if j < |options| {
        assert back[j] == options[j];
      }
    }
    forall j | 0 <= j < |front|
      ensures IsOption(front[j], terms, result)
    {
      if 0 < j {
        assert front[j] == options[j - 1];
      }
    }
  }

  lemma PushCovered(options: seq<(int, nat)>, o: (int, nat), terms: seq<int>, target: seq<Operator>)
    requires |target| + 1 == |terms|
    requires Covered(options, terms, target) || OnPath(o, terms, target)
    ensures Covered(options + [o], terms, target) && Covered([o] + options, terms, target)
  {
    if OnPath(o, terms, target) {
      assert (options + [o])[|options|] == o && ([o] + options)[0] == o;
    } else {
      var j :| 0 <= j < |options| && OnPath(options[j], terms, target);
      assert (options + [o])[j] == options[j] && ([o] + options)[j + 1] == options[j];
    }
  }

  /** One operator more on an option: an option again, or a solution when it is the last. */
  lemma OptionStep(o: (int, nat), op: Operator, terms: seq<int>, result: int)
    requires IsOption(o, terms, result)
    requires Apply(op, o.0, terms[o.1 + 1]) <= result
    ensures o.1 + 3 <= |terms| ==> IsOption((Apply(op, o.0, terms[o.1 + 1]), o.1 + 1), terms, result)
    ensures o.1 + 2 == |terms| && Apply(op, o.0, terms[o.1 + 1]) == result ==> Achievable(result, terms)
  {
    var ops: seq<Operator> :| |ops| == o.1 && EvalPrefix(terms, ops, o.1) == o.0;
    EvalPrefixSnoc(terms, ops, op);
    assert |ops + [op]| == o.1 + 1;
  }

  /** The option on the target's path leads to the option its next operator gives. */
  lemma PathOptionStep(o: (int, nat), terms: seq<int>, result: int, target: seq<Operator>)
    requires Solution(terms, result, target) && OnPath(o, terms, target)
    ensures Apply(target[o.1], o.0, terms[o.1 + 1]) <= result
    ensures target[o.1] == Concat ==> o.0 * terms[o.1 + 1] <= result
    ensures o.1 + 3 <= |terms| ==> OnPath((Apply(target[o.1], o.0, terms[o.1 + 1]), o.1 + 1), terms, target)
    ensures o.1 + 2 == |terms| ==> Apply(target[o.1], o.0, terms[o.1 + 1]) == result
  {
    PathStep(terms, target, o.1);
  }

  /** What the source needs to reach `unreachable!()` in `concat_i64`: an
      evaluated prefix of the terms, not above the result once an operator
      is in, whose next term is above CONCAT_MAX; when guarded, also with
      its product with that term not above the result, the test that
      `find_operators` puts in front of the concatenation. */
  ghost predicate ConcatPanics(result: int, terms: seq<int>, guarded: bool)
  {
    exists ops: seq<Operator> ::
      |ops| + 2 <= |terms| && CONCAT_MAX < terms[|ops| + 1]
      && (|ops| > 0 ==> EvalPrefix(terms, ops, |ops|) <= result)
      && (guarded ==> EvalPrefix(terms, ops, |ops|) * terms[|ops| + 1] <= result)
  }

  /** A panic needs a term after the first that is above CONCAT_MAX, so
      terms within the table never make the source panic. */
  lemma PanicNeedsLargeTerm(result: int, terms: seq<int>, guarded: bool)
    ensures ConcatPanics(result, terms, guarded) ==> !TermsOk(terms)
  {
    if ConcatPanics(result, terms, guarded) {
      var ops: seq<Operator> :| |ops| + 2 <= |terms| && CONCAT_MAX < terms[|ops| + 1];
      assert 1 <= |ops| + 1 < |terms|;
    }
  }

  /** One candidate of `find_operators`: a value not above the result
      either ends the search, when it is the last operator and hits the
      result, or is queued at the chosen end. */
  method Offer(result: int, terms: seq<int>, options: seq<(int, nat)>, o: (int, nat),
               op: Operator, v: int, atFront: bool, ghost target: seq<Operator>)
    returns (found: bool, options': seq<(int, nat)>)
    requires AllOptions(options, terms, result) && IsOption(o, terms, result)
    requires v == Apply(op, o.0, terms[o.1 + 1])
    ensures found ==> Achievable(result, terms)
    ensures AllOptions(options', terms, result)
    ensures Weight(options', NumOps, |terms|) <= Weight(options, NumOps, |terms|) + Level(o.1 + 1, |terms|)
    ensures o.1 + 2 == |terms| ==> options' == options
    ensures !found && Solution(terms, result, target) ==>
      (Covered(options, terms, target) || (OnPath(o, terms, target) && target[o.1] == op)) ==>
      Covered(options', terms, target)
  {
    found, options' := false, options;
    ghost var n := |terms|;
    if Solution(terms, result, target) && OnPath(o, terms, target) && target[o.1] == op {
      PathOptionStep(o, terms, result, target);
    }
    if v <= result {
      OptionStep(o, op, terms, result);
      if o.1 + 1 == |terms| - 1 {
        if v == result {
          found := true;
        }
      } else {
        var item: (int, nat) := (v, o.1 + 1);
        PushBoth(options, item, terms, result, target);
        WeightSingle<nat>(item, NumOps, n);
        if atFront {
          WeightAppend<nat>([item], options, NumOps, n);
          options' := [item] + options;
        } else {
          WeightAppend<nat>(options, [item], NumOps, n);
          options' := options + [item];
        }
      }
    }
  }

  /** What the search keeps about its queue: every entry is an option, and
      while a solution with positive terms exists one entry lies on its path. */
  ghost predicate Searching(options: seq<(int, nat)>, terms: seq<int>, result: int, target: seq<Operator>)
  {
    AllOptions(options, terms, result)
    && (Solution(terms, result, target) ==> Covered(options, terms, target))
  }

  /** The three candidates of one option, in the order `find_operators`
      offers them: product, then concatenation when the product is not
      above the result, then sum. */
  method OfferAll(result: int, terms: seq<int>, rest: seq<(int, nat)>, o: (int, nat), ghost target: seq<Operator>)
    returns (found: bool, ok: bool, options': seq<(int, nat)>)
    requires |terms| >= 2 && AllOptions(rest, terms, result) && IsOption(o, terms, result)
    requires Solution(terms, result, target) ==> Covered(rest, terms, target) || OnPath(o, terms, target)
    ensures found ==> ok && Achievable(result, terms)
    ensures !ok ==> ConcatPanics(result, terms, true)
    ensures ok && !found ==> Searching(options', terms, result, target)
    ensures ok && !found ==> Weight(options', NumOps, |terms|) <= Weight(rest, NumOps, |terms|) + 3 * Level(o.1 + 1, |terms|)
    ensures ok && o.1 + 2 == |terms| ==> options' == rest
  {
    var res, numOps := o.0, o.1;
    var next := terms[numOps + 1];
    if Solution(terms, result, target) && OnPath(o, terms, target) {
      PathOptionStep(o, terms, result, target);
    }
    ok := true;
    found, options' := Offer(result, terms, rest, o, Mult, res * next, false, target);
    if !found && res * next <= result {
      var cat := ConcatI64(res, next);
      ConcatIsShift(res, next);
      if cat.None? {
        OptionPanics(o, terms, result);
        return false, false, options';
      }
      found, options' := Offer(result, terms, options', o, Concat, cat.value, true, target);
    }
    if !found {
      found, options' := Offer(result, terms, options', o, Add, res + next, false, target);
    }
  }

  /** An option whose next term is above CONCAT_MAX, and whose product with
      it is not above the result, is a reached panic. */
  lemma OptionPanics(o: (int, nat), terms: seq<int>, result: int)
    requires IsOption(o, terms, result) && CONCAT_MAX < terms[o.1 + 1] && o.0 * terms[o.1 + 1] <= result
    ensures ConcatPanics(result, terms, true)
  {
    var ops: seq<Operator> :| |ops| == o.1 && EvalPrefix(terms, ops, o.1) == o.0;
    assert |ops| + 2 <= |terms| && CONCAT_MAX < terms[|ops| + 1];
  }

  /** One round of the `find_operators` loop: the last option is taken off
      and its candidates are offered. */
  method SearchStep(result: int, terms: seq<int>, options: seq<(int, nat)>, ghost target: seq<Operator>)
    returns (found: bool, ok: bool, options': seq<(int, nat)>)
    requires |terms| >= 2 && |options| > 0 && Searching(options, terms, result, target)
    ensures found ==> ok && Achievable(result, terms)
    ensures !ok ==> ConcatPanics(result, terms, true)
    ensures ok && !found ==> Searching(options', terms, result, target)
    ensures ok && !found ==> Weight(options', NumOps, |terms|) < Weight(options, NumOps, |terms|)
  {
    var last := |options| - 1;
    var o := options[last];
    PopBack(options, terms, result, target);
    var rest := options[..last];
    ghost var n := |terms|;
    assert Weight(options, NumOps, n) == Weight(rest, NumOps, n) + Level(o.1, n);
    found, ok, options' := OfferAll(result, terms, rest, o, target);
    if ok && !found && o.1 + 3 <= n {
      LevelDrop(o.1, n);
    }
  }

  /** `find_operators`: a depth-first search over a double-ended queue of
      (value, operators used) options, pruning values above the result.
      Concatenation is tried only when the product is not above the result.
      The source indexes the second term, so it demands two terms. ok is
      false where `concat_i64` reaches `unreachable!()`, which needs a
      reached option whose next term is above CONCAT_MAX. */
  method FindOperators(result: int, terms: seq<int>) returns (ok: bool, found: bool)
    requires |terms| >= 2
    ensures found ==> ok && Achievable(result, terms)
    ensures ok && Positive(terms) && Achievable(result, terms) ==> found
    ensures !ok ==> ConcatPanics(result, terms, true)
    ensures TermsOk(terms) ==> ok
  {
    var options: seq<(int, nat)> := [(terms[0], 0)];
    assert EvalPrefix(terms, [], 0) == terms[0];
    assert IsOption(options[0], terms, result);
    ghost var target: seq<Operator> := [];
    if Positive(terms) && Achievable(result, terms) {
      target :| |target| == |terms| - 1 && Eval(terms, target) == result;
      assert OnPath(options[0], terms, target);
    }
    while |options| > 0
      invariant Searching(options, terms, result, target)
      invariant Positive(terms) && Achievable(result, terms) ==> Solution(terms, result, target)
      decreases Weight(options, NumOps, |terms|)
    {
      found, ok, options := SearchStep(result, terms, options, target);
      if found || !ok {
        if !ok {
          PanicNeedsLargeTerm(result, terms, true);
        }
        return;
      }
    }
    ok, found := true, false;
  }

  /** A queued option of `find_operators_with_op_sequences`: a value and the
      operators that give it, with operators still to choose. */
  ghost predicate IsSeqOption(o: (int, seq<Operator>), terms: seq<int>, result: int)
  {
    |o.1| + 2 <= |terms| && EvalPrefix(terms, o.1, |o.1|) == o.0
    && (|o.1| > 0 ==> o.0 <= result)
  }

  /** The option's operators start the target. */
  ghost predicate OnSeqPath(o: (int, seq<Operator>), terms: seq<int>, target: seq<Operator>)
    requires |target| + 1 == |terms|
  {
    |o.1| + 2 <= |terms| && o.1 == target[..|o.1|]
  }

  ghost predicate SeqCovered(options: seq<(int, seq<Operator>)>, terms: seq<int>, target: seq<Operator>)
    requires |target| + 1 == |terms|
  {
    exists j :: 0 <= j < |options| && OnSeqPath(options[j], terms, target)
  }

  /** Every collected sequence is a solution. */
  ghost predicate AllSolutions(sequences: seq<seq<Operator>>, terms: seq<int>, result: int)
    requires |terms| >= 1
  {
    forall s <- sequences :: |s| == |terms| - 1 && Eval(terms, s) == result
  }

  /** What `find_operators_with_op_sequences` keeps: every queued entry is an
      option, every collected sequence a solution, and every solution with
      positive terms is collected or still ahead of a queued option. */
  ghost predicate Collecting(options: seq<(int, seq<Operator>)>, sequences: seq<seq<Operator>>,
                             terms: seq<int>, result: int)
    requires |terms| >= 1
  {
    (forall j :: 0 <= j < |options| ==> IsSeqOption(options[j], terms, result))
    && AllSolutions(sequences, terms, result)
    && (forall t :: Solution(terms, result, t) ==> t in sequences || SeqCovered(options, terms, t))
  }

  function OpsDepth(ops: seq<Operator>): nat
  {
    |ops|
  }

  /** The option's next value on the target's path, when its operator is the target's. */
  lemma SeqPathStep(o: (int, seq<Operator>), op: Operator, terms: seq<int>, result: int, target: seq<Operator>)
    requires Solution(terms, result, target) && IsSeqOption(o, terms, result) && OnSeqPath(o, terms, target)
    requires target[|o.1|] == op
    ensures Apply(op, o.0, terms[|o.1| + 1]) <= result
    ensures o.1 + [op] == target[..|o.1| + 1]
    ensures |o.1| + 2 == |terms| ==> o.1 + [op] == target && Apply(op, o.0, terms[|o.1| + 1]) == result
  {
    var k := |o.1|;
    assert target[..k] == o.1 == o.1[..k];
    EvalPrefixLocal(terms, target, o.1, k);
    PathStep(terms, target, k);
    assert target[..k + 1] == target[..k] + [target[k]];
    if k + 2 == |terms| {
      assert target[..k + 1] == target;
    }
  }

  /** Queueing an option at either end keeps every queued entry an option. */
  lemma SeqPush(options: seq<(int, seq<Operator>)>, item: (int, seq<Operator>), terms: seq<int>, result: int, atFront: bool)
    requires IsSeqOption(item, terms, result)
    requires forall j :: 0 <= j < |options| ==> IsSeqOption(options[j], terms, result)
    ensures var options' := if atFront then [item] + options else options + [item];
      (forall j :: 0 <= j < |options'| ==> IsSeqOption(options'[j], terms, result))
      && (forall x <- options :: x in options') && item in options'
      && Weight(options', OpsDepth, |terms|) == Weight(options, OpsDepth, |terms|) + Level(|item.1|, |terms|)
  {
    WeightSingle<seq<Operator>>(item, OpsDepth, |terms|);
    if atFront {
      WeightAppend<seq<Operator>>([item], options, OpsDepth, |terms|);
    } else {
      WeightAppend<seq<Operator>>(options, [item], OpsDepth, |terms|);
    }
  }

  /** Solutions that were collected or ahead of a kept option stay so, and
      a solution through o with operator op next is caught by what op gave. */
  lemma SeqCoverMoves(terms: seq<int>, result: int, options: seq<(int, seq<Operator>)>, sequences: seq<seq<Operator>>,
                      options': seq<(int, seq<Operator>)>, sequences': seq<seq<Operator>>,
                      o: (int, seq<Operator>), op: Operator)
    requires |terms| >= 2 && IsSeqOption(o, terms, result)
    requires forall x <- options :: x in options'
    requires forall s <- sequences :: s in sequences'
    requires Apply(op, o.0, terms[|o.1| + 1]) <= result && |o.1| + 2 < |terms|
      ==> (Apply(op, o.0, terms[|o.1| + 1]), o.1 + [op]) in options'
    requires Apply(op, o.0, terms[|o.1| + 1]) == result && |o.1| + 2 == |terms| ==> o.1 + [op] in sequences'
    ensures forall t :: Solution(terms, result, t) && (t in sequences || SeqCovered(options, terms, t)
                          || (OnSeqPath(o, terms, t) && t[|o.1|] == op))
                        ==> t in sequences' || SeqCovered(options', terms, t)
  {
    forall t | Solution(terms, result, t) && (t in sequences || SeqCovered(options, terms, t)
                 || (OnSeqPath(o, terms, t) && t[|o.1|] == op))
      ensures t in sequences' || SeqCovered(options', terms, t)
    {
      if t in sequences {
      } else if SeqCovered(options, terms, t) {
        var j :| 0 <= j < |options| && OnSeqPath(options[j], terms, t);
        assert options[j] in options;
        var j' :| 0 <= j' < |options'| && options'[j'] == options[j];
      } else {
        SeqPathStep(o, op, terms, result, t);
        if |o.1| + 2 < |terms| {
          var j' :| 0 <= j' < |options'| && options'[j'] == (Apply(op, o.0, terms[|o.1| + 1]), o.1 + [op]);
        }
      }
    }
  }

  /** One candidate of `find_operators_with_op_sequences`: a value not above
      the result is collected, when its operators are complete and it hits
      the result, or queued at the chosen end. */
  method SeqOffer(result: int, terms: seq<int>, options: seq<(int, seq<Operator>)>,
                  sequences: seq<seq<Operator>>, o: (int, seq<Operator>), op: Operator, v: int, atFront: bool)
    returns (options': seq<(int, seq<Operator>)>, sequences': seq<seq<Operator>>)
    requires |terms| >= 2 && IsSeqOption(o, terms, result)
    requires forall j :: 0 <= j < |options| ==> IsSeqOption(options[j], terms, result)
    requires AllSolutions(sequences, terms, result)
    requires v == Apply(op, o.0, terms[|o.1| + 1])
    ensures forall j :: 0 <= j < |options'| ==> IsSeqOption(options'[j], terms, result)
    ensures AllSolutions(sequences', terms, result)
    ensures Weight(options', OpsDepth, |terms|) <= Weight(options, OpsDepth, |terms|) + Level(|o.1| + 1, |terms|)
    ensures |o.1| + 2 == |terms| ==> options' == options
    ensures forall t :: Solution(terms, result, t) && (t in sequences || SeqCovered(options, terms, t)
                          || (OnSeqPath(o, terms, t) && t[|o.1|] == op))
                        ==> t in sequences' || SeqCovered(options', terms, t)
  {
    options', sequences' := options, sequences;
    var ops := o.1 + [op];
    EvalPrefixSnoc(terms, o.1, op);
    if v <= result {
      if |ops| == |terms| - 1 {
        if v == result {
          sequences' := sequences + [ops];
        }
      } else {
        var item := (v, ops);
        SeqPush(options, item, terms, result, atFront);
        options' := if atFront then [item] + options else options + [item];
      }
    }
    SeqCoverMoves(terms, result, options, sequences, options', sequences', o, op);
  }

  /** Taking the first option off: a solution it covered is now covered by
      the rest or lies on its path. */
  lemma SeqPopFront(options: seq<(int, seq<Operator>)>, sequences: seq<seq<Operator>>, terms: seq<int>, result: int)
    requires |terms| >= 2 && |options| > 0 && Collecting(options, sequences, terms, result)
    ensures IsSeqOption(options[0], terms, result)
    ensures forall j :: 0 <= j < |options| - 1 ==> IsSeqOption(options[1..][j], terms, result)
    ensures Weight(options, OpsDepth, |terms|) == Level(|options[0].1|, |terms|) + Weight(options[1..], OpsDepth, |terms|)
    ensures forall t :: Solution(terms, result, t) ==>
      t in sequences || SeqCovered(options[1..], terms, t) || OnSeqPath(options[0], terms, t)
  {
    assert options == [options[0]] + options[1..];
    WeightAppend<seq<Operator>>([options[0]], options[1..], OpsDepth, |terms|);
    WeightSingle<seq<Operator>>(options[0], OpsDepth, |terms|);
    forall t | Solution(terms, result, t) && SeqCovered(options, terms, t)
      ensures SeqCovered(options[1..], terms, t) || OnSeqPath(options[0], terms, t)
    {
      var j :| 0 <= j < |options| && OnSeqPath(options[j], terms, t);
      if j > 0 {
        assert options[1..][j - 1] == options[j];
      }
    }
  }

  /** One round of the `find_operators_with_op_sequences` loop: the first
      option is taken off; product and concatenation go to the front, the
      sum to the back. Concatenation is tried whatever the product, so ok is
      false when the option's next term is above CONCAT_MAX. */
  method SeqStep(result: int, terms: seq<int>, options: seq<(int, seq<Operator>)>, sequences: seq<seq<Operator>>)
    returns (ok: bool, options': seq<(int, seq<Operator>)>, sequences': seq<seq<Operator>>)
    requires |terms| >= 2 && |options| > 0 && Collecting(options, sequences, terms, result)
    ensures !ok ==> ConcatPanics(result, terms, false)
    ensures ok ==> Collecting(options', sequences', terms, result)
    ensures ok ==> Weight(options', OpsDepth, |terms|) < Weight(options, OpsDepth, |terms|)
  {
    SeqPopFront(options, sequences, terms, result);
    var o := options[0];
    var rest := options[1..];
    var res, ops := o.0, o.1;
    var next := terms[|ops| + 1];
    options', sequences' := SeqOffer(result, terms, rest, sequences, o, Mult, res * next, true);
    options', sequences' := SeqOffer(result, terms, options', sequences', o, Add, res + next, false);
    var cat := ConcatI64(res, next);
    ConcatIsShift(res, next);
    if cat.None? {
      assert |ops| + 2 <= |terms| && CONCAT_MAX < terms[|ops| + 1];
      return false, options', sequences';
    }
    ok := true;
    options', sequences' := SeqOffer(result, terms, options', sequences', o, Concat, cat.value, true);
    if |ops| + 3 <= |terms| {
      LevelDrop(|ops|, |terms|);
    }
  }

  /** `find_operators_with_op_sequences`: every operator sequence that
      evaluates to the result, found breadth-first with the same pruning.
      ok is false where `concat_i64` reaches `unreachable!()`. */
  method FindOperatorsWithOpSequences(result: int, terms: seq<int>) returns (ok: bool, sequences: seq<seq<Operator>>)
    requires |terms| >= 2
    ensures forall s <- sequences :: |s| == |terms| - 1 && Eval(terms, s) == result
    ensures ok && Positive(terms) ==>
      forall ops: seq<Operator> :: |ops| == |terms| - 1 && Eval(terms, ops) == result ==> ops in sequences
    ensures !ok ==> ConcatPanics(result, terms, false)
    ensures TermsOk(terms) ==> ok
  {
    var options: seq<(int, seq<Operator>)> := [(terms[0], [])];
    sequences := [];
    forall t | Solution(terms, result, t)
      ensures SeqCovered(options, terms, t)
    {
      assert OnSeqPath(options[0], terms, t);
    }
    while |options| > 0
      invariant Collecting(options, sequences, terms, result)
      decreases Weight(options, OpsDepth, |terms|)
    {
      var options', sequences';
      ok, options', sequences' := SeqStep(result, terms, options, sequences);
      if !ok {
        PanicNeedsLargeTerm(result, terms, false);
        return;
      }
      options, sequences := options', sequences';
    }
    ok := true;
    forall ops: seq<Operator> | Positive(terms) && |ops| == |terms| - 1 && Eval(terms, ops) == result
      ensures ops in sequences
    {
      assert Solution(terms, result, ops);
    }
  }

  /** A calibration equation as one input line gives it. */
  datatype Equation = Equation(result: int, terms: seq<int>)

  predicate WellFormed(e: Equation)
  {
    |e.terms| >= 2
  }

  /** The sum of the results of the equations that can be made true. */
  ghost function AchievableTotal(eqs: seq<Equation>): int
    requires forall e <- eqs :: WellFormed(e)
  {
    if |eqs| == 0 then 0
    else
      var e := eqs[|eqs| - 1];
      assert e in eqs && WellFormed(e);
      AchievableTotal(eqs[..|eqs| - 1]) + (if Achievable(e.result, e.terms) then e.result else 0)
  }

  /** The puzzle answer: the results of the equations `find_operators` accepts,
      summed. ok is false where one of them panics. */
  method TotalCalibration(eqs: seq<Equation>) returns (ok: bool, total: int)
    requires forall e <- eqs :: WellFormed(e)
    ensures ok && (forall e <- eqs :: Positive(e.terms)) ==> total == AchievableTotal(eqs)
    ensures !ok ==> exists e <- eqs :: ConcatPanics(e.result, e.terms, true)
    ensures (forall e <- eqs :: TermsOk(e.terms)) ==> ok
  {
    total := 0;
    var i := 0;
    while i < |eqs|
      invariant 0 <= i <= |eqs|
      invariant (forall e <- eqs :: Positive(e.terms)) ==> total == AchievableTotal(eqs[..i])
    {
      var e := eqs[i];
      assert e in eqs && WellFormed(e);
      var fine, found := FindOperators(e.result, e.terms);
      if !fine {
        return false, total;
      }
      if found {
        total := total + e.result;
      }
      assert eqs[..i + 1][..i] == eqs[..i];
      i := i + 1;
    }
    ok := true;
    assert eqs[..|eqs|] == eqs;
  }
}
