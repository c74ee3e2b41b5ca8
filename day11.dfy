/** Day 11: engraved stones change every blink. A stone with an even number
    of digits splits into its two halves, a 0 becomes a 1, any other stone is
    multiplied by 2024. The stones are kept as counts per engraved number. */
module Day11 {
  import Utils
  import opened Numbers
  import opened Sums

  const USIZE_MAX: nat := 0xffff_ffff_ffff_ffff

  /** `split_number_if_even`: the left and right halves of the decimal
      digits, or None for 0 and for an odd number of digits. */
  function SplitNumberIfEven(number: nat): (r: Utils.Option<(nat, nat)>)
    ensures r.Some? <==> number > 0 && NumDigits(number) % 2 == 0
  {
    if number == 0 then Utils.None
    else
      var d := NumDigits(number);
      if d % 2 != 0 then Utils.None
      else
        var divider := Pow(10, d / 2);
        var left := number / divider;
        DivModParts(number, divider);
        Utils.Some((left, number - left * divider))
  }

  /** The halves put back together give the number: left·10^(d/2) + right
      with right below 10^(d/2), and the left half has exactly d/2 digits
      (so it is never 0), while the right half may have leading zeros. */
  lemma SplitHalves(number: nat)
    requires SplitNumberIfEven(number).Some?
    ensures var (l, r) := SplitNumberIfEven(number).value;
            var h := NumDigits(number) / 2;
            l * Pow(10, h) + r == number && r < Pow(10, h) && l > 0 && NumDigits(l) == h
  {
    var d := NumDigits(number);
    var h := d / 2;
    var p := Pow(10, h);
    var l: nat := number / p;
    DivModParts(number, p);
    assert number - l * p == number % p;
    PowAdd(10, h - 1, h);
    PowAdd(10, h, h);
    assert d - 1 == h - 1 + h && d == h + h;
    assert Pow(10, h - 1) * p <= number < Pow(10, h) * p;
    QuotientBounds(number, p, Pow(10, h - 1), Pow(10, h));
    DigitsUnique(l, h);
  }

  /** What a stone becomes after one blink (itertools' `Either`). */
  datatype Blinked = Left(stone: nat) | Right(left: nat, right: nat)

  /** The stone can blink without overflowing `stone * 2024` in a usize. */
  predicate Blinkable(stone: nat)
  {
    SplitNumberIfEven(stone).Some? || stone * 2024 <= USIZE_MAX
  }

  /** `blink`: splitting takes priority, then 0 becomes 1, then times 2024. */
  function Blink(stone: nat): (b: Blinked)
    requires Blinkable(stone)
    ensures b.Right? <==> stone > 0 && NumDigits(stone) % 2 == 0
    ensures b.Left? ==> b.stone > 0 && b.stone <= USIZE_MAX
  {
    match SplitNumberIfEven(stone)
    case Some((l, r)) => Right(l, r)
    case None => if stone == 0 then Left(1) else Left(stone * 2024)
  }

  /** Blinking keeps the digits of a splitting stone, in order. */
  lemma BlinkSplitKeepsDigits(stone: nat)
    requires Blinkable(stone) && Blink(stone).Right?
    ensures Blink(stone).left * Pow(10, NumDigits(stone) / 2) + Blink(stone).right == stone
  {
    SplitHalves(stone);
  }

  /** How many stones a blink makes. */
  function Width(b: Blinked): nat
  {
    if b.Left? then 1 else 2
  }

  /** How many of the stones a blink makes are engraved with t. */
  function Occurrences(b: Blinked, t: nat): (n: nat)
    ensures n <= Width(b)
  {
    match b
    case Left(s) => if s == t then 1 else 0
    case Right(l, r) => (if l == t then 1 else 0) + (if r == t then 1 else 0)
  }

  lemma ScaledOccurrences(b: Blinked, num: nat, t: nat)
    ensures num * Occurrences(b, t) ==
      match b
      case Left(s) => (if s == t then num else 0)
      case Right(l, r) => (if l == t then num else 0) + (if r == t then num else 0)
  {
  }

  /** The count for a key, with a missing key counting 0. */
  function Get(m: map<nat, nat>, key: nat): nat
  {
    if key in m then m[key] else 0
  }

  /** `insert_or_increment`: adds inc to the key's count, inserting it if missing. */
  function InsertOrIncrement(m: map<nat, nat>, key: nat, inc: nat): (r: map<nat, nat>)
    ensures r.Keys == m.Keys + {key}
    ensures r[key] == Get(m, key) + inc
    ensures forall k <- m :: k != key ==> r[k] == m[k]
    ensures forall t :: Get(r, t) == Get(m, t) + (if t == key then inc else 0)
  {
    m[key := Get(m, key) + inc]
  }

  /** The number of stones a count map stands for. */
  ghost function Total(m: map<nat, nat>): nat
  {
    SetSum(m.Keys, (k: nat) => Get(m, k))
  }

  lemma TotalInsertOrIncrement(m: map<nat, nat>, key: nat, inc: nat)
    ensures Total(InsertOrIncrement(m, key, inc)) == Total(m) + inc
  {
    var r := InsertOrIncrement(m, key, inc);
    var f, g := (k: nat) => Get(m, k), (k: nat) => Get(r, k);
    SetSumRemove(r.Keys, g, key);
    SetSumCongruence(r.Keys - {key}, f, g);
    if key in m {
      SetSumRemove(m.Keys, f, key);
      assert r.Keys - {key} == m.Keys - {key};
    } else {
      assert r.Keys - {key} == m.Keys;
    }
  }

  /** Count maps that agree on every key, missing keys counting 0, stand
      for the same number of stones. */
  lemma TotalPointwise(m1: map<nat, nat>, m2: map<nat, nat>)
    requires forall t :: Get(m1, t) == Get(m2, t)
    ensures Total(m1) == Total(m2)
  {
    var f, g := (k: nat) => Get(m1, k), (k: nat) => Get(m2, k);
    var all := m1.Keys + m2.Keys;
    SetSumZeroExtend(m1.Keys, m2.Keys - m1.Keys, f);
    SetSumZeroExtend(m2.Keys, m1.Keys - m2.Keys, g);
    assert m1.Keys + (m2.Keys - m1.Keys) == all == m2.Keys + (m1.Keys - m2.Keys);
    SetSumCongruence(all, f, g);
  }

  /** What a stone blinks into; stones that cannot blink contribute nothing. */
  ghost function Produced(s: nat, t: nat): nat
  {
    if Blinkable(s) then Occurrences(Blink(s), t) else 0
  }

  ghost function Grown(s: nat): nat
  {
    if Blinkable(s) then Width(Blink(s)) else 0
  }

  /** The number of stones engraved t that the stones of keys blink into. */
  ghost function RoundCount(counts: map<nat, nat>, keys: set<nat>, t: nat): nat
  {
    SetSum(keys, (s: nat) => Get(counts, s) * Produced(s, t))
  }

  /** The number of stones all stones of keys blink into. */
  ghost function RoundTotal(counts: map<nat, nat>, keys: set<nat>): nat
  {
    SetSum(keys, (s: nat) => Get(counts, s) * Grown(s))
  }

  /** Every memoised result is the blink of its key. */
  ghost predicate CacheValid(cache: map<nat, Blinked>)
  {
    forall k <- cache :: Blinkable(k) && cache[k] == Blink(k)
  }

  ghost predicate AllZero(m: map<nat, nat>)
  {
    forall k <- m :: m[k] == 0
  }

  /** The scratch map holds, for every engraved number t, the stones
      engraved t that the stones of keys blink into. */
  ghost predicate Gathered(scratch: map<nat, nat>, counts: map<nat, nat>, keys: set<nat>)
  {
    forall t :: Get(scratch, t) == RoundCount(counts, keys, t)
  }

  /** The memoised blink of one stone (the cache lookup in `main`). */
  method BlinkCached(cache: map<nat, Blinked>, s: nat) returns (res: Blinked, cache': map<nat, Blinked>)
    requires CacheValid(cache) && Blinkable(s)
    ensures CacheValid(cache') && res == Blink(s)
    ensures cache'.Keys == cache.Keys + {s}
  {
    if s in cache {
      res := cache[s];
      cache' := cache;
    } else {
      res := Blink(s);
      cache' := cache[s := res];
    }
  }

  /** Adds num stones' worth of the blink of s to the scratch counts. */
  method AddBlinked(scratch: map<nat, nat>, cache: map<nat, Blinked>, s: nat, num: nat)
    returns (scratch': map<nat, nat>, cache': map<nat, Blinked>)
    requires CacheValid(cache) && Blinkable(s)
    ensures CacheValid(cache') && cache'.Keys == cache.Keys + {s}
    ensures scratch.Keys <= scratch'.Keys
    ensures forall t :: Get(scratch', t) == Get(scratch, t) + num * Occurrences(Blink(s), t)
    ensures Total(scratch') == Total(scratch) + num * Width(Blink(s))
  {
    var res;
    res, cache' := BlinkCached(cache, s);
    match res {
      case Left(x) =>
        scratch' := InsertOrIncrement(scratch, x, num);
        TotalInsertOrIncrement(scratch, x, num);
      case Right(l, r) =>
        var mid := InsertOrIncrement(scratch, l, num);
        scratch' := InsertOrIncrement(mid, r, num);
        TotalInsertOrIncrement(scratch, l, num);
        TotalInsertOrIncrement(mid, r, num);
    }
    forall t ensures Get(scratch', t) == Get(scratch, t) + num * Occurrences(res, t) {
      ScaledOccurrences(res, num, t);
    }
  }

  /** The first half of a round: every stone's blink, times its count, is
      added to the scratch counts, in the map's iteration order. */
  method Gather(stones: map<nat, nat>, scratch: map<nat, nat>, cache: map<nat, Blinked>)
    returns (scratch': map<nat, nat>, cache': map<nat, Blinked>)
    requires CacheValid(cache) && AllZero(scratch) && forall s <- stones :: Blinkable(s)
    ensures CacheValid(cache') && stones.Keys <= cache'.Keys && scratch.Keys <= scratch'.Keys
    ensures Gathered(scratch', stones, stones.Keys)
    ensures Total(scratch') == RoundTotal(stones, stones.Keys)
  {
    TotalAllZero(scratch);
    scratch', cache' := scratch, cache;
    var remaining := stones.Keys;
    while remaining != {}
      invariant remaining <= stones.Keys
      invariant CacheValid(cache') && stones.Keys - remaining <= cache'.Keys
      invariant scratch.Keys <= scratch'.Keys
      invariant Gathered(scratch', stones, stones.Keys - remaining)
      invariant Total(scratch') == RoundTotal(stones, stones.Keys - remaining)
      decreases |remaining|
    {
      var s :| s in remaining;
      var before := scratch';
      scratch', cache' := AddBlinked(scratch', cache', s, stones[s]);
      GatherStep(stones, stones.Keys - remaining, s, before, scratch');
      assert stones.Keys - remaining + {s} == stones.Keys - (remaining - {s});
      remaining := remaining - {s};
    }
    assert stones.Keys - remaining == stones.Keys;
  }

  /** The second half of a round: the current counts are zeroed (keys are
      kept), each scratch count is added to them and then zeroed. */
  method Transfer(stones: map<nat, nat>, scratch: map<nat, nat>)
    returns (stones': map<nat, nat>, scratch': map<nat, nat>)
    ensures forall t :: Get(stones', t) == Get(scratch, t)
    ensures Total(stones') == Total(scratch)
    ensures stones'.Keys == stones.Keys + scratch.Keys
    ensures scratch'.Keys == scratch.Keys && AllZero(scratch')
  {
    stones' := map k | k in stones :: 0;
    scratch' := scratch;
    var pending := scratch.Keys;
    while pending != {}
      invariant TransferState(stones, scratch, pending, stones', scratch')
      decreases pending
    {
      stones', scratch', pending := TransferOne(stones, scratch, pending, stones', scratch');
    }
    TotalPointwise(stones', scratch);
  }

  /** Moves one pending scratch count over and zeroes it. */
  method TransferOne(stones: map<nat, nat>, scratch: map<nat, nat>, pending: set<nat>,
                     st: map<nat, nat>, sc: map<nat, nat>)
    returns (st': map<nat, nat>, sc': map<nat, nat>, pending': set<nat>)
    requires TransferState(stones, scratch, pending, st, sc) && pending != {}
    ensures TransferState(stones, scratch, pending', st', sc') && pending' < pending
  {
    var k :| k in pending;
    TransferStep(stones, scratch, pending, st, sc, k);
    st' := InsertOrIncrement(st, k, sc[k]);
    sc' := sc[k := 0];
    pending' := pending - {k};
  }

  /** Halfway through Transfer: the keys still pending are zero in the
      current counts and untouched in the scratch map; the others are moved. */
  ghost predicate TransferState(stones: map<nat, nat>, scratch: map<nat, nat>, pending: set<nat>,
                                st: map<nat, nat>, sc: map<nat, nat>)
  {
    && pending <= scratch.Keys && sc.Keys == scratch.Keys
    && (forall k <- sc :: sc[k] == if k in pending then scratch[k] else 0)
    && st.Keys == stones.Keys + (scratch.Keys - pending)
    && forall t :: Get(st, t) == if t in pending then 0 else Get(scratch, t)
  }

  lemma TransferStep(stones: map<nat, nat>, scratch: map<nat, nat>, pending: set<nat>,
                     st: map<nat, nat>, sc: map<nat, nat>, k: nat)
    requires TransferState(stones, scratch, pending, st, sc) && k in pending
    ensures TransferState(stones, scratch, pending - {k}, InsertOrIncrement(st, k, sc[k]), sc[k := 0])
  {
  }

  /** The state of the blink loop in `main`: the current counts, the scratch
      counts of the next round and the memo of blink results. */
  class StoneCounts {
    var stones: map<nat, nat>
    var newStones: map<nat, nat>
    var cache: map<nat, Blinked>

    /** The memo is correct and the scratch map holds only zero counts
        between rounds. */
    ghost predicate Valid()
      reads this
    {
      CacheValid(cache) && AllZero(newStones)
    }

    /** One count per distinct engraved number, as `collect` into a map makes it. */
    constructor (initial: seq<nat>)
      ensures Valid()
      ensures stones == map s | s in initial :: 1
      ensures newStones == map[] && cache == map[]
    {
      stones := map s | s in initial :: 1;
      newStones := map[];
      cache := map[];
    }

    /** One blink of every stone: the body of the round loop in `main`. */
    method Round()
      requires Valid() && forall s <- stones :: Blinkable(s)
      modifies this
      ensures Valid()
      ensures forall t :: Get(stones, t) == RoundCount(old(stones), old(stones).Keys, t)
      ensures Total(stones) == RoundTotal(old(stones), old(stones).Keys)
      ensures old(stones).Keys <= stones.Keys && newStones.Keys <= stones.Keys
      ensures old(stones).Keys <= cache.Keys
    {
      newStones, cache := Gather(stones, newStones, cache);
      stones, newStones := Transfer(stones, newStones);
    }
  }

  lemma TotalAllZero(m: map<nat, nat>)
    requires AllZero(m)
    ensures Total(m) == 0
    ensures forall t :: Get(m, t) == 0
  {
    SetSumZeroExtend({}, m.Keys, (k: nat) => Get(m, k));
    assert {} + m.Keys == m.Keys;
  }

  /** Blinking one more stone s adds its count times the stones it makes. */
  lemma GatherStep(counts: map<nat, nat>, done: set<nat>, s: nat, before: map<nat, nat>, after: map<nat, nat>)
    requires s !in done && s in counts && Blinkable(s)
    requires forall t :: Get(after, t) == Get(before, t) + counts[s] * Occurrences(Blink(s), t)
    requires Gathered(before, counts, done)
    requires Total(before) == RoundTotal(counts, done)
    requires Total(after) == Total(before) + counts[s] * Width(Blink(s))
    ensures Gathered(after, counts, done + {s})
    ensures Total(after) == RoundTotal(counts, done + {s})
  {
    RoundTotalStep(counts, done, s);
    forall t ensures Get(after, t) == RoundCount(counts, done + {s}, t) {
      RoundCountStep(counts, done, s, t);
    }
  }

  lemma RoundTotalStep(counts: map<nat, nat>, done: set<nat>, s: nat)
    requires s !in done && s in counts && Blinkable(s)
    ensures RoundTotal(counts, done + {s}) == RoundTotal(counts, done) + counts[s] * Width(Blink(s))
  {
    SetSumAdd(done, (x: nat) => Get(counts, x) * Grown(x), s);
  }

  lemma RoundCountStep(counts: map<nat, nat>, done: set<nat>, s: nat, t: nat)
    requires s !in done && s in counts && Blinkable(s)
    ensures RoundCount(counts, done + {s}, t) == RoundCount(counts, done, t) + counts[s] * Occurrences(Blink(s), t)
  {
    SetSumAdd(done, (x: nat) => Get(counts, x) * Produced(x, t), s);
  }
}
