/** Arithmetic facts shared by the puzzle models: powers, Euclidean division
    and a bitwise exclusive-or on unbounded naturals. */
module Numbers {

  function Pow(base: nat, exp: nat): (r: nat)
    ensures base > 0 ==> r > 0
  {
    if exp == 0 then 1 else base * Pow(base, exp - 1)
  }

  function Pow2(n: nat): (r: nat)
    ensures r > 0
  {
    Pow(2, n)
  }

  lemma {:induction false} PowAdd(base: nat, m: nat, n: nat)
    ensures Pow(base, m + n) == Pow(base, m) * Pow(base, n)
  {
    if m > 0 {
      PowAdd(base, m - 1, n);
      assert Pow(base, m + n) == base * Pow(base, m - 1 + n);
    }
  }

  lemma Pow2Of64()
    ensures Pow2(64) == 0x1_0000_0000_0000_0000
  {
    assert Pow2(8) == 256;
    PowAdd(2, 8, 8);
    assert Pow2(16) == 0x1_0000;
    PowAdd(2, 16, 16);
    assert Pow2(32) == 0x1_0000_0000;
    PowAdd(2, 32, 32);
  }

  lemma PowMonotone(base: nat, m: nat, n: nat)
    requires base > 0 && m <= n
    ensures Pow(base, m) <= Pow(base, n)
  {
    PowAdd(base, m, n - m);
    MulLeMono(1, Pow(base, n - m), Pow(base, m));
  }

  lemma MulLeMono(a: nat, b: nat, c: nat)
    requires a <= b
    ensures a * c <= b * c
  {
  }

  lemma DivAtMost(a: nat, d: nat)
    requires d > 0
    ensures a / d <= a
  {
    DivModParts(a, d);
    MulLeMono(1, d, a / d);
  }

  /** Quotient and remainder are unique. */
  lemma DivModUnique(n: nat, d: nat, q: nat, r: nat)
    requires d > 0 && r < d && n == q * d + r
    ensures n / d == q && n % d == r
  {
    var q', r' := n / d, n % d;
    assert n == q' * d + r';
    if q' < q {
      assert (q - q') * d == r' - r;
      MulLeMono(1, q - q', d);
      assert false;
    } else if q' > q {
      assert (q' - q) * d == r - r';
      MulLeMono(1, q' - q, d);
      assert false;
    }
  }

  /** n = q*d + r with r < d for the quotient and remainder of n by d. */
  lemma DivModParts(n: nat, d: nat)
    requires d > 0
    ensures n == (n / d) * d + n % d && n % d < d
  {
  }

  /** Dividing by 2p is halving and then dividing by p; the remainder by 2p
      is made of the remainder by p of the half and the lowest bit. */
  lemma HalveDivMod(x: nat, p: nat)
    requires p > 0
    ensures x / (2 * p) == x / 2 / p
    ensures x % (2 * p) == 2 * (x / 2 % p) + x % 2
  {
    var h, bit := x / 2, x % 2;
    var q, r := h / p, h % p;
    DivModParts(h, p);
    DoubleParts(x, h, bit, q, p, r);
    DivModUnique(x, 2 * p, q, 2 * r + bit);
  }

  lemma DoubleParts(x: int, h: int, bit: int, q: int, p: int, r: int)
    requires x == 2 * h + bit && h == q * p + r
    ensures x == q * (2 * p) + (2 * r + bit)
  {
  }

  /** The three lowest binary digits of n, read off one at a time. */
  lemma LowThreeBits(n: nat)
    ensures n % 8 == n % 2 + 2 * (n / 2 % 2) + 4 * (n / 4 % 2)
  {
    HalveDivMod(n, 2);
    HalveDivMod(n, 4);
    HalveDivMod(n / 2, 2);
    var h1, h2, h3 := n / 2, n / 2 / 2, n / 2 / 2 / 2;
    var low := n % 2 + 2 * (h1 % 2) + 4 * (h2 % 2);
    assert n == 8 * h3 + low;
    DivModUnique(n, 8, h3, low);
  }

  /** Logical right shift: drops the b lowest bits. */
  function Shr(a: nat, b: nat): nat
  {
    if b == 0 then a else Shr(a / 2, b - 1)
  }

  lemma {:induction false} ShrIsDiv(a: nat, b: nat)
    ensures Shr(a, b) == a / Pow2(b)
  {
    if b > 0 {
      ShrIsDiv(a / 2, b - 1);
      HalveDivMod(a, Pow2(b - 1));
      assert Pow2(b) == 2 * Pow2(b - 1);
    }
  }

  /** Bitwise exclusive-or of two naturals, bit by bit from the lowest. */
  function Xor(x: nat, y: nat): nat
    decreases x + y
  {
    if x == 0 && y == 0 then 0
    else 2 * Xor(x / 2, y / 2) + (x % 2 + y % 2) % 2
  }

  /** Exclusive-or of two k-bit numbers is a k-bit number. */
  lemma {:induction false} XorBound(x: nat, y: nat, k: nat)
    requires x < Pow2(k) && y < Pow2(k)
    ensures Xor(x, y) < Pow2(k)
    decreases k
  {
    if x == 0 && y == 0 {
    } else {
      assert k > 0;
      assert Pow2(k) == 2 * Pow2(k - 1);
      XorBound(x / 2, y / 2, k - 1);
    }
  }

  lemma XorUnfold(x: nat, y: nat)
    ensures Xor(x, y) == 2 * Xor(x / 2, y / 2) + (x % 2 + y % 2) % 2
  {
    if x == 0 && y == 0 {
      assert Xor(0, 0) == 0;
    }
  }

  lemma DoubleMod(h: nat, bit: nat, p: nat)
    requires bit < 2 && p > 0
    ensures (2 * h + bit) % (2 * p) == 2 * (h % p) + bit
  {
    DivModParts(h, p);
    assert 2 * h + bit == (h / p) * (2 * p) + (2 * (h % p) + bit);
    DivModUnique(2 * h + bit, 2 * p, h / p, 2 * (h % p) + bit);
  }

  /** The lowest bit and the remaining bits of x mod 2p. */
  lemma HalveMod(x: nat, p: nat)
    requires p > 0
    ensures (x % (2 * p)) / 2 == (x / 2) % p && (x % (2 * p)) % 2 == x % 2
  {
    HalveDivMod(x, p);
  }

  /** The low k bits of an exclusive-or depend only on the low k bits of its operands. */
  lemma {:induction false} XorLowBits(x: nat, y: nat, k: nat)
    ensures Xor(x, y) % Pow2(k) == Xor(x % Pow2(k), y % Pow2(k))
    decreases k
  {
    if k == 0 {
      assert Pow2(0) == 1;
      assert Xor(0, 0) == 0;
    } else {
      var p := Pow2(k - 1);
      assert Pow2(k) == 2 * p;
      XorLowBits(x / 2, y / 2, k - 1);
      var xl, yl := x % (2 * p), y % (2 * p);
      HalveMod(x, p);
      HalveMod(y, p);
      var bit := (x % 2 + y % 2) % 2;
      var h := Xor(x / 2, y / 2);
      XorUnfold(x, y);
      XorUnfold(xl, yl);
      assert Xor(xl / 2, yl / 2) == h % p;
      DoubleMod(h, bit, p);
    }
  }

  lemma Pow2Plus3(n: nat)
    ensures Pow2(n + 3) == 8 * Pow2(n)
  {
    assert Pow2(n + 3) == 2 * Pow2(n + 2);
    assert Pow2(n + 2) == 2 * Pow2(n + 1);
  }

  /** A value written as a low part below p and a digit i below 8 above it. */
  lemma SplitDigit(low: nat, i: nat, p: nat)
    requires low < p && i < 8
    ensures (low + i * p) % p == low && (low + i * p) / p == i
    ensures low + i * p < 8 * p
  {
    DivModUnique(low + i * p, p, i, low);
    MulLeMono(i, 7, p);
  }

  lemma Regroup(a: nat, q: nat, p: nat, s: nat, big: nat, r: nat, r1: nat, r0: nat) returns (k: nat)
    requires big == p * s && a == q * big + r && r == r1 * p + r0
    ensures k == q * s + r1 && a == k * p + r0
  {
    k := q * s + r1;
  }

  /** Reducing modulo 2^n and then modulo 2^m, m <= n, is reducing modulo 2^m. */
  lemma ModPow2Mod(a: nat, m: nat, n: nat)
    requires m <= n
    ensures a % Pow2(n) % Pow2(m) == a % Pow2(m)
  {
    var p, s, big := Pow2(m), Pow2(n - m), Pow2(n);
    var q: nat, r: nat := a / big, a % big;
    var r1: nat, r0: nat := r / p, r % p;
    DivModParts(a, big);
    DivModParts(r, p);
    PowAdd(2, m, n - m);
    var k := Regroup(a, q, p, s, big, r, r1, r0);
    DivModUnique(a, p, k, r0);
  }

  lemma SmallMod(a: nat, d: nat)
    requires a < d
    ensures a % d == a
  {
    DivModUnique(a, d, 0, a);
  }

  lemma DivIsZero(a: nat, d: nat)
    requires d > 0
    ensures a / d == 0 <==> a < d
  {
    DivModParts(a, d);
    if a < d {
      DivModUnique(a, d, 0, a);
    }
  }

  /** Shifting a number reduced to its b + k low bits right by b keeps the
      k low bits of the shifted number. */
  lemma {:induction false} ShrLow(x: nat, b: nat, k: nat)
    ensures Shr(x % Pow2(b + k), b) == Shr(x, b) % Pow2(k)
    decreases b
  {
    if b > 0 {
      var p := Pow2(b - 1 + k);
      assert Pow2(b + k) == 2 * p;
      HalveMod(x, p);
      ShrLow(x / 2, b - 1, k);
    }
  }

  lemma ShrZero(b: nat)
    ensures Shr(0, b) == 0
  {
    if b > 0 {
      ShrZero(b - 1);
    }
  }

  /** Shifting by three more bits is dividing by 8 first. */
  lemma ShrEight(x: nat, b: nat)
    ensures Shr(x, b + 3) == Shr(x / 8, b)
  {
    HalveDivMod(x, 4);
    HalveDivMod(x / 2, 2);
    assert Shr(x, b + 3) == Shr(x / 2, b + 2);
    assert Shr(x / 2, b + 2) == Shr(x / 2 / 2, b + 1);
  }

  /** The number of decimal digits (`ilog10() + 1`). */
  function NumDigits(n: nat): (d: nat)
    requires n > 0
    ensures d >= 1 && Pow(10, d - 1) <= n < Pow(10, d)
    decreases n
  {
    if n < 10 then 1 else 1 + NumDigits(n / 10)
  }

  /** A number between 10^(d-1) and 10^d has exactly d digits. */
  lemma {:induction false} DigitsUnique(n: nat, d: nat)
    requires d >= 1 && Pow(10, d - 1) <= n < Pow(10, d)
    ensures NumDigits(n) == d
  {
    var e := NumDigits(n);
    if e < d {
      PowMonotone(10, e, d - 1);
      assert false;
    } else if e > d {
      PowMonotone(10, d, e - 1);
      assert false;
    }
  }

  /** Bounds on a dividend carry over to its quotient. */
  lemma QuotientBounds(n: nat, p: nat, lo: nat, hi: nat)
    requires p > 0 && lo * p <= n < hi * p
    ensures lo <= n / p < hi
  {
    DivModParts(n, p);
    if n / p < lo {
      MulLeMono(n / p + 1, lo, p);
      assert false;
    }
    if n / p >= hi {
      MulLeMono(hi, n / p, p);
      assert false;
    }
  }
}
