/**
 The unsigned machine word `usize`, for an arbitrary width of `bits` bits.

 A word is a natural number below `Pow2(bits)`. `Add` and `Sub` are the checked operators: their
 preconditions make every overflow and underflow a proof obligation. `WrappingAdd`, `BitNot` and
 `BitAnd` are total.
 */
module Usize {

  function Pow2(k: nat): (r: nat)
    ensures r > 0
  {
    if k == 0 then 1 else 2 * Pow2(k - 1)
  }

  ghost predicate IsPowerOfTwo(x: nat) {
    exists k: nat :: x == Pow2(k)
  }

  predicate IsWord(bits: nat, x: int) {
    0 <= x < Pow2(bits)
  }

  function Add(bits: nat, x: nat, y: nat): nat
    requires IsWord(bits, x + y)
  {
    x + y
  }

  function Sub(x: nat, y: nat): nat
    requires y <= x
  {
    x - y
  }

  function WrappingAdd(bits: nat, x: nat, y: nat): nat {
    (x + y) % Pow2(bits)
  }

  function BitNot(bits: nat, x: nat): nat
    requires IsWord(bits, x)
  {
    Pow2(bits) - 1 - x
  }

  // Bitwise conjunction, one bit a step
  function BitAnd(x: nat, y: nat): nat {
    if x == 0 || y == 0 then 0
    else (if x % 2 == 1 && y % 2 == 1 then 1 else 0) + 2 * BitAnd(x / 2, y / 2)
  }

  /** The least multiple of `d` that is at least `x`, in unbounded arithmetic (see `CeilIsLeast`). */
  function CeilMultiple(x: nat, d: nat): nat
    requires d > 0
  {
    if x % d == 0 then x else x + (d - x % d)
  }

  // Division facts

  lemma MulMonotone(i: int, j: int, d: int)
    requires d > 0
    ensures i <= j ==> i * d <= j * d
  {
    if i <= j {
      assert (j - i) * d >= 0;
    }
  }

  lemma ModUnique(x: int, d: int, q: int, r: int)
    requires 0 <= r < d
    requires x == q * d + r
    ensures x % d == r
  {
    var p := x / d;
    assert x == p * d + x % d;
    MulMonotone(p + 1, q, d);
    MulMonotone(q + 1, p, d);
    assert (p + 1) * d == p * d + d && (q + 1) * d == q * d + d;
  }

  lemma ModShift(x: int, d: int, m: int)
    requires d > 0
    ensures (x + m * d) % d == x % d
  {
    assert x + m * d == (x / d + m) * d + x % d by {
      assert x == (x / d) * d + x % d;
      assert (x / d + m) * d == (x / d) * d + m * d;
    }
    ModUnique(x + m * d, d, x / d + m, x % d);
  }

  lemma MultipleOf(x: int, d: int)
    requires d > 0 && x % d == 0
    ensures x == (x / d) * d
  {
  }

  // Multiples closed under sums and differences
  lemma ModSum(x: int, y: int, d: int)
    requires d > 0 && y % d == 0
    ensures (x + y) % d == x % d && (x - y) % d == x % d
  {
    MultipleOf(y, d);
    ModShift(x, d, y / d);
    ModShift(x, d, -(y / d));
    assert (-(y / d)) * d == -y;
  }

  lemma ModTransitive(x: int, b: int, a: int)
    requires a > 0 && b > 0 && b % a == 0
    ensures x % b % a == x % a
    ensures x % b == 0 ==> x % a == 0
  {
    MultipleOf(b, a);
    var m := b / a;
    var q := x / b;
    assert x == q * b + x % b;
    assert q * b == (q * m) * a by { assert b == m * a; assert q * (m * a) == (q * m) * a; }
    ModShift(x % b, a, q * m);
    if x % b == 0 { ModUnique(0, a, 0, 0); }
  }

  // A multiple of `d` above `y - d` is at least `y` when `y` is a multiple too
  lemma NextMultiple(x: int, y: int, d: int)
    requires d > 0 && x % d == 0 && y % d == 0
    requires x > y - d
    ensures x >= y
  {
    MultipleOf(x, d);
    MultipleOf(y, d);
    MulMonotone(x / d + 1, y / d, d);
    assert (x / d + 1) * d == (x / d) * d + d;
  }

  // Powers of two

  lemma {:induction false} Pow2Divides(j: nat, k: nat)
    requires j <= k
    ensures Pow2(j) <= Pow2(k)
    ensures Pow2(k) % Pow2(j) == 0
    decreases k
  {
    if j == k {
      ModUnique(Pow2(k), Pow2(j), 1, 0);
    } else {
      Pow2Divides(j, k - 1);
      ModSum(Pow2(k - 1), Pow2(k - 1), Pow2(j));
    }
  }

  // Of two powers of two the smaller divides the larger
  lemma PowersDivide(a: nat, b: nat)
    requires IsPowerOfTwo(a) && IsPowerOfTwo(b) && a <= b
    ensures a > 0 && b % a == 0
  {
    var j: nat :| a == Pow2(j);
    var k: nat :| b == Pow2(k);
    if j > k {
      Pow2Divides(k, j);
      ModUnique(b, a, 1, 0);
    } else {
      Pow2Divides(j, k);
    }
  }

  lemma EightIsPower()
    ensures IsPowerOfTwo(8) && Pow2(3) == 8
  {
    assert Pow2(1) == 2 && Pow2(2) == 4;
    assert 8 == Pow2(3);
  }

  // The powers of two up to 8
  lemma PowersUpTo8(x: nat)
    requires IsPowerOfTwo(x) && x <= 8
    ensures x in {1, 2, 4, 8}
  {
    var k: nat :| x == Pow2(k);
    assert Pow2(1) == 2 && Pow2(2) == 4 && Pow2(3) == 8 && Pow2(4) == 16;
    if k >= 4 { Pow2Divides(4, k); }
  }

  // Splitting off the lowest bit of a remainder
  lemma ModDouble(y: nat, d: nat)
    requires d > 0
    ensures y - y % (2 * d) == 2 * (y / 2 - (y / 2) % d)
  {
    var h := y / 2;
    assert h == (h / d) * d + h % d;
    assert y == (h / d) * (2 * d) + (y % 2 + 2 * (h % d)) by {
      assert 2 * ((h / d) * d) == (h / d) * (2 * d);
    }
    ModUnique(y, 2 * d, h / d, y % 2 + 2 * (h % d));
  }

  lemma {:induction false} AndAllOnes(bits: nat, y: nat)
    requires y < Pow2(bits)
    ensures BitAnd(y, Pow2(bits) - 1) == y
  {
    if bits == 0 || y == 0 {
    } else {
      AndAllOnes(bits - 1, y / 2);
      assert (Pow2(bits) - 1) / 2 == Pow2(bits - 1) - 1;
    }
  }

  // An even mask drops the lowest bit
  lemma AndEvenMask(y: nat, half: nat)
    ensures BitAnd(y, 2 * half) == 2 * BitAnd(y / 2, half)
  {
  }

  // The complement of `2^k - 1` one bit narrower
  lemma MaskHalves(bits: nat, k: nat)
    requires 0 < k <= bits
    ensures Pow2(k) <= Pow2(bits) && Pow2(k - 1) <= Pow2(bits - 1)
    ensures BitNot(bits, Pow2(k) - 1) == 2 * BitNot(bits - 1, Pow2(k - 1) - 1)
  {
    Pow2Divides(k, bits);
    Pow2Divides(k - 1, bits - 1);
  }

  // `y` with its low `k` bits cleared, one bit a step
  function ClearLow(y: nat, k: nat): nat {
    if k == 0 then y else 2 * ClearLow(y / 2, k - 1)
  }

  lemma {:induction false} ClearLowSubtractsRemainder(y: nat, k: nat)
    ensures ClearLow(y, k) == y - y % Pow2(k)
    decreases k
  {
    if k == 0 {
    } else {
      ClearLowSubtractsRemainder(y / 2, k - 1);
      ModDouble(y, Pow2(k - 1));
    }
  }

  lemma {:induction false} MaskIsClearLow(bits: nat, k: nat, y: nat)
    requires k <= bits && y < Pow2(bits)
    ensures Pow2(k) <= Pow2(bits)
    ensures BitAnd(y, BitNot(bits, Pow2(k) - 1)) == ClearLow(y, k)
    decreases k
  {
    Pow2Divides(k, bits);
    if k == 0 {
      AndAllOnes(bits, y);
    } else {
      MaskHalves(bits, k);
      AndEvenMask(y, BitNot(bits - 1, Pow2(k - 1) - 1));
      MaskIsClearLow(bits - 1, k - 1, y / 2);
    }
  }

  /** Masking with the complement of `2^k - 1` rounds down to a multiple of `2^k`, at every width. */
  lemma MaskClearsLowBits(bits: nat, k: nat, y: nat)
    requires k <= bits && y < Pow2(bits)
    ensures Pow2(k) <= Pow2(bits)
    ensures BitAnd(y, BitNot(bits, Pow2(k) - 1)) == y - y % Pow2(k)
  {
    MaskIsClearLow(bits, k, y);
    ClearLowSubtractsRemainder(y, k);
  }

  // The least multiple

  /** `CeilMultiple(x, d)` is the least multiple of `d` that is not below `x`. */
  lemma CeilIsLeast(x: nat, d: nat)
    requires d > 0
    ensures var c := CeilMultiple(x, d);
            c % d == 0 && x <= c < x + d && forall m: nat :: m % d == 0 && m >= x ==> m >= c
  {
    var c := CeilMultiple(x, d);
    if x % d != 0 {
      var q := x / d;
      assert x == q * d + x % d;
      assert c == (q + 1) * d + 0 by { assert (q + 1) * d == q * d + d; }
      ModUnique(c, d, q + 1, 0);
    }
    forall m: nat | m % d == 0 && m >= x ensures m >= c {
      NextMultiple(m, c, d);
    }
  }
}
