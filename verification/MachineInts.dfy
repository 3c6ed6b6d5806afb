/** Fixed-width unsigned integers and bit masks.

    The program indexes its tables and rings with `x & (n - 1)` for a power of
    two `n`.  `And` is the bitwise operation itself; `MaskIsMod` is the fact
    that makes it a remainder. */
module MachineInts {

  const TWO_32: nat := 0x1_0000_0000
  const TWO_64: nat := 0x1_0000_0000_0000_0000

  type uint8 = x: int | 0 <= x < 256
  type uint16 = x: int | 0 <= x < 65536
  type uint32 = x: int | 0 <= x < TWO_32
  type uint64 = x: int | 0 <= x < TWO_64

  /** Unsigned 64-bit addition and subtraction, with wrap-around. */
  function Add64(a: uint64, b: uint64): uint64 {
    if a + b < TWO_64 then a + b else a + b - TWO_64
  }

  function Sub64(a: uint64, b: uint64): uint64 {
    if a >= b then a - b else a - b + TWO_64
  }

  /** Bitwise conjunction of two non-negative numbers. */
  function And(a: nat, b: nat): (r: nat)
    ensures r <= a && r <= b
  {
    if a == 0 || b == 0 then 0
    else 2 * And(a / 2, b / 2) + if a % 2 == 1 && b % 2 == 1 then 1 else 0
  }

  /** The program's own test: `n & (n - 1)` is zero (and `n` is not). */
  predicate PowerOfTwo(n: nat) {
    n > 0 && And(n, n - 1) == 0
  }

  lemma {:induction false} AndSelf(a: nat)
    ensures And(a, a) == a
  {
    if a > 0 { AndSelf(a / 2); }
  }

  lemma HalfOfPower(n: nat)
    requires PowerOfTwo(n) && n > 1
    ensures n % 2 == 0 && PowerOfTwo(n / 2)
  {
    if n % 2 == 1 {
      assert (n - 1) / 2 == n / 2;
      AndSelf(n / 2);
    } else {
      assert (n - 1) / 2 == n / 2 - 1;
    }
  }

  lemma AndStep(x: nat, m: nat)
    requires m > 0
    ensures And(x, 2 * m - 1) == 2 * And(x / 2, m - 1) + x % 2
  {
    assert (2 * m - 1) / 2 == m - 1 && (2 * m - 1) % 2 == 1;
  }

  lemma MaskStep(x: nat, m: nat, n: nat)
    requires m > 0 && n == 2 * m && And(x / 2, m - 1) == (x / 2) % m
    ensures And(x, n - 1) == x % n
  {
    AndStep(x, m);
    ModHalves(x, m);
  }

  lemma {:induction false} MaskPow2(x: nat, k: nat)
    ensures And(x, Pow2(k) - 1) == x % Pow2(k)
  {
    if k > 0 {
      MaskPow2(x / 2, k - 1);
      MaskStep(x, Pow2(k - 1), Pow2(k));
    }
  }

  lemma {:induction false} Exponent(n: nat) returns (k: nat)
    requires PowerOfTwo(n)
    ensures n == Pow2(k)
  {
    if n == 1 { return 0; }
    HalfOfPower(n);
    k := Exponent(n / 2);
    k := k + 1;
  }

  lemma MaskIsMod(x: nat, n: nat)
    requires PowerOfTwo(n)
    ensures And(x, n - 1) == x % n
  {
    var k := Exponent(n);
    MaskPow2(x, k);
  }

  lemma ModHalves(x: nat, m: nat)
    requires m > 0
    ensures x % (2 * m) == 2 * ((x / 2) % m) + x % 2
  {
    var q, r := (x / 2) / m, (x / 2) % m;
    assert x == (2 * m) * q + (2 * r + x % 2);
    ModUnique(x, 2 * m, q, 2 * r + x % 2);
  }

  lemma MulGap(m: nat, a: int, b: int)
    ensures a < b ==> m * a + m <= m * b
  {
    if a < b { Distribute(m, a, b - a - 1); }
  }

  lemma Distribute(m: nat, a: int, d: nat)
    ensures m * (a + 1 + d) == m * a + m + m * d >= m * a + m
  {
  }

  lemma ModUnique(x: nat, m: nat, q: nat, r: nat)
    requires 0 <= r < m && x == m * q + r
    ensures x % m == r
  {
    var q' := x / m;
    assert x == m * q' + x % m;
    MulGap(m, q, q');
    MulGap(m, q', q);
  }

  /** Adding a multiple of the modulus leaves the remainder. */
  lemma ModShift(x: nat, m: nat, q: nat, y: nat)
    requires m > 0 && x == m * q + y
    ensures x % m == y % m
  {
    var p := y / m;
    assert y == m * p + y % m;
    assert m * q + m * p == m * (q + p);
    ModUnique(x, m, q + p, y % m);
  }

  /** Stepping round a ring of `n` positions. */
  lemma StepMod(i: nat, n: nat)
    requires i < n
    ensures (i + 1) % n == if i + 1 == n then 0 else i + 1
  {
    if i + 1 == n { ModUnique(n, n, 1, 0); } else { ModUnique(i + 1, n, 0, i + 1); }
  }

  /** A smaller power of two divides a larger one. */
  lemma {:induction false} PowersDivide(n: nat, m: nat)
    requires PowerOfTwo(n) && PowerOfTwo(m) && n <= m
    ensures m % n == 0
  {
    if n > 1 {
      HalfOfPower(n);
      HalfOfPower(m);
      PowersDivide(n / 2, m / 2);
      ModHalves(m, n / 2);
    }
  }

  function Pow2(k: nat): (p: nat)
    ensures p > 0
  {
    if k == 0 then 1 else 2 * Pow2(k - 1)
  }

  lemma {:induction false} Pow2IsPower(k: nat)
    ensures PowerOfTwo(Pow2(k))
  {
    if k > 0 {
      Pow2IsPower(k - 1);
      assert (Pow2(k) - 1) / 2 == Pow2(k - 1) - 1;
    }
  }

  lemma {:induction false} Pow2Sum(a: nat, b: nat)
    ensures Pow2(a + b) == Pow2(a) * Pow2(b)
  {
    if a > 0 { Pow2Sum(a - 1, b); }
  }

  lemma ModOfMultiple(x: nat, word: nat, n: nat, k: nat)
    requires n > 0 && word > 0 && word == n * k
    ensures (x % word) % n == x % n
  {
    var q := x / word;
    assert x == word * q + x % word;
    MulAssoc(n, k, q);
    ModShift(x, n, k * q, x % word);
  }

  lemma MulAssoc(a: nat, b: nat, c: nat)
    ensures (a * b) * c == a * (b * c) && b * c >= 0
  {
  }

  /** Truncating to a machine word before masking changes nothing. */
  lemma MaskAfterWrap(x: nat, word: nat, n: nat)
    requires PowerOfTwo(n) && PowerOfTwo(word) && n <= word
    ensures And(x % word, n - 1) == x % n
  {
    PowersDivide(n, word);
    var k := word / n;
    ModOfMultiple(x, word, n, k);
    MaskIsMod(x % word, n);
  }

  lemma Pow2Squared(a: nat, p: nat)
    requires Pow2(a) == p
    ensures Pow2(2 * a) == p * p
  {
    Pow2Sum(a, a);
  }

  lemma WordSizesArePowers()
    ensures PowerOfTwo(TWO_32) && PowerOfTwo(TWO_64)
  {
    assert Pow2(2) == 4;
    Pow2Squared(2, 4);
    Pow2Squared(4, 16);
    Pow2Squared(8, 256);
    Pow2Squared(16, 65536);
    Pow2Squared(32, TWO_32);
    assert Pow2(32) == TWO_32 && Pow2(64) == TWO_64;
    Pow2IsPower(32);
    Pow2IsPower(64);
  }

  lemma Mask32(x: nat, n: nat)
    requires PowerOfTwo(n) && n <= TWO_32
    ensures And(x % TWO_32, n - 1) == x % n
  {
    WordSizesArePowers();
    MaskAfterWrap(x, TWO_32, n);
  }

  lemma Mask64(x: nat, n: nat)
    requires PowerOfTwo(n) && n <= TWO_64
    ensures And(x % TWO_64, n - 1) == x % n
  {
    WordSizesArePowers();
    MaskAfterWrap(x, TWO_64, n);
  }
}
