// Integer alignment, power-of-two and ceil-divide helpers of the math
// library (Math/Common.h).  The templates are instantiated at size_t: a
// Word is a 64-bit unsigned value, and every addition or subtraction that
// the C++ code performs in size_t is wrapped explicitly with Wrap.
module AlignMath {

  /** 2^64: the number of distinct size_t values. */
  const WORD: nat := 0x1_0000_0000_0000_0000

  /** 2^32: the number of distinct uint32_t values. */
  const WORD32: nat := 0x1_0000_0000

  type Word = x: nat | x < WORD

  /** Reduction modulo 2^64: the value a size_t expression takes after wrap-around. */
  function Wrap(x: int): (r: Word)
    ensures 0 <= x < WORD ==> r == x
    ensures WORD <= x < 2 * WORD ==> r == x - WORD
    ensures 0 <= x + WORD < WORD ==> r == x + WORD
  {
    x % WORD
  }

  function Pow2(k: nat): (r: nat)
    ensures r >= 1
  {
    if k == 0 then 1 else 2 * Pow2(k - 1)
  }

  /** Bitwise AND of two naturals, one bit at a time from the least significant. */
  function And(x: nat, y: nat): (r: nat)
    ensures r <= x && r <= y
  {
    if x == 0 || y == 0 then 0
    else 2 * And(x / 2, y / 2) + (if x % 2 == 1 && y % 2 == 1 then 1 else 0)
  }

  /** Bitwise complement of a size_t (~mask). */
  function Not(x: Word): (r: Word)
    ensures r + x == WORD - 1
  {
    WORD - 1 - x
  }

  /** A positive number with exactly one bit set. */
  predicate IsPow2(a: nat)
  {
    a == 1 || (a >= 2 && a % 2 == 0 && IsPow2(a / 2))
  }

  // ---------------------------------------------------------------------
  // Arithmetic helpers.
  // ---------------------------------------------------------------------

  lemma MulMono(a: int, b: int, d: int)
    requires a <= b && d >= 0
    ensures a * d <= b * d
  {
    assert b * d - a * d == (b - a) * d;
  }

  /** Quotient and remainder are unique. */
  lemma DivModUnique(x: int, d: int, q: int, r: int)
    requires d > 0 && 0 <= r < d && x == q * d + r
    ensures x / d == q && x % d == r
  {
    var q', r' := x / d, x % d;
    assert x == q' * d + r';
    if q' > q {
      MulMono(q + 1, q', d);
    } else if q' < q {
      MulMono(q' + 1, q, d);
    }
  }

  lemma DivModIdentity(x: int, d: int)
    requires d > 0
    ensures x == (x / d) * d + x % d && 0 <= x % d < d
  {
  }

  /** A multiple of d leaves no remainder. */
  lemma MultipleMod(q: int, d: int)
    requires d > 0
    ensures (q * d) % d == 0 && (q * d) / d == q
  {
    DivModUnique(q * d, d, q, 0);
  }

  /** x mod 2p, written through x / 2 and the low bit. */
  lemma DivModStep(x: nat, p: nat)
    requires p >= 1
    ensures x % (2 * p) == 2 * ((x / 2) % p) + x % 2
  {
    var h := x / 2;
    var q := h / p;
    var r := h % p;
    assert h == q * p + r;
    assert x == 2 * h + x % 2;
    assert q * (2 * p) == 2 * (q * p);
    assert x == q * (2 * p) + (2 * r + x % 2);
    DivModUnique(x, 2 * p, q, 2 * r + x % 2);
  }

  // ---------------------------------------------------------------------
  // Bit-level facts about And, Pow2 and IsPow2.
  // ---------------------------------------------------------------------

  lemma {:induction false} Pow2Add(a: nat, b: nat)
    ensures Pow2(a + b) == Pow2(a) * Pow2(b)
  {
    if a > 0 {
      Pow2Add(a - 1, b);
      assert Pow2(a + b) == 2 * Pow2(a - 1 + b);
    }
  }

  lemma {:induction false} Pow2Monotone(a: nat, b: nat)
    requires a <= b
    ensures Pow2(a) <= Pow2(b)
  {
    if a < b {
      Pow2Monotone(a, b - 1);
    }
  }

  lemma Pow2Word()
    ensures Pow2(31) == 0x8000_0000
    ensures Pow2(32) == WORD32
    ensures Pow2(64) == WORD
  {
    Pow2Sixteen();
    Pow2Add(16, 16);
    assert Pow2(32) == 2 * Pow2(31);
    Pow2Add(32, 32);
  }

  lemma Pow2Sixteen()
    ensures Pow2(16) == 0x1_0000
  {
    assert Pow2(8) == 256;
    Pow2Add(8, 8);
  }

  lemma {:induction false} Pow2IsPow2(k: nat)
    ensures IsPow2(Pow2(k))
  {
    if k > 0 {
      Pow2IsPow2(k - 1);
    }
  }

  /** 2^n - 2^k for k <= n: the mask of the bits from k up to n. */
  function HighMask(n: nat, k: nat): (m: nat)
    requires k <= n
    ensures m + Pow2(k) == Pow2(n)
  {
    Pow2Monotone(k, n);
    Pow2(n) - Pow2(k)
  }

  lemma AndStep(x: nat, y: nat)
    requires x > 0 && y > 0
    ensures And(x, y) == 2 * And(x / 2, y / 2) + (if x % 2 == 1 && y % 2 == 1 then 1 else 0)
  {
  }

  lemma {:induction false} AndSelf(x: nat)
    ensures And(x, x) == x
  {
    if x != 0 {
      AndSelf(x / 2);
      AndStep(x, x);
    }
  }

  /** Masking with 2^k - 1 keeps the k low bits: x & (2^k - 1) == x mod 2^k. */
  lemma {:induction false} AndLowMask(x: nat, k: nat)
    ensures And(x, Pow2(k) - 1) == x % Pow2(k)
  {
    if k == 0 || x == 0 {
    } else {
      var p := Pow2(k - 1);
      assert Pow2(k) == 2 * p;
      assert (2 * p - 1) / 2 == p - 1;
      assert (2 * p - 1) % 2 == 1;
      AndLowMask(x / 2, k - 1);
      AndStep(x, 2 * p - 1);
      DivModStep(x, p);
    }
  }

  /**
   * Masking a value of n bits with the high mask 2^n - 2^k clears its k low
   * bits: the result is x rounded down to a multiple of 2^k.
   */
  lemma {:induction false} AndHighMask(x: nat, n: nat, k: nat)
    requires k <= n && x < Pow2(n)
    ensures And(x, HighMask(n, k)) == x - x % Pow2(k)
  {
    if k == 0 {
      AndLowMask(x, n);
      DivModUnique(x, Pow2(n), 0, x);
    } else if k == n {
      DivModUnique(x, Pow2(n), 0, x);
    } else if x == 0 {
    } else {
      HighMaskStep(n, k);
      var p := Pow2(k - 1);
      var y := HighMask(n, k);
      var h := x / 2;
      AndHighMask(h, n - 1, k - 1);
      assert And(h, y / 2) == h - h % p;
      AndStep(x, y);
      assert And(x, y) == 2 * (h - h % p);
      DivModStep(x, p);
      assert x % Pow2(k) == 2 * (h % p) + x % 2;
    }
  }

  /** One bit lower, the high mask loses its lowest bit. */
  lemma HighMaskStep(n: nat, k: nat)
    requires 1 <= k < n
    ensures Pow2(k) == 2 * Pow2(k - 1)
    ensures HighMask(n, k) > 0
    ensures HighMask(n, k) % 2 == 0
    ensures HighMask(n, k) / 2 == HighMask(n - 1, k - 1)
  {
    Pow2Monotone(k, n - 1);
    var d := HighMask(n - 1, k - 1);
    assert HighMask(n, k) == 2 * d;
    DivModUnique(2 * d, 2, d, 0);
  }

  /** The bits of x split between a mask m and its complement within n bits. */
  lemma {:induction false} AndSplit(x: nat, m: nat, n: nat)
    requires x < Pow2(n) && m < Pow2(n)
    ensures And(x, m) + And(x, Pow2(n) - 1 - m) == x
  {
    var c := Pow2(n) - 1 - m;
    if n == 0 || x == 0 {
    } else if m == 0 || c == 0 {
      AndLowMask(x, n);
      DivModUnique(x, Pow2(n), 0, x);
    } else {
      HalvesBelow(x, m, n);
      AndSplit(x / 2, m / 2, n - 1);
      AndSplitStep(x, m, n);
    }
  }

  /** Halving x, m and the complement of m within n bits gives the same picture within n - 1 bits. */
  lemma HalvesBelow(x: nat, m: nat, n: nat)
    requires n >= 1 && x < Pow2(n) && m < Pow2(n)
    ensures x / 2 < Pow2(n - 1) && m / 2 < Pow2(n - 1)
    ensures var c := Pow2(n) - 1 - m;
      c / 2 == Pow2(n - 1) - 1 - m / 2 && m % 2 + c % 2 == 1
  {
    var p := Pow2(n - 1);
    assert Pow2(n) == 2 * p;
    DivModIdentity(x, 2);
    DivModIdentity(m, 2);
    var c := Pow2(n) - 1 - m;
    var hc := p - 1 - m / 2;
    assert c == 2 * hc + (1 - m % 2);
    DivModUnique(c, 2, hc, 1 - m % 2);
  }

  /** One step of AndSplit, given that the halves already split x / 2 within n - 1 bits. */
  lemma AndSplitStep(x: nat, m: nat, n: nat)
    requires n >= 1 && x > 0 && m > 0 && m < Pow2(n) - 1 && x < Pow2(n)
    requires And(x / 2, m / 2) + And(x / 2, Pow2(n - 1) - 1 - m / 2) == x / 2
    ensures And(x, m) + And(x, Pow2(n) - 1 - m) == x
  {
    HalvesBelow(x, m, n);
    var c := Pow2(n) - 1 - m;
    AndSplitCombine(x, m, c, Pow2(n - 1) - 1 - m / 2);
  }

  /** One step of AndSplit: complementary low bits, and the halves already split x / 2. */
  lemma AndSplitCombine(x: nat, m: nat, c: nat, hc: nat)
    requires x > 0 && m > 0 && c > 0 && m % 2 + c % 2 == 1 && c / 2 == hc
    requires And(x / 2, m / 2) + And(x / 2, hc) == x / 2
    ensures And(x, m) + And(x, c) == x
  {
    AndStep(x, m);
    AndStep(x, c);
    DivModIdentity(x, 2);
  }

  /** x & (x - 1) == 0 exactly for the powers of two (x >= 1). */
  lemma {:induction false} AndPredecessor(x: nat)
    requires x >= 1
    ensures And(x, x - 1) == 0 <==> IsPow2(x)
  {
    if x == 1 {
    } else if x % 2 == 0 {
      assert (x - 1) / 2 == x / 2 - 1;
      AndStep(x, x - 1);
      AndPredecessor(x / 2);
    } else {
      assert (x - 1) / 2 == x / 2;
      AndSelf(x / 2);
      AndStep(x, x - 1);
    }
  }

  // ---------------------------------------------------------------------
  // Bit scans (_BitScanReverse64 / _BitScanForward64 on a nonzero value).
  // ---------------------------------------------------------------------

  /** Index of the most significant set bit. */
  function Msb(v: nat): (r: nat)
    requires v >= 1
    ensures Pow2(r) <= v < 2 * Pow2(r)
  {
    if v == 1 then 0 else 1 + Msb(v / 2)
  }

  /** Index of the least significant set bit: bit r is set and every bit below it is clear. */
  function Lsb(v: nat): (r: nat)
    requires v >= 1
    ensures r <= Msb(v)
    ensures v % Pow2(r) == 0 && (v / Pow2(r)) % 2 == 1
  {
    if v % 2 == 1 then 0
    else
      var r' := Lsb(v / 2);
      LsbStep(v, r');
      1 + r'
  }

  /** An even v whose half has lowest set bit r has lowest set bit r + 1. */
  lemma LsbStep(v: nat, r: nat)
    requires v % 2 == 0 && (v / 2) % Pow2(r) == 0 && ((v / 2) / Pow2(r)) % 2 == 1
    ensures v % Pow2(r + 1) == 0 && (v / Pow2(r + 1)) % 2 == 1
  {
    var p := Pow2(r);
    var q := (v / 2) / p;
    DivModIdentity(v / 2, p);
    assert v / 2 == q * p;
    assert v == 2 * (v / 2);
    assert q * (2 * p) == 2 * (q * p);
    assert v == q * Pow2(r + 1);
    MultipleMod(q, Pow2(r + 1));
  }

  /** Every power of two is Pow2 of its bit index. */
  lemma {:induction false} IsPow2Pow2(a: nat)
    requires IsPow2(a)
    ensures a >= 1 && a == Pow2(Msb(a))
  {
    if a != 1 {
      IsPow2Pow2(a / 2);
    }
  }

  /** A value below 2^n has its highest bit below n. */
  lemma MsbBelow(v: nat, n: nat)
    requires 1 <= v < Pow2(n)
    ensures Msb(v) < n
  {
    if Msb(v) >= n {
      Pow2Monotone(n, Msb(v));
    }
  }

  /** The two scans meet exactly when only one bit is set. */
  lemma {:induction false} ScansMeet(v: nat)
    requires v >= 1
    ensures Msb(v) == Lsb(v) <==> IsPow2(v)
  {
    if v != 1 && v % 2 == 0 {
      ScansMeet(v / 2);
    }
  }

  // ---------------------------------------------------------------------
  // The templates of Math/Common.h, at T = size_t.
  // ---------------------------------------------------------------------

  /** (value + mask) & ~mask */
  function AlignUpWithMask(value: Word, mask: Word): (r: Word)
    ensures r <= Not(mask)
    ensures r <= Wrap(value + mask)
  {
    And(Wrap(value + mask), Not(mask))
  }

  /** value & ~mask */
  function AlignDownWithMask(value: Word, mask: Word): (r: Word)
    ensures r <= value && r <= Not(mask)
  {
    And(value, Not(mask))
  }

  /** AlignUpWithMask(value, alignment - 1); alignment 0 gives an all-ones mask. */
  function AlignUp(value: Word, alignment: Word): (r: Word)
    ensures IsPow2(alignment) && value + alignment - 1 < WORD ==>
      r % alignment == 0 && value <= r < value + alignment
  {
    if IsPow2(alignment) && value + alignment - 1 < WORD then
      AlignUpPow2(value, alignment);
      AlignUpWithMask(value, Wrap(alignment - 1))
    else
      AlignUpWithMask(value, Wrap(alignment - 1))
  }

  /** AlignDownWithMask(value, alignment - 1) */
  function AlignDown(value: Word, alignment: Word): (r: Word)
    ensures r <= value
    ensures IsPow2(alignment) ==> r == value - value % alignment
  {
    if IsPow2(alignment) then
      AlignDownPow2(value, alignment);
      AlignDownWithMask(value, Wrap(alignment - 1))
    else
      AlignDownWithMask(value, Wrap(alignment - 1))
  }

  /** 0 == (value & (alignment - 1)) */
  function IsAligned(value: Word, alignment: Word): (b: bool)
    ensures IsPow2(alignment) ==> (b <==> value % alignment == 0)
  {
    if IsPow2(alignment) then
      IsPow2Pow2(alignment);
      AndLowMask(value, Msb(alignment));
      And(value, Wrap(alignment - 1)) == 0
    else
      And(value, Wrap(alignment - 1)) == 0
  }

  /** (value + alignment - 1) / alignment, the addition in size_t. */
  function DivideByMultiple(value: Word, alignment: Word): (r: Word)
    requires alignment > 0
    ensures value + alignment - 1 < WORD ==>
      r * alignment >= value && (r - 1) * alignment < value
  {
    if value + alignment - 1 < WORD then
      CeilDivide(value, alignment);
      Wrap(value + alignment - 1) / alignment
    else
      Wrap(value + alignment - 1) / alignment
  }

  /** 0 == (value & (value - 1)), the subtraction in size_t. */
  function IsPowerOfTwo(value: Word): (b: bool)
    ensures b <==> value == 0 || IsPow2(value)
  {
    if value == 0 then
      And(value, Wrap(value - 1)) == 0
    else
      AndPredecessor(value);
      And(value, Wrap(value - 1)) == 0
  }

  /** (value / divisor) * divisor == value */
  function IsDivisible(value: Word, divisor: Word): (b: bool)
    requires divisor > 0
    ensures b <==> value % divisor == 0
  {
    if value % divisor == 0 then
      MultipleMod(value / divisor, divisor);
      (value / divisor) * divisor == value
    else
      (value / divisor) * divisor == value
  }

  /**
   * Ceiling of the base-2 logarithm of a 64-bit value through two bit scans:
   * the index of the highest set bit, plus one unless it is also the lowest.
   * Both scans report failure on 0, which yields 0.
   */
  function Log2(value: Word): (r: nat)
    ensures r <= 64
    ensures value == 0 ==> r == 0
    ensures value >= 1 ==> value <= Pow2(r) && (r == 0 || Pow2(r - 1) < value)
  {
    if value == 0 then 0
    else
      var k := Msb(value) + (if Msb(value) == Lsb(value) then 0 else 1);
      CeilLogWord(value, k);
      k
  }

  /** The ceiling log of a nonzero word is at most 64. */
  lemma CeilLogWord(value: Word, k: nat)
    requires value >= 1 && k == Msb(value) + (if Msb(value) == Lsb(value) then 0 else 1)
    ensures k <= 64 && value <= Pow2(k) && (k == 0 || Pow2(k - 1) < value)
  {
    Pow2Word();
    MsbBelow(value, 64);
    ScansMeet(value);
    if Msb(value) == Lsb(value) {
      CeilOfPower(value, k);
    } else {
      CeilOfNonPower(value, k);
    }
  }

  /**
   * value == 0 ? 0 : 1 << Log2(value), at T = uint32_t, the type of its
   * callers.  The shifted 1 is an int, so the shift is defined only while
   * Log2(value) <= 31, that is value <= 2^31.
   */
  function AlignPowerOfTwo(value: nat): (r: nat)
    requires value <= 0x8000_0000
    ensures value == 0 ==> r == 0
    ensures value >= 1 ==> IsPow2(r) && value <= r && r < 2 * value
    ensures r < WORD32
  {
    if value == 0 then 0
    else
      Pow2Word();
      LogBelow(value);
      Pow2IsPow2(Log2(value));
      Pow2Monotone(Log2(value), 31);
      Pow2(Log2(value))
  }

  // ---------------------------------------------------------------------
  // Helpers for the contracts above.
  // ---------------------------------------------------------------------

  /** For a power of two a = 2^k, the mask a - 1 and its complement 2^64 - 2^k. */
  lemma AlignMasks(alignment: Word)
    requires IsPow2(alignment)
    ensures Msb(alignment) <= 64
    ensures Pow2(Msb(alignment)) == alignment
    ensures Wrap(alignment - 1) == alignment - 1
    ensures Not(Wrap(alignment - 1)) == HighMask(64, Msb(alignment))
  {
    IsPow2Pow2(alignment);
    Pow2Word();
    MsbBelow(alignment, 64);
  }

  lemma AlignDownPow2(value: Word, alignment: Word)
    requires IsPow2(alignment)
    ensures AlignDownWithMask(value, Wrap(alignment - 1)) == value - value % alignment
  {
    AlignMasks(alignment);
    Pow2Word();
    AndHighMask(value, 64, Msb(alignment));
  }

  lemma AlignUpPow2(value: Word, alignment: Word)
    requires IsPow2(alignment) && value + alignment - 1 < WORD
    ensures var r := AlignUpWithMask(value, Wrap(alignment - 1));
      r % alignment == 0 && value <= r < value + alignment
  {
    AlignUpRoundsDown(value, alignment);
    RoundDownBracket(value, alignment);
  }

  /** With a power-of-two alignment, AlignUpWithMask rounds value + alignment - 1 down. */
  lemma AlignUpRoundsDown(value: Word, alignment: Word)
    requires IsPow2(alignment) && value + alignment - 1 < WORD
    ensures var s := value + alignment - 1;
      AlignUpWithMask(value, Wrap(alignment - 1)) == s - s % alignment
  {
    AlignMasks(alignment);
    Pow2Word();
    var k := Msb(alignment);
    var mask := Wrap(alignment - 1);
    var s: Word := value + alignment - 1;
    assert Wrap(value + mask) == s;
    MaskedAlignUp(value, mask, s, HighMask(64, k));
    AndHighMask(s, 64, k);
  }

  lemma MaskedAlignUp(value: Word, mask: Word, s: Word, h: nat)
    requires Wrap(value + mask) == s && Not(mask) == h
    ensures AlignUpWithMask(value, mask) == And(s, h)
  {
  }

  /** Rounding value + a - 1 down to a multiple of a lands in [value, value + a). */
  lemma RoundDownBracket(value: nat, a: nat)
    requires a > 0
    ensures var s := value + a - 1;
      var r := s - s % a;
      r % a == 0 && value <= r < value + a
  {
    var s := value + a - 1;
    var q := s / a;
    DivModIdentity(s, a);
    assert s - s % a == q * a;
    MultipleMod(q, a);
  }

  lemma CeilDivide(value: nat, a: nat)
    requires a > 0
    ensures var q := (value + a - 1) / a;
      q * a >= value && (q - 1) * a < value
  {
    var s := value + a - 1;
    var q := s / a;
    DivModIdentity(s, a);
    assert (q - 1) * a == q * a - a;
  }

  /** A power of two 2^k lies in (2^(k-1), 2^k]. */
  lemma CeilOfPower(value: nat, k: nat)
    requires value >= 1 && IsPow2(value) && k == Msb(value)
    ensures value <= Pow2(k) && (k == 0 || Pow2(k - 1) < value)
  {
    IsPow2Pow2(value);
    if k > 0 {
      assert Pow2(k) == 2 * Pow2(k - 1);
    }
  }

  /** A value that is not a power of two lies strictly between 2^Msb and 2^(Msb + 1). */
  lemma CeilOfNonPower(value: nat, k: nat)
    requires value >= 1 && !IsPow2(value) && k == Msb(value) + 1
    ensures value <= Pow2(k) && Pow2(k - 1) < value
  {
    var m := k - 1;
    assert Pow2(m) <= value < 2 * Pow2(m);
    if value == Pow2(m) {
      Pow2IsPow2(m);
    }
  }

  /** Up to 2^31, the ceiling log stays within the int shift range. */
  lemma LogBelow(value: Word)
    requires 1 <= value <= 0x8000_0000
    ensures Log2(value) <= 31
  {
    Pow2Word();
    var k := Log2(value);
    if k > 31 {
      Pow2Monotone(31, k - 1);
    }
  }

  // ---------------------------------------------------------------------
  // Properties stated across several templates.
  // ---------------------------------------------------------------------

  /**
   * For a power-of-two alignment and no wrap-around, AlignUp is the least
   * multiple of the alignment that is not below the value.
   */
  lemma AlignUpIsLeast(value: Word, alignment: Word, m: nat)
    requires IsPow2(alignment) && value + alignment - 1 < WORD
    requires m % alignment == 0 && m >= value
    ensures AlignUp(value, alignment) <= m
  {
    var r := AlignUp(value, alignment);
    if m < r {
      MultiplesSpaced(m, r, alignment);
    }
  }

  lemma MultiplesSpaced(m: nat, r: nat, a: nat)
    requires a > 0 && m % a == 0 && r % a == 0 && m < r
    ensures m + a <= r
  {
    var i, j := m / a, r / a;
    assert m == i * a && r == j * a;
    if i >= j {
      MulMono(j, i, a);
    }
    MulMono(i + 1, j, a);
    assert (i + 1) * a == i * a + a;
  }

  /** AlignDown(v, a) <= v <= AlignUp(v, a), both multiples of a. */
  lemma AlignBracket(value: Word, alignment: Word)
    requires IsPow2(alignment) && value + alignment - 1 < WORD
    ensures AlignDown(value, alignment) <= value <= AlignUp(value, alignment)
    ensures AlignDown(value, alignment) % alignment == 0
    ensures AlignUp(value, alignment) % alignment == 0
  {
    IsPow2Pow2(alignment);
    var q := value / alignment;
    DivModIdentity(value, alignment);
    assert AlignDown(value, alignment) == q * alignment;
    MultipleMod(q, alignment);
  }

  /** IsAligned(v, a) holds iff AlignDown(v, a) == v, for every alignment. */
  lemma AlignedIffAlignDownFixed(value: Word, alignment: Word)
    ensures IsAligned(value, alignment) <==> AlignDown(value, alignment) == value
  {
    var mask := Wrap(alignment - 1);
    Pow2Word();
    AndSplit(value, mask, 64);
  }

  /** AlignUp wraps around to a smaller value when value + alignment - 1 overflows. */
  lemma AlignUpWrapsOnOverflow(value: Word, alignment: Word)
    requires IsPow2(alignment) && value + alignment - 1 >= WORD
    ensures AlignUp(value, alignment) < value
  {
    AlignMasks(alignment);
    assert Wrap(value + Wrap(alignment - 1)) == value + alignment - 1 - WORD;
  }

  /** An alignment of 0 makes the mask all ones, so AlignUp yields 0. */
  lemma AlignUpZeroAlignment(value: Word)
    ensures AlignUp(value, 0) == 0
  {
  }

  /** IsPowerOfTwo accepts 0, whose predecessor wraps to all ones. */
  lemma ZeroIsPowerOfTwo()
    ensures IsPowerOfTwo(0)
  {
  }

  /** AlignUp of the all-ones value wraps to 0 for every power of two from 2 on. */
  lemma AlignUpOfAllOnes(alignment: Word)
    requires IsPow2(alignment) && alignment >= 2
    ensures AlignUp(WORD - 1, alignment) == 0
  {
    AlignMasks(alignment);
    Pow2Word();
    var k := Msb(alignment);
    var mask := Wrap(alignment - 1);
    var s := alignment - 2;
    assert Wrap(WORD - 1 + mask) == s;
    MaskedAlignUp(WORD - 1, mask, s, HighMask(64, k));
    AndHighMask(s, 64, k);
    DivModUnique(s, alignment, 0, s);
  }

  /** An alignment of 1 leaves every value unchanged. */
  lemma AlignUpByOne(value: Word)
    ensures AlignUp(value, 1) == value
  {
    assert IsPow2(1);
  }

  /** A power of two that fits a size_t is at most 2^63. */
  lemma Pow2AtMostHalfWord(a: Word)
    requires IsPow2(a)
    ensures a <= WORD / 2
  {
    IsPow2Pow2(a);
    Pow2Word();
    MsbBelow(a, 64);
    Pow2Monotone(Msb(a), 63);
    assert Pow2(64) == 2 * Pow2(63);
  }
}
