/** JavaScript's bitwise operators on its integer values.

    `a & b`, `a | b`, `a ^ b`, `a << n` and `a >> n` first convert their
    operands to 32-bit two's-complement integers (the ToInt32 conversion) and
    give a 32-bit two's-complement result.  The interpreter's registers and
    memory cells are unbounded integers, so every bitwise operator it uses is
    modelled here exactly, and the lemmas below say what the operators compute
    on the values the machine normally holds (bytes and 16-bit words). */
module JsBits {

  const TwoTo31: int := 0x8000_0000
  const TwoTo32: int := 0x1_0000_0000

  function Pow2(k: nat): (r: nat)
    ensures r > 0
  {
    if k == 0 then 1 else 2 * Pow2(k - 1)
  }

  /** ToInt32: the 32-bit two's-complement value congruent to `x`. */
  function ToInt32(x: int): (r: int)
    ensures -TwoTo31 <= r < TwoTo31
    ensures -TwoTo31 <= x < TwoTo31 ==> r == x
  {
    var m := x % TwoTo32;
    if m < TwoTo31 then m else m - TwoTo32
  }

  /** Bitwise operators on the binary digits of natural numbers. */
  function AndNat(a: nat, b: nat): nat
  {
    if a == 0 || b == 0 then 0
    else 2 * AndNat(a / 2, b / 2) + (if a % 2 == 1 && b % 2 == 1 then 1 else 0)
  }

  function OrNat(a: nat, b: nat): nat
  {
    if a == 0 then b
    else if b == 0 then a
    else 2 * OrNat(a / 2, b / 2) + (if a % 2 == 1 || b % 2 == 1 then 1 else 0)
  }

  function XorNat(a: nat, b: nat): nat
  {
    if a == 0 then b
    else if b == 0 then a
    else 2 * XorNat(a / 2, b / 2) + (if a % 2 != b % 2 then 1 else 0)
  }

  /** JavaScript `a & b`, `a | b`, `a ^ b`: the operands' low 32 bits combined,
      read back as a signed 32-bit value. */
  function And(a: int, b: int): int
  {
    ToInt32(AndNat(a % TwoTo32, b % TwoTo32))
  }

  function Or(a: int, b: int): int
  {
    ToInt32(OrNat(a % TwoTo32, b % TwoTo32))
  }

  function Xor(a: int, b: int): int
  {
    ToInt32(XorNat(a % TwoTo32, b % TwoTo32))
  }

  /** JavaScript `a << n` and `a >> n` (sign-propagating) for a shift count below 32. */
  function ShiftLeft(a: int, n: nat): int
    requires n < 32
  {
    ToInt32(a * Pow2(n))
  }

  function ShiftRight(a: int, n: nat): int
    requires n < 32
  {
    ToInt32(a) / Pow2(n)
  }

  // ---------------------------------------------------------------------
  // Arithmetic helpers

  lemma MulAtLeast(d: int, k: int)
    requires d > 0 && k >= 1
    ensures d * k >= d
  {}

  /** Euclidean division is determined by its defining equation. */
  lemma DivModUnique(a: int, d: int, q: int, r: int)
    requires d > 0 && 0 <= r < d && a == d * q + r
    ensures a / d == q && a % d == r
  {
    var q', r' := a / d, a % d;
    if q' < q {
      assert d * q == d * q' + d * (q - q');
      MulAtLeast(d, q - q');
    } else if q' > q {
      assert d * q' == d * q + d * (q' - q);
      MulAtLeast(d, q' - q);
    }
  }

  /** Dividing by 2P is halving and then dividing by P. */
  lemma Halve(a: nat, p: nat)
    requires p > 0
    ensures a / (2 * p) == (a / 2) / p
    ensures a % (2 * p) == 2 * ((a / 2) % p) + a % 2
  {
    var q, r := (a / 2) / p, (a / 2) % p;
    assert a / 2 == p * q + r;
    assert a == (2 * p) * q + (2 * r + a % 2);
    DivModUnique(a, 2 * p, q, 2 * r + a % 2);
  }

  lemma {:induction false} Pow2Add(j: nat, k: nat)
    ensures Pow2(j + k) == Pow2(j) * Pow2(k)
  {
    if j > 0 {
      Pow2Add(j - 1, k);
      assert Pow2(j + k) == 2 * Pow2(j - 1 + k);
    }
  }

  lemma Pow2Is32()
    ensures Pow2(32) == TwoTo32
  {
    assert Pow2(8) == 0x100;
    Pow2Add(8, 8);
    Pow2Add(16, 16);
  }

  /** Reducing modulo a multiple of m first does not change the remainder modulo m. */
  lemma ModOfMultiple(a: int, m: int, n: int)
    requires m > 0 && n > 0
    ensures (a % (m * n)) % m == a % m
  {
    var u := a % (m * n);
    var big := a / (m * n);
    assert a == m * (n * big) + u;
    assert u == m * (u / m) + u % m;
    assert a == m * (n * big + u / m) + u % m;
    DivModUnique(a, m, n * big + u / m, u % m);
  }

  // ---------------------------------------------------------------------
  // What the operators compute

  /** The bitwise operators never produce a bit above the highest bit of their operands. */
  lemma {:induction false} BitwiseBelow(a: nat, b: nat, k: nat)
    requires a < Pow2(k) && b < Pow2(k)
    ensures AndNat(a, b) < Pow2(k) && OrNat(a, b) < Pow2(k) && XorNat(a, b) < Pow2(k)
  {
    if k > 0 && a != 0 && b != 0 {
      BitwiseBelow(a / 2, b / 2, k - 1);
    }
  }

  /** OR-ing a value below 2^k into a multiple of 2^k is addition. */
  lemma {:induction false} OrShifted(a: nat, b: nat, k: nat)
    requires b < Pow2(k)
    ensures OrNat(a * Pow2(k), b) == a * Pow2(k) + b
  {
    if k > 0 && a != 0 && b != 0 {
      var p := Pow2(k - 1);
      assert a * Pow2(k) == 2 * (a * p);
      assert (a * Pow2(k)) / 2 == a * p && (a * Pow2(k)) % 2 == 0;
      OrShifted(a, b / 2, k - 1);
    }
  }

  /** AND with 2^k - 1 keeps the k low bits: the remainder modulo 2^k. */
  lemma {:induction false} AndLowBits(a: nat, k: nat)
    ensures AndNat(a, Pow2(k) - 1) == a % Pow2(k)
  {
    if k == 0 {
      assert AndNat(a, 0) == 0;
    } else if a == 0 {
      assert AndNat(0, Pow2(k) - 1) == 0;
    } else {
      var p := Pow2(k - 1);
      var b := Pow2(k) - 1;
      assert b == 2 * (p - 1) + 1;
      assert b / 2 == p - 1 && b % 2 == 1;
      assert AndNat(a, b) == 2 * AndNat(a / 2, p - 1) + a % 2;
      AndLowBits(a / 2, k - 1);
      Halve(a, p);
    }
  }

  /** AND with 2^k isolates bit k. */
  lemma {:induction false} AndSingleBit(a: nat, k: nat)
    ensures AndNat(a, Pow2(k)) == Pow2(k) * ((a / Pow2(k)) % 2)
  {
    if k == 0 {
      assert AndNat(a, 1) == 2 * AndNat(a / 2, 0) + a % 2;
    } else if a != 0 {
      var p := Pow2(k - 1);
      var b := Pow2(k);
      assert b == 2 * p;
      assert b / 2 == p && b % 2 == 0;
      assert AndNat(a, b) == 2 * AndNat(a / 2, p);
      AndSingleBit(a / 2, k - 1);
      Halve(a, p);
      var bit := ((a / 2) / p) % 2;
      assert (a / b) % 2 == bit;
      assert AndNat(a / 2, p) == p * bit;
      assert 2 * (p * bit) == b * bit;
    }
  }

  lemma {:induction false} Pow2Monotone(j: nat, k: nat)
    requires j <= k
    ensures Pow2(j) <= Pow2(k)
  {
    if j < k {
      Pow2Monotone(j, k - 1);
    }
  }

  /** 2^k for k below 31 is at most 2^30, and 2^k times 2^(32-k) is 2^32. */
  lemma Pow2Small(k: nat)
    requires k < 31
    ensures 2 * Pow2(k) <= TwoTo31
    ensures Pow2(k) * Pow2(32 - k) == TwoTo32
  {
    Pow2Is32();
    assert Pow2(32) == 2 * Pow2(31);
    Pow2Monotone(k + 1, 31);
    assert 2 * Pow2(k) == Pow2(k + 1);
    Pow2Add(k, 32 - k);
  }

  /** `a & m` for a mask m that fits in 32 bits, before the signed reading. */
  lemma AndWithMask(a: int, m: int)
    requires 0 <= m < TwoTo32
    ensures And(a, m) == ToInt32(AndNat(a % TwoTo32, m))
  {
    assert m % TwoTo32 == m;
  }

  /** `a & (2^k - 1)` is `a` modulo 2^k, for every integer `a`. */
  lemma MaskIsModulo(a: int, k: nat)
    requires k < 31
    ensures And(a, Pow2(k) - 1) == a % Pow2(k)
  {
    var p := Pow2(k);
    Pow2Small(k);
    AndWithMask(a, p - 1);
    AndLowBits(a % TwoTo32, k);
    LowModulus(a, p, Pow2(32 - k));
  }

  /** For a divisor p of 2^32, reducing modulo 2^32 first does not change the remainder modulo p. */
  lemma LowModulus(a: int, p: int, q: int)
    requires p > 0 && q > 0 && p * q == TwoTo32
    ensures (a % TwoTo32) % p == a % p
  {
    ModOfMultiple(a, p, q);
  }

  /** `(a & 2^k) >> k` is bit k of the low 32 bits of `a`: a 0 or a 1. */
  lemma MaskedBit(a: int, k: nat)
    requires k < 31
    ensures ShiftRight(And(a, Pow2(k)), k) == ((a % TwoTo32) / Pow2(k)) % 2
    ensures ShiftRight(And(a, Pow2(k)), k) in {0, 1}
  {
    var p := Pow2(k);
    Pow2Small(k);
    AndWithMask(a, p);
    AndSingleBit(a % TwoTo32, k);
    ScaledBit(p, ((a % TwoTo32) / p) % 2);
  }

  /** A bit scaled by a small power of two reads back as that bit. */
  lemma ScaledBit(p: int, bit: int)
    requires 0 < p && 2 * p <= TwoTo31 && 0 <= bit < 2
    ensures ToInt32(ToInt32(p * bit)) / p == bit
  {
    if bit == 0 {
      assert p * bit == 0;
      DivModUnique(0, p, 0, 0);
    } else {
      assert p * bit == p;
      DivModUnique(p, p, 1, 0);
    }
  }

  /** AND with a mask shifted left by k (p = 2^k) is the AND of the operand
      shifted down (q), shifted back up. */
  lemma {:induction false} AndShifted(a: nat, m: nat, k: nat, p: nat, q: nat)
    requires p == Pow2(k) && q == a / p
    ensures AndNat(a, m * p) == p * AndNat(q, m)
  {
    if k > 0 {
      var p' := Pow2(k - 1);
      NonNegativeQuotient(a / 2, p');
      var q': nat := (a / 2) / p';
      Halve(a, p');
      DoubleProduct(m, p', p);
      AndDouble(a, m * p');
      AndShifted(a / 2, m, k - 1, p', q');
      DoubleProduct(AndNat(q', m), p', p);
    }
  }

  /** AND with an even number: the low bit is 0 and the rest is AND-ed one place down. */
  lemma AndDouble(a: nat, b: nat)
    ensures AndNat(a, 2 * b) == 2 * AndNat(a / 2, b)
  {
    if a != 0 && b != 0 {
      assert (2 * b) / 2 == b && (2 * b) % 2 == 0;
    }
  }

  lemma DoubleProduct(m: int, p: int, b: int)
    requires b == 2 * p
    ensures m * b == 2 * (m * p) && b * m == 2 * (p * m)
  {}

  /** Adding a multiple of m does not change the remainder modulo m. */
  lemma AddMultipleMod(b: int, m: int, r: int, q: int, t: int)
    requires m > 0 && q == m * r
    ensures (q * t + b) % m == b % m
  {
    assert q * t == m * (r * t);
    assert b == m * (b / m) + b % m;
    DivModUnique(q * t + b, m, b / m + r * t, b % m);
  }

  /** Dividing a number written in base p * q by p. */
  lemma QuotientOfSum(a: int, p: int, q: int, n: int, t: int, low: int)
    requires p > 0 && q > 0 && p * q == n && a == n * t + low && 0 <= low
    ensures a / p == q * t + low / p && low / p >= 0
  {
    assert low == p * (low / p) + low % p;
    assert a == p * (q * t + low / p) + low % p;
    DivModUnique(a, p, q * t + low / p, low % p);
  }

  /** Bits k to k + j - 1 of the low 32 bits of `a` are those of `a`. */
  lemma LowWordField(a: int, k: nat, j: nat)
    requires j + k <= 32
    ensures ((a % TwoTo32) / Pow2(k)) % Pow2(j) == (a / Pow2(k)) % Pow2(j)
  {
    var p, q, r, bound := Pow2(k), Pow2(32 - k), Pow2(32 - k - j), Pow2(j);
    var low, t := a % TwoTo32, a / TwoTo32;
    SplitPow2(k, 32 - k, 32);
    SplitPow2(j, 32 - k - j, 32 - k);
    Pow2Is32();
    QuotientOfSum(a, p, q, TwoTo32, t, low);
    AddMultipleMod(low / p, bound, r, q, t);
  }

  lemma SplitPow2(j: nat, k: nat, n: nat)
    requires j + k == n
    ensures Pow2(n) == Pow2(j) * Pow2(k)
  {
    Pow2Add(j, k);
  }

  /** The masked field of a natural number, in place. */
  lemma AndField(a: nat, k: nat, j: nat, p: nat, q: nat, m: nat)
    requires p == Pow2(k) && q == a / p && m == Pow2(j) - 1
    ensures AndNat(a, m * p) == p * (q % Pow2(j))
  {
    AndShifted(a, m, k, p, q);
    AndLowBits(q, j);
  }

  lemma NonNegativeQuotient(x: int, p: int)
    requires 0 <= x && 0 < p
    ensures 0 <= x / p
  {}

  /** The range of a field and of its mask, scaled into place. */
  lemma FieldRange(p: int, bound: int, f: int)
    requires p > 0 && 0 <= f < bound && bound * p <= TwoTo31
    ensures 0 <= p * f < TwoTo31 && 0 <= (bound - 1) * p < TwoTo31
  {
    assert p * f <= p * (bound - 1);
  }

  /** `a & ((2^j - 1) << k)` keeps bits k to k + j - 1 of `a` in place, and
      shifting the result right by k reads them as a number. */
  lemma FieldMask(a: int, k: nat, j: nat)
    requires j + k < 31
    ensures And(a, (Pow2(j) - 1) * Pow2(k)) == Pow2(k) * ((a / Pow2(k)) % Pow2(j))
    ensures ShiftRight(And(a, (Pow2(j) - 1) * Pow2(k)), k) == (a / Pow2(k)) % Pow2(j)
  {
    var p, bound := Pow2(k), Pow2(j);
    var field := (a / p) % bound;
    var low := a % TwoTo32;
    SplitPow2(j, k, j + k);
    Pow2Small(j + k);
    FieldRange(p, bound, field);
    AndWithMask(a, (bound - 1) * p);
    NonNegativeQuotient(low, p);
    AndField(low, k, j, p, low / p, bound - 1);
    LowWordField(a, k, j);
    DivModUnique(p * field, p, field, 0);
  }

  /** On bytes the operators stay bytes, and `a << 8 | b` composes a big-endian word. */
  lemma ByteOperators(a: int, b: int)
    requires 0 <= a < 0x100 && 0 <= b < 0x100
    ensures 0 <= And(a, b) < 0x100 && 0 <= Or(a, b) < 0x100 && 0 <= Xor(a, b) < 0x100
    ensures Or(ShiftLeft(a, 8), b) == a * 0x100 + b
  {
    assert Pow2(8) == 0x100;
    assert a % TwoTo32 == a && b % TwoTo32 == b;
    BitwiseBelow(a, b, 8);
    var hi := a * 0x100;
    assert ShiftLeft(a, 8) == hi;
    assert hi % TwoTo32 == hi;
    OrShifted(a, b, 8);
    assert OrNat(hi, b) == hi + b;
  }

  /** On 0 and 1, `p ^ b` flips `p` exactly when `b` is 1. */
  lemma XorOnBits(p: int, b: int)
    requires p in {0, 1} && b in {0, 1}
    ensures Xor(p, b) == if b == 1 then 1 - p else p
  {}
}
