/** Machine words modelled as naturals: powers of two, the bitwise operators, and
    the facts that tie `u64` masks, shifts and casts to arithmetic modulo 2^n. */
module Words {

  const TWO64 := 0x1_0000_0000_0000_0000

  function Pow2(n: nat): (p: nat)
    ensures p > 0
  {
    if n == 0 then 1 else 2 * Pow2(n - 1)
  }

  /** Number of values a storage location of `size` bytes can hold. */
  function Capacity(size: nat): (c: nat)
    ensures c > 0
  {
    Pow2(8 * size)
  }

  /** Reduction of a mathematical result to a location of `size` bytes. */
  function Wrap(x: int, size: nat): (r: nat)
    ensures r < Capacity(size)
  {
    x % Capacity(size)
  }

  /** Right shift: division by 2^n, rounding down. */
  function ShiftRight(x: int, n: nat): (r: int)
    ensures x >= 0 ==> r >= 0
  {
    DivNonNegative(x, Pow2(n));
    x / Pow2(n)
  }

  function BitAnd(a: nat, b: nat): nat {
    if a == 0 || b == 0 then 0 else 2 * BitAnd(a / 2, b / 2) + (a % 2) * (b % 2)
  }

  function BitOr(a: nat, b: nat): nat {
    if a == 0 then b else if b == 0 then a
    else 2 * BitOr(a / 2, b / 2) + (if a % 2 == 1 || b % 2 == 1 then 1 else 0)
  }

  function BitXor(a: nat, b: nat): nat {
    if a == 0 then b else if b == 0 then a
    else 2 * BitXor(a / 2, b / 2) + (a + b) % 2
  }

  /** Two's-complement reading of a `size`-byte value. */
  function Signed(v: nat, size: nat): int
    requires size > 0
  {
    if v < Pow2(8 * size - 1) then v else v - Capacity(size)
  }

  // The `as i64` and `as u64` casts.
  function AsI64(v: nat): int {
    if v < TWO64 / 2 then v else v - TWO64
  }

  function AsU64(i: int): (r: nat)
    ensures r < TWO64
  {
    i % TWO64
  }

  // ----- powers of two -----

  lemma {:induction false} Pow2Add(a: nat, b: nat)
    ensures Pow2(a + b) == Pow2(a) * Pow2(b)
  {
    if a == 0 {
      assert Pow2(0) * Pow2(b) == Pow2(b);
    } else {
      Pow2Add(a - 1, b);
      calc {
        Pow2(a + b);
        2 * Pow2(a - 1 + b);
        2 * (Pow2(a - 1) * Pow2(b));
        (2 * Pow2(a - 1)) * Pow2(b);
      }
    }
  }

  lemma Pow2Monotone(a: nat, b: nat)
    requires a <= b
    ensures Pow2(a) <= Pow2(b)
    decreases b - a
  {
    if a < b {
      Pow2Monotone(a + 1, b);
    }
  }

  lemma Pow2Double(n: nat, p: nat)
    requires Pow2(n) == p
    ensures Pow2(n + n) == p * p
  {
    Pow2Add(n, n);
  }

  lemma Pow2At64()
    ensures Pow2(64) == TWO64 && Pow2(63) == TWO64 / 2
  {
    assert Pow2(4) == 16;
    Pow2Double(4, 16);
    Pow2Double(8, 256);
    Pow2Double(16, 0x1_0000);
    Pow2Double(32, 0x1_0000_0000);
    assert Pow2(64) == 2 * Pow2(63);
  }

  /** The two parts of a 64-bit word. */
  lemma Pow2Parts(n: nat)
    requires n <= 64
    ensures Pow2(n) * Pow2(64 - n) == TWO64
  {
    Pow2At64();
    Pow2Add(n, 64 - n);
  }

  // ----- division and remainder -----

  lemma MulAtLeast(k: int, m: nat)
    ensures k >= 1 ==> k * m >= m
    ensures k <= -1 ==> k * m + m <= 0
  {
    if k >= 1 {
      assert (k - 1) * m >= 0;
    } else if k <= -1 {
      assert (-k - 1) * m >= 0;
    }
  }

  lemma DivModUnique(x: int, q: int, r: int, m: nat)
    requires 0 <= r < m && x == q * m + r
    ensures x / m == q && x % m == r
  {
    var q', r' := x / m, x % m;
    var d := q - q';
    assert d * m == r' - r by {
      assert d * m == q * m - q' * m;
    }
    MulAtLeast(d, m);
  }

  lemma WrapSmall(x: nat, size: nat)
    requires x < Capacity(size)
    ensures Wrap(x, size) == x
  {
    DivModUnique(x, 0, x, Capacity(size));
  }

  lemma DivNonNegative(x: int, m: nat)
    requires m > 0
    ensures x >= 0 ==> x / m >= 0
  {
    var q, r := x / m, x % m;
    assert x == q * m + r;
    MulAtLeast(q, m);
  }

  /** Reducing modulo a multiple first changes nothing. */
  lemma ModOfMod(x: int, a: nat, b: nat)
    requires a > 0 && b > 0
    ensures a * b > 0
    ensures (x % (a * b)) % b == x % b
  {
    var q, r := x / (a * b), x % (a * b);
    assert x == q * (a * b) + r;
    var q', r' := r / b, r % b;
    assert r == q' * b + r';
    calc {
      x;
      q * (a * b) + q' * b + r';
      (q * a) * b + q' * b + r';
      (q * a + q') * b + r';
    }
    DivModUnique(x, q * a + q', r', b);
  }

  lemma ModTwo64(x: int, k: nat)
    requires k <= 64
    ensures (x % TWO64) % Pow2(k) == x % Pow2(k)
  {
    Pow2At64();
    Pow2Add(64 - k, k);
    ModOfMod(x, Pow2(64 - k), Pow2(k));
  }

  lemma ModShift(x: int, q: int, m: nat)
    requires m > 0
    ensures (x + q * m) % m == x % m
  {
    assert x + q * m == (x / m + q) * m + x % m;
    DivModUnique(x + q * m, x / m + q, x % m, m);
  }

  // ----- bitwise operators -----

  /** Peeling off the low bit of a remainder modulo a power of two. */
  lemma ModPow2Step(v: nat, k: nat)
    requires k > 0
    ensures v % Pow2(k) == 2 * ((v / 2) % Pow2(k - 1)) + v % 2
  {
    var p := Pow2(k - 1);
    var q, h := (v / 2) / p, (v / 2) % p;
    assert v == q * (2 * p) + (2 * h + v % 2) by {
      assert v / 2 == q * p + h;
      assert q * (2 * p) == 2 * (q * p);
    }
    DivModUnique(v, q, 2 * h + v % 2, 2 * p);
  }

  /** Masking with 2^k - 1 is reduction modulo 2^k. */
  lemma {:induction false} MaskIsMod(v: nat, k: nat)
    ensures BitAnd(v, Pow2(k) - 1) == v % Pow2(k)
    decreases k
  {
    if k > 0 {
      var m := Pow2(k) - 1;
      assert m / 2 == Pow2(k - 1) - 1 && m % 2 == 1;
      MaskIsMod(v / 2, k - 1);
      ModPow2Step(v, k);
      if v > 0 {
        assert BitAnd(v, m) == 2 * BitAnd(v / 2, m / 2) + (v % 2) * (m % 2);
      }
    }
  }

  lemma {:induction false} BitAndBound(a: nat, b: nat)
    ensures BitAnd(a, b) <= a
  {
    if a != 0 && b != 0 {
      BitAndBound(a / 2, b / 2);
      assert (a % 2) * (b % 2) <= a % 2;
    }
  }

  lemma {:induction false} BitAndIdempotent(x: nat, m: nat)
    ensures BitAnd(BitAnd(x, m), m) == BitAnd(x, m)
  {
    if x != 0 && m != 0 {
      BitAndIdempotent(x / 2, m / 2);
      var bit := (x % 2) * (m % 2);
      assert bit == 0 || bit == 1;
      var y := BitAnd(x, m);
      assert y / 2 == BitAnd(x / 2, m / 2) && y % 2 == bit;
      if y == 0 {
        assert BitAnd(y, m) == 0;
      } else {
        assert (y % 2) * (m % 2) == bit;
      }
    }
  }

  lemma {:induction false} BitOrXorBound(a: nat, b: nat, k: nat)
    requires a < Pow2(k) && b < Pow2(k)
    ensures BitOr(a, b) < Pow2(k) && BitXor(a, b) < Pow2(k)
    decreases k
  {
    if a != 0 && b != 0 {
      BitOrXorBound(a / 2, b / 2, k - 1);
    }
  }

  // ----- what the bitwise operators do to each bit -----

  /** Bit `i` of `x`. */
  function Bit(x: nat, i: nat): (b: nat)
    ensures b < 2
  {
    DivNonNegative(x, Pow2(i));
    x / Pow2(i) % 2
  }

  lemma DivDiv(x: nat, m: nat)
    requires m > 0
    ensures x / (2 * m) == (x / 2) / m
  {
    var q, r := (x / 2) / m, (x / 2) % m;
    assert x / 2 == q * m + r;
    assert x == q * (2 * m) + (2 * r + x % 2) by {
      assert q * (2 * m) == 2 * (q * m);
    }
    DivModUnique(x, q, 2 * r + x % 2, 2 * m);
  }

  lemma LowBit(x: nat)
    ensures Bit(x, 0) == x % 2
  {
    assert Pow2(0) == 1;
  }

  lemma HigherBit(x: nat, i: nat)
    requires i > 0
    ensures Bit(x, i) == Bit(x / 2, i - 1)
  {
    DivDiv(x, Pow2(i - 1));
  }

  lemma Halves(q: nat, bit: nat)
    requires bit < 2
    ensures (2 * q + bit) / 2 == q && (2 * q + bit) % 2 == bit
  {
  }

  lemma BitAndHalves(a: nat, b: nat)
    ensures BitAnd(a, b) % 2 == (if a % 2 == 1 && b % 2 == 1 then 1 else 0)
    ensures BitAnd(a, b) / 2 == BitAnd(a / 2, b / 2)
  {
    if a != 0 && b != 0 {
      var bit := (a % 2) * (b % 2);
      assert bit == if a % 2 == 1 && b % 2 == 1 then 1 else 0;
      Halves(BitAnd(a / 2, b / 2), bit);
    }
  }

  lemma BitOrHalves(a: nat, b: nat)
    ensures BitOr(a, b) % 2 == (if a % 2 == 1 || b % 2 == 1 then 1 else 0)
    ensures BitOr(a, b) / 2 == BitOr(a / 2, b / 2)
  {
    if a != 0 && b != 0 {
      Halves(BitOr(a / 2, b / 2), if a % 2 == 1 || b % 2 == 1 then 1 else 0);
    }
  }

  lemma BitXorHalves(a: nat, b: nat)
    ensures BitXor(a, b) % 2 == (if a % 2 == b % 2 then 0 else 1)
    ensures BitXor(a, b) / 2 == BitXor(a / 2, b / 2)
  {
    if a != 0 && b != 0 {
      var bit := (a + b) % 2;
      assert bit == if a % 2 == b % 2 then 0 else 1;
      Halves(BitXor(a / 2, b / 2), bit);
    }
  }

  /** Bit by bit: both, at least one, exactly one. */
  lemma {:induction false} BitwiseBits(a: nat, b: nat, i: nat)
    ensures Bit(BitAnd(a, b), i) == (if Bit(a, i) == 1 && Bit(b, i) == 1 then 1 else 0)
    ensures Bit(BitOr(a, b), i) == (if Bit(a, i) == 1 || Bit(b, i) == 1 then 1 else 0)
    ensures Bit(BitXor(a, b), i) == (if Bit(a, i) == Bit(b, i) then 0 else 1)
    decreases i
  {
    BitAndHalves(a, b);
    BitOrHalves(a, b);
    BitXorHalves(a, b);
    if i == 0 {
      LowBit(a);
      LowBit(b);
      LowBit(BitAnd(a, b));
      LowBit(BitOr(a, b));
      LowBit(BitXor(a, b));
    } else {
      HigherBit(a, i);
      HigherBit(b, i);
      HigherBit(BitAnd(a, b), i);
      HigherBit(BitOr(a, b), i);
      HigherBit(BitXor(a, b), i);
      BitwiseBits(a / 2, b / 2, i - 1);
    }
  }

  /** A number is known by its bits. */
  lemma {:induction false} SameBits(x: nat, y: nat)
    requires forall i: nat :: Bit(x, i) == Bit(y, i)
    ensures x == y
  {
    LowBit(x);
    LowBit(y);
    assert Bit(x, 0) == Bit(y, 0);
    if x > 0 || y > 0 {
      forall i: nat ensures Bit(x / 2, i) == Bit(y / 2, i) {
        HigherBit(x, i + 1);
        HigherBit(y, i + 1);
        assert Bit(x, i + 1) == Bit(y, i + 1);
      }
      SameBits(x / 2, y / 2);
    }
  }
}
