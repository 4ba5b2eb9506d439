/** Java's fixed-width integers, written out over Dafny's unbounded `int`. */
module Numbers {

  const LONG_MIN: int := -0x8000_0000_0000_0000
  const LONG_MAX: int := 0x7FFF_FFFF_FFFF_FFFF
  const INT_MIN: int := -0x8000_0000
  const INT_MAX: int := 0x7FFF_FFFF

  /** A Java `long`. */
  type Long = x: int | LONG_MIN <= x <= LONG_MAX

  /** A Java `int`. */
  type Int = x: int | INT_MIN <= x <= INT_MAX

  /** Java `int` arithmetic: x truncated to 32 bits and read back as a signed value. */
  function WrapInt(x: int): (r: Int)
    ensures (r - x) % 0x1_0000_0000 == 0
    ensures INT_MIN <= x <= INT_MAX ==> r == x
  {
    var u := x % 0x1_0000_0000;
    if u <= INT_MAX then u else u - 0x1_0000_0000
  }

  /** Java `long` arithmetic: x truncated to 64 bits and read back as a signed value. */
  function WrapLong(x: int): (r: Long)
    ensures (r - x) % 0x1_0000_0000_0000_0000 == 0
    ensures LONG_MIN <= x <= LONG_MAX ==> r == x
  {
    var u := x % 0x1_0000_0000_0000_0000;
    if u <= LONG_MAX then u else u - 0x1_0000_0000_0000_0000
  }

  /** The 64 bits of a `long`, read as an unsigned number (two's complement). */
  function Unsigned(x: Long): (u: nat)
    ensures u < 0x1_0000_0000_0000_0000
    ensures 0 <= x ==> u == x
    ensures x < 0 ==> u == x + 0x1_0000_0000_0000_0000
  {
    x % 0x1_0000_0000_0000_0000
  }

  function Pow2(k: nat): (r: nat)
    ensures r >= 1
  {
    if k == 0 then 1 else 2 * Pow2(k - 1)
  }

  /** Bitwise OR of two non-negative numbers, one bit at a time from the least significant end. */
  function BitOr(a: nat, b: nat): nat
    decreases a + b
  {
    if a == 0 then b
    else if b == 0 then a
    else 2 * BitOr(a / 2, b / 2) + (if a % 2 == 1 || b % 2 == 1 then 1 else 0)
  }

  /** OR with a number whose low k bits are clear adds: no bit is set in both operands. */
  lemma {:induction false} BitOrOfDisjoint(a: nat, b: nat, k: nat)
    requires b < Pow2(k)
    ensures BitOr(a * Pow2(k), b) == a * Pow2(k) + b
  {
    var hi := a * Pow2(k);
    if k == 0 {
      assert b == 0 && hi == a;
    } else if a != 0 && b != 0 {
      var half := a * Pow2(k - 1);
      assert hi == 2 * half;
      assert hi / 2 == half && hi % 2 == 0;
      assert b / 2 < Pow2(k - 1);
      BitOrOfDisjoint(a, b / 2, k - 1);
      assert BitOr(hi, b) == 2 * (half + b / 2) + b % 2;
    }
  }

  /** Bitwise AND of two non-negative numbers, one bit at a time from the least significant end. */
  function BitAnd(a: nat, b: nat): nat
    decreases a + b
  {
    if a == 0 || b == 0 then 0
    else 2 * BitAnd(a / 2, b / 2) + (if a % 2 == 1 && b % 2 == 1 then 1 else 0)
  }

  lemma {:induction false} Pow2Add(a: nat, b: nat)
    ensures Pow2(a + b) == Pow2(a) * Pow2(b)
  {
    if a > 0 {
      Pow2Add(a - 1, b);
      assert Pow2(a + b) == 2 * Pow2(a - 1 + b);
    }
  }

  lemma Pow2Of32()
    ensures Pow2(32) == 0x1_0000_0000
  {
    assert Pow2(2) == 4;
    Pow2Add(2, 2);
    Pow2Add(4, 4);
    Pow2Add(8, 8);
    Pow2Add(16, 16);
  }

  /** AND with k low one-bits keeps the k low bits: the remainder modulo 2^k. */
  lemma {:induction false} BitAndMask(a: nat, k: nat)
    ensures BitAnd(a, Pow2(k) - 1) == a % Pow2(k)
  {
    if k == 0 {
    } else if a != 0 {
      var p := Pow2(k - 1);
      assert Pow2(k) - 1 == 2 * (p - 1) + 1;
      assert (Pow2(k) - 1) / 2 == p - 1 && (Pow2(k) - 1) % 2 == 1;
      BitAndMask(a / 2, k - 1);
      assert BitAnd(a, Pow2(k) - 1) == 2 * ((a / 2) % p) + a % 2;
      HalfRemainder(a, p);
    }
  }

  lemma HalfRemainder(a: nat, p: nat)
    requires p >= 1
    ensures 2 * ((a / 2) % p) + a % 2 == a % (2 * p)
  {
    var q := (a / 2) / p;
    var r := (a / 2) % p;
    assert a / 2 == q * p + r;
    assert a == q * (2 * p) + (2 * r + a % 2);
    assert 0 <= 2 * r + a % 2 < 2 * p;
    ModOfDecomposition(a, q, 2 * r + a % 2, 2 * p);
  }

  lemma ModOfDecomposition(a: int, q: int, r: int, n: int)
    requires n > 0 && 0 <= r < n && a == q * n + r
    ensures a % n == r
  {
    var q' := a / n;
    var r' := a % n;
    var d := q - q';
    assert d * n == q * n - q' * n;
    assert d * n == r' - r;
    if d >= 1 {
      AtLeastOneTimes(d, n);
    } else if d <= -1 {
      AtLeastOneTimes(-d, n);
    }
  }

  lemma AtLeastOneTimes(d: int, n: int)
    requires d >= 1 && n > 0
    ensures d * n >= n
  {
    assert d * n == (d - 1) * n + n;
  }
}
