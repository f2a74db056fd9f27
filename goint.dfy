/**
 * Go's fixed-width integers as the interpreter uses them: `int64` arithmetic
 * that wraps modulo 2^64, the truncating quotient of Go's `/`, and the
 * `uint64(x)` reinterpretation used by integer hash keys.
 */
module GoInt {

  const TWO_63: int := 0x8000_0000_0000_0000
  const TWO_64: int := 0x1_0000_0000_0000_0000
  const MIN_INT64: int := -0x8000_0000_0000_0000
  const MAX_INT64: int := 0x7FFF_FFFF_FFFF_FFFF

  type Int64 = x: int | -0x8000_0000_0000_0000 <= x < 0x8000_0000_0000_0000
  type Uint64 = x: int | 0 <= x < 0x1_0000_0000_0000_0000

  /** Two's-complement wrap-around of an unbounded integer to 64 bits. */
  function Wrap(x: int): (r: Int64)
    ensures (r - x) % TWO_64 == 0
    ensures MIN_INT64 <= x <= MAX_INT64 ==> r == x
  {
    var m := x % TWO_64;
    if m >= TWO_63 then m - TWO_64 else m
  }

  /** Go's `+` on int64: the true sum modulo 2^64, and the true sum whenever it fits. */
  function Add(a: Int64, b: Int64): (r: Int64)
    ensures (r - (a + b)) % TWO_64 == 0
    ensures MIN_INT64 <= a + b <= MAX_INT64 ==> r == a + b
  {
    Wrap(a + b)
  }

  function Sub(a: Int64, b: Int64): (r: Int64)
    ensures (r - (a - b)) % TWO_64 == 0
    ensures MIN_INT64 <= a - b <= MAX_INT64 ==> r == a - b
  {
    Wrap(a - b)
  }

  function Mul(a: Int64, b: Int64): (r: Int64)
    ensures (r - a * b) % TWO_64 == 0
    ensures MIN_INT64 <= a * b <= MAX_INT64 ==> r == a * b
  {
    Wrap(a * b)
  }

  /** Unary minus: exact except for MinInt64, which is its own negation. */
  function Neg(a: Int64): (r: Int64)
    ensures a != MIN_INT64 ==> r == -a
    ensures a == MIN_INT64 ==> r == MIN_INT64
  {
    Wrap(-(a as int))
  }

  function Abs(x: int): nat { if x < 0 then -x else x }

  /** The quotient rounded toward zero, as Go, C and Java compute it. */
  function TruncDiv(a: int, b: int): (q: int)
    requires b != 0
    ensures Abs(q) == Abs(a) / Abs(b)
    ensures q == 0 || (q < 0 <==> (a < 0) != (b < 0))
  {
    var n, d := Abs(a), Abs(b);
    var q := n / d;
    DivBounds(n, d);
    assert 0 <= q;
    if (a < 0) == (b < 0) then q else -q
  }

  /** Natural division rounds down: the divisor fits q times and not q + 1 times. */
  lemma DivBounds(n: nat, d: nat)
    requires d > 0
    ensures (n / d) * d <= n < (n / d + 1) * d
  {
    var q := n / d;
    assert n == q * d + n % d;
    assert (q + 1) * d == q * d + d;
  }

  /** Go's `/` on int64: truncating, and wrapping for MinInt64 / -1. */
  function Quo(a: Int64, b: Int64): (r: Int64)
    requires b != 0
    ensures (r - TruncDiv(a, b)) % TWO_64 == 0
  {
    Wrap(TruncDiv(a, b))
  }

  /** `uint64(x)` for an int64 x: the same 64 bits read as unsigned. */
  function AsUint64(x: Int64): (u: Uint64)
    ensures (u - x) % TWO_64 == 0
  {
    if x < 0 then x + TWO_64 else x
  }

  /** Wrapped arithmetic is exact whenever the true result fits in int64. */
  lemma AddExact(a: Int64, b: Int64)
    requires MIN_INT64 <= a + b <= MAX_INT64
    ensures Add(a, b) == a + b
  {
  }

  lemma MaxPlusOneWraps()
    ensures Add(MAX_INT64, 1) == MIN_INT64
  {
  }

  /**
   * The truncated quotient leaves a remainder smaller than the divisor whose
   * sign follows the dividend, which is what tells it apart from Dafny's
   * Euclidean division.
   */
  lemma TruncDivRemainder(a: int, b: int)
    requires b != 0
    ensures var r := a - TruncDiv(a, b) * b;
            Abs(r) < Abs(b) && (r == 0 || (r < 0 <==> a < 0))
  {
    var n, d := Abs(a), Abs(b);
    var q := n / d;
    var m := n % d;
    assert n == q * d + m && 0 <= m < d;
    var t := TruncDiv(a, b);
    if a < 0 && b < 0 {
      assert t == q;
      assert a - q * b == -(n - q * d);
    } else if a < 0 {
      assert t == -q;
      assert a - (-q) * b == -(n - q * d);
    } else if b < 0 {
      assert t == -q;
      assert a - (-q) * b == n - q * d;
    } else {
      assert t == q;
      assert a - q * b == n - q * d;
    }
  }

  /** Apart from MinInt64 / -1, the truncated quotient of two int64 values fits in int64. */
  lemma QuoExact(a: Int64, b: Int64)
    requires b != 0 && !(a == MIN_INT64 && b == -1)
    ensures Quo(a, b) == TruncDiv(a, b)
  {
    TruncDivFits(a, b);
  }

  lemma TruncDivFits(a: Int64, b: Int64)
    requires b != 0 && !(a == MIN_INT64 && b == -1)
    ensures MIN_INT64 <= TruncDiv(a, b) <= MAX_INT64
  {
    var n, d := Abs(a), Abs(b);
    if d == 1 {
      assert n / d == n;
    } else {
      DivAtMostHalf(n, d);
    }
  }

  lemma DivAtMostHalf(n: nat, d: nat)
    requires d >= 2
    ensures 2 * (n / d) <= n
  {
    var q := n / d;
    assert n == q * d + n % d;
    assert q * d == 2 * q + q * (d - 2);
    assert q * (d - 2) >= 0;
  }

  lemma MinDivMinusOneWraps()
    ensures Quo(MIN_INT64, -1) == MIN_INT64
  {
  }

  lemma QuoExamples()
    ensures Quo(-7, 2) == -3 && Quo(7, -2) == -3 && Quo(-7, -2) == 3 && Quo(7, 2) == 3
  {
  }

  /** Distinct int64 values keep distinct unsigned readings. */
  lemma AsUint64Injective(x: Int64, y: Int64)
    requires AsUint64(x) == AsUint64(y)
    ensures x == y
  {
  }
}
