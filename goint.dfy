/** Go's 64-bit signed integers, as far as the downloader uses them. */
module GoInt {

  const MaxInt64: int := 0x7FFF_FFFF_FFFF_FFFF
  const MinInt64: int := -0x8000_0000_0000_0000
  const MaxUint64: int := 0xFFFF_FFFF_FFFF_FFFF
  const TwoTo64: int := 0x1_0000_0000_0000_0000

  /** The values of Go's `int64`. */
  type Int64 = x: int | MinInt64 <= x <= MaxInt64

  /**
   * Go's integer division `a / b` for a positive divisor: the quotient is
   * truncated toward zero (Dafny's own `/` rounds toward minus infinity).
   */
  function Quo(a: int, b: int): (q: int)
    requires b > 0
    ensures a >= 0 ==> 0 <= q * b <= a < q * b + b
    ensures a < 0 ==> q * b - b < a <= q * b <= 0
    ensures a >= 0 ==> 0 <= q <= a
    ensures a < 0 ==> a <= q <= 0
  {
    var m := if a >= 0 then a else -a;
    DivBounds(m, b);
    if a >= 0 then m / b else -(m / b)
  }

  lemma DivBounds(m: int, b: int)
    requires m >= 0 && b > 0
    ensures 0 <= m / b <= m
    ensures 0 <= (m / b) * b <= m < (m / b) * b + b
  {
    var q, r := m / b, m % b;
    assert m == q * b + r && 0 <= r < b;
    assert q >= 0;
    MulAtLeast(q, b);
  }

  lemma MulAtLeast(q: int, b: int)
    requires q >= 0 && b >= 1
    ensures q * b >= q
  {
    assert q * b == q * (b - 1) + q;
  }

  /** The two's complement wrap-around Go applies when an `int64` operation overflows. */
  function Wrap64(x: int): (r: Int64)
    ensures (r - x) % TwoTo64 == 0
    ensures MinInt64 <= x <= MaxInt64 ==> r == x
  {
    (x - MinInt64) % TwoTo64 + MinInt64
  }
}
