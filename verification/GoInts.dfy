/** Go's 64-bit machine integers. */
module GoInts {
  import opened ModArith

  const TWO_63: int := 0x8000_0000_0000_0000
  const TWO_64: int := 0x1_0000_0000_0000_0000

  type Int64 = x: int | -TWO_63 <= x < TWO_63
  type UInt64 = x: int | 0 <= x < TWO_64

  /** The int64 with the same low 64 bits as x. */
  function Wrap64(x: int): (r: Int64)
    ensures -TWO_63 <= x < TWO_63 ==> r == x
  {
    (x + TWO_63) % TWO_64 - TWO_63
  }

  /** The uint64 with the same low 64 bits as x. */
  function WrapU64(x: int): (r: UInt64)
    ensures 0 <= x < TWO_64 ==> r == x
  {
    x % TWO_64
  }

  /** Go's int64 division: it truncates toward zero, and wraps on -2^63 / -1. */
  function Div64(x: Int64, y: Int64): Int64
    requires y != 0
  {
    var absX: int, absY: int := if x < 0 then 0 - x else x, if y < 0 then 0 - y else y;
    var q := absX / absY;
    Wrap64(if (x < 0) == (y < 0) then q else -q)
  }

  lemma Div64Positive(x: int, y: int)
    requires 0 <= x < TWO_63 && 0 < y < TWO_63
    ensures Div64(x, y) == x / y >= 0
  {
    QuotientBounds(x / y, x % y, y);
  }

  function Abs(x: int): nat {
    if x < 0 then -x else x
  }

  lemma QuotientFits(x: int, y: int)
    requires x >= 0 && y > 0
    ensures 0 <= x / y <= x && (y > 1 && x > 0 ==> x / y < x)
    ensures x / y * y <= x < (x / y + 1) * y
  {
    QuotientBounds(x / y, x % y, y);
    if y > 1 && x / y == x {
      assert x * y >= 2 * x;
    }
  }

  /** Division truncates toward zero, with the one quotient that does not fit as an exception. */
  lemma {:induction false} Div64Truncates(x: Int64, y: Int64)
    requires y != 0
    ensures var q: int := Div64(x, y);
      if x == -TWO_63 && y == -1 then q == -TWO_63
      else
        Abs(q) * Abs(y) <= Abs(x) < (Abs(q) + 1) * Abs(y)
        && (q > 0 ==> (x < 0) == (y < 0)) && (q < 0 ==> (x < 0) != (y < 0))
  {
    QuotientFits(Abs(x), Abs(y));
  }

  /** Unsigned subtraction of wrapped counters gives the wrapped difference. */
  lemma WrappedDifference(x: int, y: int)
    ensures WrapU64(WrapU64(x) - WrapU64(y)) == WrapU64(x - y)
  {
    ModAddMultiple(x - y, TWO_64, y / TWO_64 - x / TWO_64);
    assert x % TWO_64 - y % TWO_64 == x - y + (y / TWO_64 - x / TWO_64) * TWO_64;
  }
}
