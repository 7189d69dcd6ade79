/** Vocabulary shared by the model: optional values and Go's 64-bit integer arithmetic. */
module Prelude {

  datatype Option<+T> = None | Some(value: T)

  const TWO_63: int := 0x8000_0000_0000_0000
  const TWO_64: int := 0x1_0000_0000_0000_0000

  /** The value of `x` after it is stored in an `int64`. */
  function Wrap64(x: int): (r: int)
    ensures -TWO_63 <= r < TWO_63
    ensures -TWO_63 <= x < TWO_63 ==> r == x
  {
    var r := x % TWO_64;
    if r >= TWO_63 then r - TWO_64 else r
  }

  /** Go's `/` truncates toward zero. */
  function GoDiv(x: int, y: int): (q: int)
    requires y > 0
  {
    if x >= 0 then x / y else -((-x) / y)
  }

  /** Go's `%` takes the sign of the dividend. */
  function GoRem(x: int, y: int): (r: int)
    requires y > 0
  {
    if x >= 0 then x % y else -((-x) % y)
  }

  function Pow2(n: nat): (r: int)
    ensures r > 0
  {
    if n == 0 then 1 else 2 * Pow2(n - 1)
  }

  function Min(x: int, y: int): (m: int)
    ensures m <= x && m <= y && (m == x || m == y)
  {
    if x < y then x else y
  }

  /** A stored value differs from the original by whole turns of 64 bits. */
  lemma WrapsByTurns(x: int)
    ensures (x - Wrap64(x)) % 0x1_0000_0000_0000_0000 == 0
  {
  }

  /** Truncated division: the remainder is shorter than the divisor and has the dividend's sign. */
  lemma Truncates(x: int, y: int)
    requires y > 0
    ensures x == GoDiv(x, y) * y + GoRem(x, y) && -y < GoRem(x, y) < y
    ensures (x >= 0 ==> GoRem(x, y) >= 0) && (x <= 0 ==> GoRem(x, y) <= 0)
  {
    if x < 0 {
      assert -x == ((-x) / y) * y + (-x) % y;
      assert -(((-x) / y) * y) == (-((-x) / y)) * y;
    }
  }

  /** Quotient and remainder are determined by the division law. */
  lemma DivUnique(n: int, q: int, r: int, k: int)
    requires k >= 1 && n == q * k + r && 0 <= r < k
    ensures n / k == q && n % k == r
  {
    var d := n / k - q;
    assert n % k == r - d * k;
    MulApart(d, k);
  }

  lemma MulApart(d: int, k: int)
    requires k >= 1
    ensures d > 0 ==> d * k >= k
    ensures d < 0 ==> d * k <= -k
  {
  }
}
