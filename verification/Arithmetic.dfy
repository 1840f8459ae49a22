/** Word size and the uniqueness of quotient and remainder. */
module Arithmetic {

  const W32 := 0x1_0000_0000

  /** A number written as a multiple and a rest below the divisor. */
  lemma Remainder(v: int, m: int, q: int, r: int)
    requires m > 0 && v == m * q + r && 0 <= r < m
    ensures v % m == r && v / m == q
  {
    var d := q - v / m;
    assert m * d == v % m - r;
    Multiples(m, d);
  }

  lemma Multiples(m: int, d: int)
    requires m >= 0
    ensures d >= 1 ==> m * d >= m
    ensures d <= -1 ==> m * d <= -m
  {
  }
}
