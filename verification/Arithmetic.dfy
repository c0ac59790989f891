/**
 Euclidean division by a positive divisor is unique; the calendar, the weekday shift, the
 traffic counters and the prefix lengths all lean on it.
 */
module Arithmetic {

  lemma DivModUnique(x: int, m: int, q: int, r: int)
    requires m > 0 && 0 <= r < m && x == m * q + r
    ensures x / m == q && x % m == r
  {
    var d := x / m - q;
    assert m * d == r - x % m;
    assert d >= 1 ==> m * d >= m;
    assert d <= -1 ==> m * d <= 0 - m;
  }
}
