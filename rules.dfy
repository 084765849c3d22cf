/** The two numeric rules every population check applies: census data is
    decennial, and two independent counts may differ by one. */
module Rules {

  /** The census decade of a year: `floor(year / 10) * 10`. */
  function Decade(year: int): (d: int)
    ensures d % 10 == 0 && d <= year < d + 10
  {
    (year / 10) * 10
  }

  /** `abs(a - b)`. */
  function Distance(a: int, b: int): (d: nat)
    ensures a + d == b || b + d == a
  {
    if a >= b then a - b else b - a
  }

  /** Two counts agree when they differ by at most one. */
  predicate WithinTolerance(a: int, b: int) {
    Distance(a, b) <= 1
  }
}
