/**
 * Money. Amounts are exact reals counted in kopecks; a `Decimal(10,2)` column
 * keeps a whole number of kopecks, rounding ties away from zero as PostgreSQL
 * `numeric` does (PostgreSQL manual, section 8.1.2).
 */
module Money {

  function Stored(x: real): int {
    if x >= 0.0 then (x + 0.5).Floor else -((0.5 - x).Floor)
  }

  lemma StoredIsNearest(x: real)
    ensures -0.5 <= Stored(x) as real - x <= 0.5
  {
  }

  lemma StoredMonotone(x: real, y: real)
    requires x <= y
    ensures Stored(x) <= Stored(y)
  {
  }

  lemma StoredWhole(n: int)
    ensures Stored(n as real) == n
  {
  }

  /** Half a kopeck is rounded up, and what is owed is rounded as what is due. */
  lemma StoredTies(n: nat, x: real)
    ensures Stored(n as real + 0.5) == n + 1
    ensures Stored(-x) == -Stored(x)
  {
  }

  /** `part` percent of `x`. */
  function Percent(x: real, part: real): real {
    x * part / 100.0
  }

  lemma ProductNonNegative(a: real, b: real)
    requires a >= 0.0 && b >= 0.0
    ensures a * b >= 0.0
  {
  }

  lemma PercentBounds(x: real, part: real)
    requires x >= 0.0 && 0.0 <= part <= 100.0
    ensures 0.0 <= Percent(x, part) <= x
  {
    ProductNonNegative(x, part);
    ProductNonNegative(x, 100.0 - part);
    assert x * (100.0 - part) == x * 100.0 - x * part;
  }
}
