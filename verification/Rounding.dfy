/** Exact integer division facts and the round-half-to-even rule that Python's
    `round` and `:.6f` formatting follow, on exact rationals. */
module Rounding {

  type Pos = n: int | 0 < n witness 1

  function Max(a: int, b: int): int { if a < b then b else a }
  function Min(a: int, b: int): int { if a < b then a else b }

  lemma MulAtLeast(x: int, d: int)
    requires x >= 1 && d > 0
    ensures x * d >= d
  {
  }

  lemma QuotientUnique(d: int, q: int, r: int, q': int, r': int)
    requires d > 0 && 0 <= r < d && 0 <= r' < d && q * d + r == q' * d + r'
    ensures q == q' && r == r'
  {
    if q < q' {
      MulAtLeast(q' - q, d);
    } else if q' < q {
      MulAtLeast(q - q', d);
    }
  }

  lemma DivUnique(n: int, d: int, q: int, r: int)
    requires d > 0 && 0 <= r < d && n == q * d + r
    ensures n / d == q && n % d == r
  {
    QuotientUnique(d, q, r, n / d, n % d);
  }

  lemma DivMonotone(m: int, n: int, d: int)
    requires d > 0 && m <= n
    ensures m / d <= n / d
  {
    if m / d > n / d {
      MulAtLeast(m / d - n / d, d);
    }
  }

  /** Nearest integer, ties to the even neighbour. */
  function RoundReal(x: real): int {
    var f := x.Floor;
    var r := x - f as real;
    if r < 0.5 || (r == 0.5 && f % 2 == 0) then f else f + 1
  }

  lemma RoundRealMonotone(x: real, y: real)
    requires x <= y
    ensures RoundReal(x) <= RoundReal(y)
  {
  }

  /** q is nearest to x, and even when another integer is equally near. */
  predicate NearestReal(q: int, x: real) {
    var gap := if q as real < x then x - q as real else q as real - x;
    gap < 0.5 || (gap == 0.5 && q % 2 == 0)
  }

  lemma RoundRealNearest(x: real, q: int)
    ensures q == RoundReal(x) <==> NearestReal(q, x)
  {
    var f := x.Floor;
    if q < f {
      assert q as real + 1.0 <= f as real;
    } else if q > f + 1 {
      assert q as real >= f as real + 2.0;
    }
  }

  /** n/d rounded to the nearest integer. */
  function HalfEven(n: int, d: int): int
    requires d > 0
  {
    RoundReal(n as real / d as real)
  }

  /** The same by integer division. */
  lemma HalfEvenByDivision(n: int, d: int)
    requires d > 0
    ensures var q, r := n / d, n % d;
            HalfEven(n, d) == if 2 * r < d || (2 * r == d && q % 2 == 0) then q else q + 1
  {
    var q, r := n / d, n % d;
    var x, part := n as real / d as real, r as real / d as real;
    assert n as real == q as real * d as real + r as real;
    assert x == q as real + part;
    Fraction(r, d);
    assert x.Floor == q;
  }

  lemma Fraction(r: int, d: int)
    requires 0 <= r < d
    ensures 0.0 <= r as real / d as real < 1.0
    ensures r as real / d as real < 0.5 <==> 2 * r < d
    ensures r as real / d as real == 0.5 <==> 2 * r == d
  {
    var x, y := r as real / d as real, d as real;
    assert x * y == r as real;
    SignOfProduct(x - 0.5, y);
    assert (x - 0.5) * y == x * y - 0.5 * y;
  }

  lemma SignOfProduct(x: real, y: real)
    requires y > 0.0
    ensures x * y < 0.0 <==> x < 0.0
    ensures x * y == 0.0 <==> x == 0.0
  {
  }

  function Distance(q: int, n: int, d: int): int {
    if q * d < n then n - q * d else q * d - n
  }

  /** q is nearest to n/d, and even when another integer is equally near. */
  predicate Nearest(q: int, n: int, d: int) {
    2 * Distance(q, n, d) < d || (2 * Distance(q, n, d) == d && q % 2 == 0)
  }

  /** The rounding is the one integer that is nearest to n/d. */
  lemma HalfEvenNearest(n: int, d: int, q: int)
    requires d > 0
    ensures q == HalfEven(n, d) <==> Nearest(q, n, d)
  {
    hide Distance, HalfEven;
    HalfEvenByDivision(n, d);
    DistanceFromFloor(n, d, q);
  }

  lemma DistanceFromFloor(n: int, d: int, q: int)
    requires d > 0
    ensures q == n / d ==> Distance(q, n, d) == n % d
    ensures q == n / d + 1 ==> Distance(q, n, d) == d - n % d
    ensures q < n / d || q > n / d + 1 ==> Distance(q, n, d) >= d
  {
    var f, r := n / d, n % d;
    if q < f {
      MulAtLeast(f - q, d);
      assert f * d == q * d + (f - q) * d;
    } else if q > f {
      MulAtLeast(q - f, d);
      assert q * d == f * d + (q - f) * d;
      if q > f + 1 {
        MulAtLeast(q - f - 1, d);
        assert (q - f) * d == (q - f - 1) * d + d;
      }
    }
  }

  lemma HalfEvenMonotone(m: int, n: int, d: int)
    requires d > 0 && m <= n
    ensures HalfEven(m, d) <= HalfEven(n, d)
  {
    hide RoundReal;
    assert (n - m) as real / d as real >= 0.0;
    RoundRealMonotone(m as real / d as real, n as real / d as real);
  }

  lemma HalfEvenExact(c: int, d: int)
    requires d > 0
    ensures HalfEven(c * d, d) == c
  {
    hide HalfEven;
    HalfEvenByDivision(c * d, d);
    DivUnique(c * d, d, c, 0);
  }
}
