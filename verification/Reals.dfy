/** Exact arithmetic on reals: signs of products, and Python's `round`. */
module Reals {

  // To the nearest, and of two to the even one.
  function Round(x: real): (n: int)
    ensures -0.5 <= x - n as real <= 0.5
    ensures (x - n as real == 0.5 || x - n as real == -0.5) ==> n % 2 == 0
  {
    var f := x.Floor;
    var rest := x - f as real;
    if rest < 0.5 then f else if rest > 0.5 then f + 1 else if f % 2 == 0 then f else f + 1
  }

  lemma RoundGrows(x: real, y: real)
    requires x <= y
    ensures Round(x) <= Round(y)
  {
  }

  lemma Signs(a: real, b: real)
    ensures a >= 0.0 && b >= 0.0 ==> a * b >= 0.0
    ensures a > 0.0 && b > 0.0 ==> a * b > 0.0
    ensures a <= 0.0 && b > 0.0 ==> a * b <= 0.0
    ensures a < 0.0 && b > 0.0 ==> a * b < 0.0
  {
  }

  lemma Positive(x: nat, y: nat)
    requires x > 0 && y > 0
    ensures x * y > 0
  {
  }

  lemma UnitsAdd(x: real, y: real)
    requires x > 0.0 && y > 0.0
    ensures x * y > 0.0 && 1.0 / x + 1.0 / y == (x + y) / (x * y)
  {
    Signs(x, y);
    var u, v := 1.0 / x, 1.0 / y;
    assert u * x == 1.0 && v * y == 1.0;
    UnitsTimes(u, v, x, y);
    QuotientIs(u + v, x + y, x * y);
  }

  lemma UnitsTimes(u: real, v: real, x: real, y: real)
    requires u * x == 1.0 && v * y == 1.0
    ensures (u + v) * (x * y) == x + y
  {
    assert u * (x * y) == u * x * y;
    assert v * (x * y) == v * y * x;
    assert (u + v) * (x * y) == u * (x * y) + v * (x * y);
  }

  lemma QuotientIs(q: real, n: real, d: real)
    requires d != 0.0 && q * d == n
    ensures q == n / d
  {
  }

  lemma RealProduct(x: nat, y: nat)
    ensures (x * y) as real == x as real * y as real
  {
  }

  lemma FractionsCompare(n: nat, d: nat, m: nat, e: nat)
    requires d > 0 && e > 0
    ensures n as real / d as real > m as real / e as real <==> n * e > m * d
    ensures n as real / d as real == m as real / e as real <==> n * e == m * d
  {
    var q, r := n as real / d as real, m as real / e as real;
    assert q * d as real == n as real && r * e as real == m as real;
    RealProduct(d, e);
    RealProduct(n, e);
    RealProduct(m, d);
    var de := d as real * e as real;
    assert q * de == n as real * e as real && r * de == m as real * d as real;
    Signs(d as real, e as real);
    Larger(q, r, de);
  }

  lemma Larger(q: real, r: real, d: real)
    requires d > 0.0
    ensures q > r <==> q * d > r * d
    ensures q == r <==> q * d == r * d
  {
    Signs(q - r, d);
    Signs(r - q, d);
    assert (q - r) * d == q * d - r * d;
  }
}
