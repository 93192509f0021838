/** Facts about real arithmetic the other modules share. */
module Arithmetic {
  function Abs(x: real): (r: real)
    ensures r >= 0.0 && (r == x || r == -x)
  {
    if x < 0.0 then -x else x
  }

  function Max(a: real, b: real): (r: real)
    ensures r >= a && r >= b && (r == a || r == b)
  {
    if b > a then b else a
  }

  // Products under a name, so that a factor can be reasoned about without multiplying out.
  function Times(k: real, x: real): real { k * x }

  function Square(x: real): real { Times(x, x) }

  // f is e with every value multiplied by k.
  predicate ScaledBy(k: real, e: seq<real>, f: seq<real>) {
    |e| == |f| && forall i | 0 <= i < |e| :: f[i] == Times(k, e[i])
  }

  lemma Distributes(k: real, x: real, y: real)
    ensures k * (x + y) == k * x + k * y && (x + y) * k == x * k + y * k
  {
  }

  lemma PositiveProduct(a: real, b: real)
    requires a > 0.0 && b > 0.0
    ensures Times(a, b) > 0.0
  {
  }

  lemma ProductSign(x: real, y: real)
    ensures Times(x, y) > 0.0 <==> (x > 0.0 && y > 0.0) || (x < 0.0 && y < 0.0)
    ensures Times(x, y) < 0.0 <==> (x > 0.0 && y < 0.0) || (x < 0.0 && y > 0.0)
  {
    var a, b := if x < 0.0 then -x else x, if y < 0.0 then -y else y;
    if x != 0.0 && y != 0.0 { PositiveProduct(a, b); }
    assert Times(-x, y) == -Times(x, y) && Times(x, -y) == -Times(x, y) && Times(-x, -y) == Times(x, y);
  }

  lemma SquareSign(y: real)
    ensures Square(y) >= 0.0 && (Square(y) == 0.0 <==> y == 0.0)
  {
    ProductSign(y, y);
  }

  lemma ScaledDifference(k: real, x: real, y: real)
    ensures Times(k, x) - Times(k, y) == Times(k, x - y)
  {
  }

  lemma ScaledSum(k: real, x: real, y: real)
    ensures Times(k, x) + Times(k, y) == Times(k, x + y)
  {
  }

  lemma ScaledQuotient(k: real, x: real, n: real)
    requires n != 0.0
    ensures Times(k, x) / n == Times(k, x / n)
  {
  }

  lemma QuotientTimes(x: real, n: real)
    requires n != 0.0
    ensures x / n * n == x
  {
  }

  lemma DivisionKeepsZero(x: real, n: real)
    requires n != 0.0
    ensures x / n == 0.0 <==> x == 0.0
  {
    assert x / n * n == x;
  }

  lemma CommonFactorCancels(k: real, x: real, y: real)
    requires k > 0.0 && y != 0.0
    ensures Times(k, y) != 0.0 && Times(k, x) / Times(k, y) == x / y
  {
    var ky := Times(k, y);
    ProductSign(k, y);
    assert x / y * y == x;
    assert x / y * ky == Times(k, x);
  }

  lemma QuotientSign(x: real, d: real)
    requires x > 0.0 && d != 0.0
    ensures x / d > 0.0 <==> d > 0.0
  {
    var q := x / d;
    assert Times(q, d) == x;
    ProductSign(q, d);
  }

  lemma RootIsUnique(a: real, b: real)
    requires a >= 0.0 && b >= 0.0 && Square(a) == Square(b)
    ensures a == b
  {
    ProductSign(a - b, a + b);
    assert Times(a - b, a + b) == Square(a) - Square(b);
  }
}
