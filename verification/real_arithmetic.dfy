/** Products and quotients of reals. */
module RealArithmetic {

  lemma Product(a: real, b: real)
    requires a >= 0.0 && b >= 0.0
    ensures a * b >= 0.0
  {
  }

  /** For a positive divisor, comparing a quotient is comparing products. */
  lemma Quotient(a: real, b: real, c: real)
    requires b > 0.0
    ensures a / b <= c <==> a <= c * b
    ensures a / b >= c <==> a >= c * b
  {
    var d := a / b;
    assert a == d * b;
    assert (d - c) * b == d * b - c * b;
    if d > c {
      assert (d - c) * b > 0.0;
    } else if d < c {
      assert (c - d) * b > 0.0;
    }
  }

  lemma Positive(a: real, b: real)
    requires a > 0.0 && b > 0.0
    ensures a / b > 0.0
  {
    Quotient(a, b, 0.0);
  }
}
