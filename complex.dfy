/** Complex numbers as pairs of exact reals, for the escape-time and Newton
    iterations. Magnitudes are compared through their squares, so no square
    root is needed. */
module ComplexPlane {

  datatype Complex = Complex(re: real, im: real)

  const Zero: Complex := Complex(0.0, 0.0)
  const One: Complex := Complex(1.0, 0.0)

  function Add(a: Complex, b: Complex): Complex
  {
    Complex(a.re + b.re, a.im + b.im)
  }

  function Sub(a: Complex, b: Complex): Complex
  {
    Complex(a.re - b.re, a.im - b.im)
  }

  function Mul(a: Complex, b: Complex): Complex
  {
    Complex(a.re * b.re - a.im * b.im, a.re * b.im + a.im * b.re)
  }

  function Square(z: Complex): Complex
  {
    Mul(z, z)
  }

  /** |z|^2 */
  function AbsSq(z: Complex): real
  {
    z.re * z.re + z.im * z.im
  }

  /** |a - b|^2 */
  function DistSq(a: Complex, b: Complex): real
  {
    AbsSq(Sub(a, b))
  }

  lemma DistSqSymmetric(a: Complex, b: Complex)
    ensures DistSq(a, b) == DistSq(b, a)
  {
  }

  lemma DistSqSelf(a: Complex)
    ensures DistSq(a, a) == 0.0
  {
    assert Sub(a, a) == Zero;
  }

  /** a / b, defined where |b|^2 is non-zero. */
  function Div(a: Complex, b: Complex): Complex
    requires AbsSq(b) != 0.0
  {
    var n := AbsSq(b);
    Complex((a.re * b.re + a.im * b.im) / n, (a.im * b.re - a.re * b.im) / n)
  }

  lemma SubSelf(a: Complex, b: Complex)
    ensures Sub(a, b) == a <==> b == Zero
  {
  }

  lemma ProductPositive(a: real, b: real)
    requires a > 0.0 && b > 0.0
    ensures a * b > 0.0
  {
  }

  lemma NegatedSquare(x: real)
    ensures (0.0 - x) * (0.0 - x) == x * x
  {
  }

  lemma SquareNonNegative(x: real)
    ensures x * x >= 0.0
  {
    if x > 0.0 {
      ProductPositive(x, x);
    } else if x < 0.0 {
      ProductPositive(0.0 - x, 0.0 - x);
      NegatedSquare(x);
    }
  }

  lemma QuotientZero(p: real, n: real)
    requires n != 0.0
    ensures p / n == 0.0 <==> p == 0.0
  {
    if p / n == 0.0 {
      assert p == (p / n) * n;
    }
  }

  lemma ProductZero(p: real, n: real)
    requires n != 0.0
    requires p * n == 0.0
    ensures p == 0.0
  {
    assert p == (p * n) / n;
  }

  /** Multiplying the numerators of a / b back by b recovers a |b|^2. */
  lemma Recover(a: Complex, b: Complex)
    ensures var x := a.re * b.re + a.im * b.im;
            var y := a.im * b.re - a.re * b.im;
            a.re * AbsSq(b) == b.re * x - b.im * y && a.im * AbsSq(b) == b.im * x + b.re * y
  {
  }

  /** A quotient is zero exactly when its numerator is. */
  lemma DivZero(a: Complex, b: Complex)
    requires AbsSq(b) != 0.0
    ensures Div(a, b) == Zero <==> a == Zero
  {
    var n := AbsSq(b);
    var x := a.re * b.re + a.im * b.im;
    var y := a.im * b.re - a.re * b.im;
    QuotientZero(x, n);
    QuotientZero(y, n);
    Recover(a, b);
    if x == 0.0 && y == 0.0 {
      assert a.re * n == 0.0;
      ProductZero(a.re, n);
      assert a.im * n == 0.0;
      ProductZero(a.im, n);
    }
  }
}
