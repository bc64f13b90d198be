/** Complex values as the firmware keeps them: a pair of reals. */
module ComplexNumbers {
  datatype Complex = Complex(re: real, im: real) {
    function Add(that: Complex): Complex { Complex(re + that.re, im + that.im) }
    function Sub(that: Complex): Complex { Complex(re - that.re, im - that.im) }
    function Mul(that: Complex): Complex { Complex(re * that.re - im * that.im, re * that.im + im * that.re) }
    function Scale(k: real): Complex { Complex(k * re, k * im) }
    function Norm2(): real { re * re + im * im }
  }

  const Zero := Complex(0.0, 0.0)
  const One := Complex(1.0, 0.0)

  /** a / b, computed through the conjugate. A zero divisor, where the firmware's floats give infinities or
      NaN, gives zero. */
  function Quot(a: Complex, b: Complex): Complex {
    var d := b.Norm2();
    if d == 0.0 then Zero
    else Complex((a.re * b.re + a.im * b.im) / d, (a.im * b.re - a.re * b.im) / d)
  }

  function Product(x: real, y: real): real { x * y }

  lemma Signs(x: real, y: real)
    ensures 0.0 < x && 0.0 < y ==> 0.0 < Product(x, y)
    ensures Product(-x, -y) == Product(x, y) && Product(0.0, y) == 0.0
  {}

  lemma SquareSign(x: real)
    ensures if x == 0.0 then Product(x, x) == 0.0 else 0.0 < Product(x, x)
  {
    hide Product;
    Signs(x, x);
    Signs(-x, -x);
  }

  lemma NormZero(z: Complex)
    ensures z.Norm2() == 0.0 <==> z == Zero
  {
    assert z.Norm2() == Product(z.re, z.re) + Product(z.im, z.im);
    hide Product;
    SquareSign(z.re);
    SquareSign(z.im);
  }

  lemma QuotTimes(a: Complex, b: Complex)
    requires b != Zero
    ensures Quot(a, b).Mul(b) == a
  {
    NormZero(b);
    var d := b.Norm2();
    var re, im := a.re * b.re + a.im * b.im, a.im * b.re - a.re * b.im;
    var q := Quot(a, b);
    assert q.re * d == re && q.im * d == im;
    assert d * (q.re * b.re - q.im * b.im) == re * b.re - im * b.im == a.re * d;
    assert d * (q.re * b.im + q.im * b.re) == re * b.im + im * b.re == a.im * d;
    CancelReal(q.re * b.re - q.im * b.im, a.re, d);
    CancelReal(q.re * b.im + q.im * b.re, a.im, d);
  }

  lemma CancelReal(x: real, y: real, d: real)
    requires d != 0.0 && d * x == y * d
    ensures x == y
  {
    assert d * (x - y) == 0.0;
  }

  /** No zero divisors. */
  lemma ProductZero(a: Complex, b: Complex)
    requires a.Mul(b) == Zero && b != Zero
    ensures a == Zero
  {
    NormZero(b);
    var d, u, v := b.Norm2(), a.re * b.re - a.im * b.im, a.re * b.im + a.im * b.re;
    assert a.re * d == u * b.re + v * b.im;
    assert a.im * d == v * b.re - u * b.im;
    CancelReal(a.re, 0.0, d);
    CancelReal(a.im, 0.0, d);
  }

  lemma Commutative(a: Complex, b: Complex)
    ensures a.Mul(b) == b.Mul(a)
  {}

  lemma Associative(a: Complex, b: Complex, c: Complex)
    ensures a.Mul(b).Mul(c) == a.Mul(b.Mul(c))
  {}

  lemma Distributive(a: Complex, b: Complex, c: Complex)
    ensures a.Mul(b.Add(c)) == a.Mul(b).Add(a.Mul(c))
    ensures a.Mul(b.Sub(c)) == a.Mul(b).Sub(a.Mul(c))
  {
    OverSum(a, b, c);
    OverDifference(a, b, c);
    hide *;
  }

  lemma OverSum(a: Complex, b: Complex, c: Complex)
    ensures a.Mul(b.Add(c)) == a.Mul(b).Add(a.Mul(c))
  {}

  lemma OverDifference(a: Complex, b: Complex, c: Complex)
    ensures a.Mul(b.Sub(c)) == a.Mul(b).Sub(a.Mul(c))
  {}

  lemma Units(a: Complex)
    ensures a.Mul(One) == a && One.Mul(a) == a && a.Mul(Zero) == Zero && Zero.Mul(a) == Zero
  {}

  /** The laws of the field that the proofs use. */
  lemma Laws(a: Complex, b: Complex, c: Complex)
    ensures a.Mul(b) == b.Mul(a)
    ensures a.Mul(b).Mul(c) == a.Mul(b.Mul(c))
    ensures a.Mul(b.Add(c)) == a.Mul(b).Add(a.Mul(c))
    ensures a.Mul(b.Sub(c)) == a.Mul(b).Sub(a.Mul(c))
    ensures a.Mul(One) == a && One.Mul(a) == a && a.Mul(Zero) == Zero && Zero.Mul(a) == Zero
  {
    hide Complex.Mul;
    Commutative(a, b);
    Associative(a, b, c);
    Distributive(a, b, c);
    Units(a);
  }

  lemma Cancel(a: Complex, c: Complex, b: Complex)
    requires a.Mul(b) == c.Mul(b) && b != Zero
    ensures a == c
  {
    hide Complex.Mul;
    Laws(b, a, c);
    Laws(b, c, a);
    Laws(b, a.Sub(c), a);
    ProductZero(a.Sub(c), b);
  }

  /** A quotient is known by its product with the divisor. */
  lemma QuotIs(a: Complex, b: Complex, c: Complex)
    requires b != Zero && c.Mul(b) == a
    ensures Quot(a, b) == c
  {
    QuotTimes(a, b);
    Cancel(Quot(a, b), c, b);
  }
}
