/** L-network matching (measure.c, lc_match_calc): two reactances that turn a load into the reference
    resistance. */
module LMatch {
  import opened ComplexNumbers

  /** A square root, as vna_sqrtf is taken to be: the nonnegative one, exact. */
  ghost predicate SquareRoot(sqrt: real -> real) {
    forall d: real :: 0.0 <= d ==> 0.0 <= sqrt(d) && sqrt(d) * sqrt(d) == d
  }

  /** Reactance parallel to the source, in series, and parallel to the load; a zero parallel one is absent. */
  datatype Network = Network(xps: real, xs: real, xpl: real)

  function J(x: real): Complex { Complex(0.0, x) }

  /** An impedance with a reactance in parallel. */
  function Parallel(z: Complex, x: real): Complex {
    if x == 0.0 then z else Quot(J(x).Mul(z), z.Add(J(x)))
  }

  /** What the source sees through the network. */
  function Transform(n: Network, z: Complex): Complex {
    Parallel(Parallel(z, n.xpl).Add(J(n.xs)), n.xps)
  }

  /** The network turns the load into r0 ohms. */
  ghost predicate Matches(n: Network, r0: real, z: Complex) { Transform(n, z) == Complex(r0, 0.0) }

  // ---- the quadratic ----

  function Discriminant(a: real, b: real, c: real): real { b * b - 2.0 * (2.0 * a) * c }

  /** Both roots, or a pair of zeros when there is none. */
  function Roots(sqrt: real -> real, a: real, b: real, c: real): (real, real)
    requires a != 0.0
  {
    var d := Discriminant(a, b, c);
    if d < 0.0 then (0.0, 0.0) else ((-b + sqrt(d)) / (2.0 * a), (-b - sqrt(d)) / (2.0 * a))
  }

  ghost predicate IsRoot(a: real, b: real, c: real, x: real) { a * x * x + b * x + c == 0.0 }

  lemma Halved(a: real, b: real, s: real, x: real)
    requires a != 0.0
    ensures x == (-b + s) / (2.0 * a) <==> 2.0 * a * x + b == s
  {
    var q := (-b + s) / (2.0 * a);
    assert q * (2.0 * a) == -b + s;
    if 2.0 * a * x + b == s { CancelReal(x, q, 2.0 * a); }
  }

  lemma CompleteSquare(a: real, b: real, c: real, x: real)
    ensures (2.0 * a * x + b) * (2.0 * a * x + b) - Discriminant(a, b, c) == 4.0 * a * (a * x * x + b * x + c)
  {}

  lemma SameSquare(u: real, s: real)
    ensures u * u == s * s <==> u == s || u == -s
  {
    if u * u == s * s {
      assert (u - s) * (u + s) == 0.0;
    }
  }

  /** With a nonnegative discriminant the two values are all the roots there are. */
  lemma RootsAreAll(sqrt: real -> real, a: real, b: real, c: real, x: real)
    requires SquareRoot(sqrt) && a != 0.0 && 0.0 <= Discriminant(a, b, c)
    ensures var r := Roots(sqrt, a, b, c); IsRoot(a, b, c, x) <==> x == r.0 || x == r.1
  {
    var s, u := sqrt(Discriminant(a, b, c)), 2.0 * a * x + b;
    CompleteSquare(a, b, c, x);
    Halved(a, b, s, x);
    Halved(a, b, -s, x);
    SameSquare(u, s);
    var value := a * x * x + b * x + c;
    assert u * u - s * s == 4.0 * a * value;
    hide Discriminant;
    if value != 0.0 {
      NonzeroProduct(4.0 * a, value);
    }
  }

  lemma NonzeroProduct(x: real, y: real)
    requires x != 0.0 && y != 0.0
    ensures x * y != 0.0
  {
    if x * y == 0.0 { CancelReal(y, 0.0, x); }
  }

  /** And with a negative one there is none. */
  lemma NoRoots(a: real, b: real, c: real, x: real)
    requires a != 0.0 && Discriminant(a, b, c) < 0.0
    ensures !IsRoot(a, b, c, x)
  {
    CompleteSquare(a, b, c, x);
    SquareSign(2.0 * a * x + b);
  }

  // ---- a reactance parallel to the load, then one in series ----

  function HiA(r0: real, rl: real): real { r0 - rl }
  function HiB(r0: real, xl: real): real { 2.0 * xl * r0 }
  function HiC(r0: real, rl: real, xl: real): real { r0 * (xl * xl + rl * rl) }

  /** The squared magnitude of the load with the parallel reactance in line. */
  function Span(rl: real, x: real): real { rl * rl + x * x }

  lemma SpanPositive(rl: real, x: real)
    requires 0.0 < rl
    ensures 0.0 < Span(rl, x)
  {
    assert Span(rl, x) == Product(rl, rl) + Product(x, x);
    hide Product, Span;
    SquareSign(rl);
    SquareSign(x);
  }

  /** The series reactance that cancels what is left after the parallel one. */
  function SeriesFor(rl: real, xl: real, x: real): real
    requires 0.0 < rl
  {
    SpanPositive(rl, xl + x);
    x * x * (xl + x) / Span(rl, xl + x) - x
  }

  lemma HiPolynomial(r0: real, rl: real, xl: real, x: real)
    ensures r0 * Span(rl, xl + x) - x * x * rl == HiA(r0, rl) * x * x + HiB(r0, xl) * x + HiC(r0, rl, xl)
  {}

  /** A root makes the resistive part r0: x^2 rl = r0 (rl^2 + (xl + x)^2). */
  lemma HiResistance(r0: real, rl: real, xl: real, x: real)
    ensures IsRoot(HiA(r0, rl), HiB(r0, xl), HiC(r0, rl, xl), x) <==> x * x * rl == r0 * Span(rl, xl + x)
  {
    HiPolynomial(r0, rl, xl, x);
    hide Span, HiA, HiB, HiC;
  }

  lemma ParallelDivisor(rl: real, xl: real, x: real)
    requires 0.0 < rl && x != 0.0
    ensures var d := Complex(rl, xl).Add(J(x)); d == Complex(rl, xl + x) && d != Zero
    ensures J(x).Mul(Complex(rl, xl)) == Complex(-x * xl, x * rl)
  {}

  /** Load shunt x, then series s: it matches exactly when x is a root and s cancels the rest. */
  lemma HiIff(r0: real, rl: real, xl: real, x: real, s: real)
    requires 0.0 < rl && x != 0.0
    ensures Matches(Network(0.0, s, x), r0, Complex(rl, xl)) <==>
            IsRoot(HiA(r0, rl), HiB(r0, xl), HiC(r0, rl, xl), x) && s == SeriesFor(rl, xl, x)
  {
    HiResistance(r0, rl, xl, x);
    ParallelDivisor(rl, xl, x);
    SpanPositive(rl, xl + x);
    var x1, num, q := xl + x, Complex(-x * xl, x * rl), Complex(r0, -s);
    var den := Complex(rl, x1);
    QuotTimes(num, den);
    assert Transform(Network(0.0, s, x), Complex(rl, xl)) == Quot(num, den).Add(J(s));
    assert Matches(Network(0.0, s, x), r0, Complex(rl, xl)) <==> Quot(num, den) == q;
    if q.Mul(den) == num { QuotIs(num, den, q); }
    HiEquations(r0, rl, xl, x, s);
  }

  lemma RotatedEquations(r0: real, rl: real, xl: real, x: real, s: real)
    ensures var e1, e2, x1 := r0 * rl + s * (xl + x) + x * xl, r0 * (xl + x) - s * rl - x * rl, xl + x;
      && e1 * rl + e2 * x1 == r0 * Span(rl, x1) - x * x * rl
      && e1 * x1 - e2 * rl == (s + x) * Span(rl, x1) - x * x * x1
  {}

  lemma SeriesIs(rl: real, xl: real, x: real, s: real)
    requires 0.0 < rl
    ensures s == SeriesFor(rl, xl, x) <==> (s + x) * Span(rl, xl + x) == x * x * (xl + x)
  {
    SpanPositive(rl, xl + x);
    var d := Span(rl, xl + x);
    var t := x * x * (xl + x) / d;
    assert t * d == x * x * (xl + x);
    hide Span;
    if (s + x) * d == t * d { CancelReal(s + x, t, d); }
  }

  lemma Components(r0: real, rl: real, xl: real, x: real, s: real)
    ensures Complex(r0, -s).Mul(Complex(rl, xl + x)) == Complex(-x * xl, x * rl) <==>
            r0 * rl + s * (xl + x) + x * xl == 0.0 && r0 * (xl + x) - s * rl - x * rl == 0.0
  {}

  /** The two component equations, solved for r0 and s. */
  lemma HiEquations(r0: real, rl: real, xl: real, x: real, s: real)
    requires 0.0 < rl
    ensures Complex(r0, -s).Mul(Complex(rl, xl + x)) == Complex(-x * xl, x * rl) <==>
            x * x * rl == r0 * Span(rl, xl + x) && s == SeriesFor(rl, xl, x)
  {
    hide Span, SeriesFor, Complex.Mul;
    Components(r0, rl, xl, x, s);
    RotatedEquations(r0, rl, xl, x, s);
    Rotation(r0 * rl + s * (xl + x) + x * xl, r0 * (xl + x) - s * rl - x * rl, rl, xl + x);
    SeriesIs(rl, xl, x, s);
  }

  lemma Rotation(e1: real, e2: real, rl: real, x1: real)
    requires 0.0 < rl
    ensures e1 == 0.0 && e2 == 0.0 <==> e1 * rl + e2 * x1 == 0.0 && e1 * x1 - e2 * rl == 0.0
  {
    SpanPositive(rl, x1);
    var u, v, d := e1 * rl + e2 * x1, e1 * x1 - e2 * rl, Span(rl, x1);
    assert e1 * d == u * rl + v * x1 && e2 * d == u * x1 - v * rl;
    if u == 0.0 && v == 0.0 {
      CancelReal(e1, 0.0, d);
      CancelReal(e2, 0.0, d);
    }
  }

  /** There is such a root exactly when the load's squared magnitude reaches r0 * rl. */
  lemma HiDiscriminant(r0: real, rl: real, xl: real)
    requires 0.0 < rl && 0.0 < r0
    ensures Discriminant(HiA(r0, rl), HiB(r0, xl), HiC(r0, rl, xl)) < 0.0 <==> rl * rl + xl * xl < r0 * rl
  {
    var d, g := Discriminant(HiA(r0, rl), HiB(r0, xl), HiC(r0, rl, xl)), rl * rl + xl * xl - r0 * rl;
    assert d == (4.0 * (r0 * rl)) * g;
    Signs(r0, rl);
    Signs(4.0 * (r0 * rl), g);
    Signs(4.0 * (r0 * rl), -g);
  }

  /** Zero is never a root, so the parallel reactance is never mistaken for an absent one. */
  lemma HiNonzero(r0: real, rl: real, xl: real, x: real)
    requires 0.0 < rl && 0.0 < r0 && IsRoot(HiA(r0, rl), HiB(r0, xl), HiC(r0, rl, xl), x)
    ensures x != 0.0
  {
    SpanPositive(rl, xl);
    NonzeroProduct(r0, Span(rl, xl));
    assert HiC(r0, rl, xl) == r0 * Span(rl, xl);
  }

  function CalcHi(sqrt: real -> real, r0: real, rl: real, xl: real): seq<Network>
    requires 0.0 < rl && rl != r0
  {
    var xp := Roots(sqrt, HiA(r0, rl), HiB(r0, xl), HiC(r0, rl, xl));
    [Network(0.0, SeriesFor(rl, xl, xp.0), xp.0), Network(0.0, SeriesFor(rl, xl, xp.1), xp.1)]
  }

  /** The two networks of that shape are all the matching ones. */
  lemma HiComplete(sqrt: real -> real, r0: real, rl: real, xl: real, x: real, s: real)
    requires SquareRoot(sqrt) && 0.0 < rl && 0.0 < r0 && rl != r0 && r0 * rl <= rl * rl + xl * xl
    ensures (x != 0.0 && Matches(Network(0.0, s, x), r0, Complex(rl, xl))) <==>
            Network(0.0, s, x) in CalcHi(sqrt, r0, rl, xl)
  {
    HiDiscriminant(r0, rl, xl);
    hide Discriminant, IsRoot, Matches, SeriesFor, HiA, HiB, HiC;
    assert HiA(r0, rl) != 0.0 by { HiANonzero(r0, rl); }
    RootsAreAll(sqrt, HiA(r0, rl), HiB(r0, xl), HiC(r0, rl, xl), x);
    if x != 0.0 { HiIff(r0, rl, xl, x, s); }
    if IsRoot(HiA(r0, rl), HiB(r0, xl), HiC(r0, rl, xl), x) { HiNonzero(r0, rl, xl, x); }
  }

  lemma HiANonzero(r0: real, rl: real)
    requires r0 != rl
    ensures HiA(r0, rl) != 0.0
  {}

  // ---- a reactance in series with the load, then one parallel to the source ----

  function LoB(xl: real): real { 2.0 * xl }
  function LoC(r0: real, rl: real, xl: real): real { rl * rl + xl * xl - r0 * rl }

  /** The source shunt that cancels the reactance x1 = xl + xs. */
  function ShuntFor(r0: real, rl: real, x1: real): real
    requires rl != r0
  {
    ShuntDivisor(r0, rl, x1);
    -(r0 * r0) * x1 / ((rl - r0) * (rl - r0) + x1 * x1)
  }

  lemma ShuntDivisor(r0: real, rl: real, x1: real)
    requires rl != r0
    ensures (rl - r0) * (rl - r0) + x1 * x1 != 0.0
  {
    assert (rl - r0) * (rl - r0) + x1 * x1 == Product(rl - r0, rl - r0) + Product(x1, x1);
    hide Product;
    SquareSign(rl - r0);
    SquareSign(x1);
  }

  /** A root puts the conductance at 1/r0: (xl + x)^2 = rl (r0 - rl). */
  lemma LoConductance(r0: real, rl: real, xl: real, x: real)
    ensures IsRoot(1.0, LoB(xl), LoC(r0, rl, xl), x) <==> (xl + x) * (xl + x) == rl * (r0 - rl)
  {
    assert (xl + x) * (xl + x) - rl * (r0 - rl) == 1.0 * x * x + LoB(xl) * x + LoC(r0, rl, xl);
  }

  /** At such a root the shunt of the code is -r0 x1 / (r0 - rl), and x1 is not zero. */
  lemma LoShunt(r0: real, rl: real, x1: real)
    requires 0.0 < rl < r0 && x1 * x1 == rl * (r0 - rl)
    ensures x1 != 0.0 && ShuntFor(r0, rl, x1) * (r0 - rl) == -r0 * x1
  {
    NonzeroProduct(rl, r0 - rl);
    var p, g := ShuntFor(r0, rl, x1), r0 - rl;
    ShuntDivisor(r0, rl, x1);
    LoDenominator(r0, rl, x1);
    assert p * (r0 * g) == -(r0 * r0) * x1;
    assert r0 * (p * g) == r0 * (-r0 * x1);
    CancelReal(p * g, -r0 * x1, r0);
  }

  lemma LoDenominator(r0: real, rl: real, x1: real)
    requires x1 * x1 == rl * (r0 - rl)
    ensures (rl - r0) * (rl - r0) + x1 * x1 == r0 * (r0 - rl)
  {}

  /** jp (rl + j x1) */
  function LoNum(rl: real, x1: real, p: real): Complex { Complex(-p * x1, p * rl) }

  /** The component equations of jp (rl + j x1) = r0 (rl + j (x1 + p)). */
  lemma LoEquations(r0: real, rl: real, x1: real, p: real)
    ensures Complex(r0, 0.0).Mul(Complex(rl, x1 + p)) == LoNum(rl, x1, p) <==>
            r0 * rl == -p * x1 && r0 * x1 == -p * (r0 - rl)
  {
    assert r0 * (x1 + p) - p * rl == r0 * x1 + p * (r0 - rl);
  }

  /** Solved for x1 and p: possible only for a load below r0. */
  lemma LoSolved(r0: real, rl: real, x1: real, p: real)
    requires 0.0 < rl && 0.0 < r0 && rl != r0 && p != 0.0
    ensures (r0 * rl == -p * x1 && r0 * x1 == -p * (r0 - rl)) <==>
            (rl < r0 && x1 * x1 == rl * (r0 - rl) && p == ShuntFor(r0, rl, x1))
  {
    if r0 * rl == -p * x1 && r0 * x1 == -p * (r0 - rl) {
      LoForward(r0, rl, x1, p);
    } else if rl < r0 && x1 * x1 == rl * (r0 - rl) && p == ShuntFor(r0, rl, x1) {
      LoShunt(r0, rl, x1);
      hide ShuntFor;
      var g := r0 - rl;
      assert p * g == -r0 * x1;
      assert (p * x1) * g == (p * g) * x1 == -r0 * (x1 * x1) == -(r0 * rl) * g;
      CancelReal(p * x1, -(r0 * rl), g);
    }
  }

  lemma LoForward(r0: real, rl: real, x1: real, p: real)
    requires 0.0 < rl && 0.0 < r0 && rl != r0 && p != 0.0
    requires r0 * rl == -p * x1 && r0 * x1 == -p * (r0 - rl)
    ensures rl < r0 && x1 * x1 == rl * (r0 - rl) && p == ShuntFor(r0, rl, x1)
  {
    var g := r0 - rl;
    assert Product(p, p) * g == (r0 * r0) * rl by { assert p * (p * g) == -p * (r0 * x1) == r0 * (r0 * rl); }
    LoBelow(r0, rl, Product(p, p));
    assert r0 * (x1 * x1) == r0 * (rl * g) by { assert x1 * (r0 * x1) == (-p * x1) * g == (r0 * rl) * g; }
    CancelReal(x1 * x1, rl * g, r0);
    LoShunt(r0, rl, x1);
    hide ShuntFor;
    assert g * p == ShuntFor(r0, rl, x1) * g;
    CancelReal(p, ShuntFor(r0, rl, x1), g);
  }

  lemma LoBelow(r0: real, rl: real, pp: real)
    requires 0.0 < rl && 0.0 < r0 && 0.0 <= pp && pp * (r0 - rl) == (r0 * r0) * rl
    ensures rl < r0
  {
    Signs(r0, r0);
    Signs(r0 * r0, rl);
  }

  /** Series x, then source shunt p: it matches exactly for a load below r0, at a root, with that shunt. */
  lemma LoIff(r0: real, rl: real, xl: real, p: real, x: real)
    requires 0.0 < rl && 0.0 < r0 && rl != r0 && p != 0.0
    ensures Matches(Network(p, x, 0.0), r0, Complex(rl, xl)) <==>
            rl < r0 && IsRoot(1.0, LoB(xl), LoC(r0, rl, xl), x) && p == ShuntFor(r0, rl, xl + x)
  {
    hide Transform, Complex.Mul, ShuntFor, IsRoot, LoB, LoC, Quot, LoNum;
    LoSeen(rl, xl, p, x);
    QuotIff(LoNum(rl, xl + x, p), Complex(rl, xl + x + p), Complex(r0, 0.0));
    LoEquations(r0, rl, xl + x, p);
    LoSolved(r0, rl, xl + x, p);
    LoConductance(r0, rl, xl, x);
  }

  lemma QuotIff(num: Complex, den: Complex, q: Complex)
    requires den != Zero
    ensures Quot(num, den) == q <==> q.Mul(den) == num
  {
    QuotTimes(num, den);
    if q.Mul(den) == num { QuotIs(num, den, q); }
  }

  lemma LoSeen(rl: real, xl: real, p: real, x: real)
    requires 0.0 < rl && p != 0.0
    ensures Complex(rl, xl + x + p) != Zero
    ensures Transform(Network(p, x, 0.0), Complex(rl, xl)) == Quot(LoNum(rl, xl + x, p), Complex(rl, xl + x + p))
  {
    ParallelDivisor(rl, xl + x, p);
    hide Quot, Complex.Mul;
    assert Complex(rl, xl).Add(J(x)) == Complex(rl, xl + x);
  }

  function CalcLo(sqrt: real -> real, r0: real, rl: real, xl: real): seq<Network>
    requires rl != r0
  {
    var xs := Roots(sqrt, 1.0, LoB(xl), LoC(r0, rl, xl));
    [Network(ShuntFor(r0, rl, xl + xs.0), xs.0, 0.0), Network(ShuntFor(r0, rl, xl + xs.1), xs.1, 0.0)]
  }

  lemma LoDiscriminant(r0: real, rl: real, xl: real)
    requires 0.0 < rl
    ensures rl < r0 ==> 0.0 < Discriminant(1.0, LoB(xl), LoC(r0, rl, xl))
  {
    assert Discriminant(1.0, LoB(xl), LoC(r0, rl, xl)) == 4.0 * (rl * (r0 - rl));
    Signs(rl, r0 - rl);
  }

  /** Below r0 the two networks of that shape are all the matching ones. */
  lemma LoComplete(sqrt: real -> real, r0: real, rl: real, xl: real, p: real, x: real)
    requires SquareRoot(sqrt) && 0.0 < rl < r0
    ensures (p != 0.0 && Matches(Network(p, x, 0.0), r0, Complex(rl, xl))) <==>
            Network(p, x, 0.0) in CalcLo(sqrt, r0, rl, xl)
  {
    hide Discriminant, IsRoot, Matches, ShuntFor, LoB, LoC, Roots;
    LoDiscriminant(r0, rl, xl);
    LoShuntNonzero(r0, rl, xl, x);
    RootsAreAll(sqrt, 1.0, LoB(xl), LoC(r0, rl, xl), x);
    if p != 0.0 { LoIff(r0, rl, xl, p, x); }
  }

  lemma LoShuntNonzero(r0: real, rl: real, xl: real, x: real)
    requires 0.0 < rl < r0
    ensures IsRoot(1.0, LoB(xl), LoC(r0, rl, xl), x) ==> ShuntFor(r0, rl, xl + x) != 0.0
  {
    LoConductance(r0, rl, xl, x);
    hide IsRoot, ShuntFor;
    var x1 := xl + x;
    if x1 * x1 == rl * (r0 - rl) {
      LoShunt(r0, rl, x1);
      NonzeroProduct(-r0, x1);
    }
  }

  // ---- the whole solver ----

  /** -1: the load is a short; 0: nothing to do; otherwise the networks. */
  datatype Outcome = Hopeless | NotNeeded | Solved(networks: seq<Network>)

  /** The load's squared magnitude is above r0 * rl: a load shunt can bring its resistance to r0. */
  predicate Exceeds(r0: real, rl: real, xl: real) { rl * rl + xl * xl > r0 * rl }

  /** A single reactance is enough within ten percent of r0. */
  predicate NearReference(r0: real, rl: real) { r0 < rl * 1.1 && rl < r0 * 1.1 }

  /** The solver, on the load's resistance and reactance; `flat` says the load's SWR is at most 1.1. */
  method LcMatchCalc(sqrt: real -> real, r0: real, rl: real, xl: real, flat: bool) returns (r: Outcome)
    requires 0.0 < r0
    ensures r == Calc(sqrt, r0, rl, xl, flat)
  {
    if rl <= 0.5 {
      return Hopeless;
    }
    var q := xl / rl;
    if flat || q >= 100.0 {
      return NotNeeded;
    }
    if NearReference(r0, rl) {
      return Solved([Network(0.0, -xl, 0.0)]);
    }
    var matches := [];
    if rl >= r0 || Exceeds(r0, rl, xl) {
      matches := CalcHi(sqrt, r0, rl, xl);
      if rl >= r0 {
        assert matches + [] == matches;
        return Solved(matches);
      }
    }
    assert [] + CalcLo(sqrt, r0, rl, xl) == CalcLo(sqrt, r0, rl, xl);
    matches := matches + CalcLo(sqrt, r0, rl, xl);
    return Solved(matches);
  }

  function Calc(sqrt: real -> real, r0: real, rl: real, xl: real, flat: bool): Outcome
    requires 0.0 < r0
  {
    if rl <= 0.5 then Hopeless
    else if flat || xl / rl >= 100.0 then NotNeeded
    else if NearReference(r0, rl) then Solved([Network(0.0, -xl, 0.0)])
    else
      var hi := if rl >= r0 || Exceeds(r0, rl, xl) then CalcHi(sqrt, r0, rl, xl) else [];
      Solved(hi + if rl >= r0 then [] else CalcLo(sqrt, r0, rl, xl))
  }

  /** The load reaches the two-reactance solver. */
  ghost predicate ReachesSolver(r0: real, rl: real, xl: real, flat: bool) {
    0.5 < rl && !flat && xl / rl < 100.0 && !NearReference(r0, rl)
  }

  /** An L-network: one shunt, on one side. */
  ghost predicate IsL(n: Network) { (n.xps == 0.0) != (n.xpl == 0.0) }

  lemma LoadShuntFactor(r0: real, rl: real, xl: real)
    requires 0.0 < rl && r0 <= rl
    ensures r0 * rl <= rl * rl + xl * xl
  {
    assert xl * xl == Product(xl, xl);
    SquareSign(xl);
    if r0 < rl { Signs(rl, rl - r0); }
  }

  lemma HiAllMatch(sqrt: real -> real, r0: real, rl: real, xl: real)
    requires SquareRoot(sqrt) && 0.0 < rl && 0.0 < r0 && rl != r0 && r0 * rl <= rl * rl + xl * xl
    ensures |CalcHi(sqrt, r0, rl, xl)| == 2
    ensures forall n :: n in CalcHi(sqrt, r0, rl, xl) ==> IsL(n) && Matches(n, r0, Complex(rl, xl))
  {
    forall n | n in CalcHi(sqrt, r0, rl, xl) ensures IsL(n) && Matches(n, r0, Complex(rl, xl)) {
      hide Matches, Roots, SeriesFor;
      HiComplete(sqrt, r0, rl, xl, n.xpl, n.xs);
    }
  }

  lemma LoAllMatch(sqrt: real -> real, r0: real, rl: real, xl: real)
    requires SquareRoot(sqrt) && 0.0 < rl < r0
    ensures |CalcLo(sqrt, r0, rl, xl)| == 2
    ensures forall n :: n in CalcLo(sqrt, r0, rl, xl) ==> IsL(n) && Matches(n, r0, Complex(rl, xl))
  {
    forall n | n in CalcLo(sqrt, r0, rl, xl) ensures IsL(n) && Matches(n, r0, Complex(rl, xl)) {
      hide Matches, Roots, ShuntFor;
      LoComplete(sqrt, r0, rl, xl, n.xps, n.xs);
    }
  }

  /** Every network returned is an L-network that turns the load into exactly r0, two of them above r0 and two
      or four below. */
  lemma ReturnedMatch(sqrt: real -> real, r0: real, rl: real, xl: real, flat: bool)
    requires SquareRoot(sqrt) && 0.0 < r0 && ReachesSolver(r0, rl, xl, flat)
    ensures var r := Calc(sqrt, r0, rl, xl, flat);
      && r.Solved?
      && |r.networks| == (if rl < r0 && Exceeds(r0, rl, xl) then 4 else 2)
      && forall n :: n in r.networks ==> IsL(n) && Matches(n, r0, Complex(rl, xl))
  {
    assert rl != r0;
    if r0 <= rl { LoadShuntFactor(r0, rl, xl); }
    if r0 <= rl || Exceeds(r0, rl, xl) { HiAllMatch(sqrt, r0, rl, xl); }
    if rl < r0 { LoAllMatch(sqrt, r0, rl, xl); }
    hide CalcHi, CalcLo, Matches, Exceeds;
  }

  /** And no L-network that matches is missing. At the one edge where the load's conductance already is 1/r0 the
      load-shunt solution degenerates to a lone shunt, which is returned from the source side. */
  lemma NoneMissing(sqrt: real -> real, r0: real, rl: real, xl: real, flat: bool, n: Network)
    requires SquareRoot(sqrt) && 0.0 < r0 && ReachesSolver(r0, rl, xl, flat)
    requires IsL(n) && Matches(n, r0, Complex(rl, xl))
    ensures var r := Calc(sqrt, r0, rl, xl, flat).networks;
      n in r || (rl < r0 && rl * rl + xl * xl == r0 * rl && n.xs == 0.0 && Network(n.xpl, 0.0, 0.0) in r)
  {
    assert rl != r0;
    hide Matches, CalcHi, CalcLo;
    if n.xpl == 0.0 {
      MissingLo(sqrt, r0, rl, xl, n);
    } else {
      MissingHi(sqrt, r0, rl, xl, n);
    }
  }

  lemma MissingLo(sqrt: real -> real, r0: real, rl: real, xl: real, n: Network)
    requires SquareRoot(sqrt) && 0.0 < r0 && 0.0 < rl && rl != r0
    requires n.xps != 0.0 && n.xpl == 0.0 && Matches(n, r0, Complex(rl, xl))
    ensures rl < r0 && n in CalcLo(sqrt, r0, rl, xl)
  {
    hide Matches, Roots, ShuntFor, IsRoot, LoB, LoC;
    LoIff(r0, rl, xl, n.xps, n.xs);
    LoComplete(sqrt, r0, rl, xl, n.xps, n.xs);
  }

  /** A matching load-shunt network is among those returned, or is the edge case. */
  lemma MissingHi(sqrt: real -> real, r0: real, rl: real, xl: real, n: Network)
    requires SquareRoot(sqrt) && 0.0 < r0 && 0.0 < rl && rl != r0
    requires n.xps == 0.0 && n.xpl != 0.0 && Matches(n, r0, Complex(rl, xl))
    ensures if rl < r0 && rl * rl + xl * xl == r0 * rl
            then n.xs == 0.0 && Network(n.xpl, 0.0, 0.0) in CalcLo(sqrt, r0, rl, xl)
            else r0 * rl < rl * rl + xl * xl || r0 <= rl
    ensures r0 * rl <= rl * rl + xl * xl && n in CalcHi(sqrt, r0, rl, xl)
  {
    hide Matches, Roots, SeriesFor, ShuntFor, IsRoot, HiA, HiB, HiC, LoB, LoC, Discriminant;
    HiIff(r0, rl, xl, n.xpl, n.xs);
    HiDiscriminant(r0, rl, xl);
    HiANonzero(r0, rl);
    if Discriminant(HiA(r0, rl), HiB(r0, xl), HiC(r0, rl, xl)) < 0.0 {
      NoRoots(HiA(r0, rl), HiB(r0, xl), HiC(r0, rl, xl), n.xpl);
    }
    HiComplete(sqrt, r0, rl, xl, n.xpl, n.xs);
    if rl < r0 && rl * rl + xl * xl == r0 * rl {
      EdgeShunt(r0, rl, xl, n.xpl, n.xs);
      LoComplete(sqrt, r0, rl, xl, n.xpl, 0.0);
    }
  }

  /** At the edge the quadratic has one double root. */
  lemma EdgeRoot(r0: real, rl: real, xl: real, x: real)
    requires rl * rl + xl * xl == r0 * rl && x * x * rl == r0 * Span(rl, xl + x)
    ensures (r0 - rl) * x == -(r0 * xl)
  {
    var g, u := r0 - rl, (r0 - rl) * x + r0 * xl;
    var rest := g * (x * x) + 2.0 * (xl * r0 * x) + r0 * r0 * rl;
    assert r0 * Span(rl, xl + x) == r0 * (rl * rl + xl * xl) + 2.0 * (xl * r0 * x) + r0 * (x * x);
    assert rest == 0.0;
    assert Product(u, u) == g * rest + (r0 * r0) * (xl * xl - r0 * rl + rl * rl);
    hide Product;
    SquareSign(u);
  }

  /** At the edge the load shunt needs no series reactance, and works from the source side as well. */
  lemma EdgeShunt(r0: real, rl: real, xl: real, x: real, s: real)
    requires 0.0 < rl < r0 && rl * rl + xl * xl == r0 * rl && x != 0.0
    requires Matches(Network(0.0, s, x), r0, Complex(rl, xl))
    ensures s == 0.0 && Matches(Network(x, 0.0, 0.0), r0, Complex(rl, xl))
  {
    HiIff(r0, rl, xl, x, s);
    HiResistance(r0, rl, xl, x);
    HiEquations(r0, rl, xl, x, s);
    Components(r0, rl, xl, x, s);
    EdgeRoot(r0, rl, xl, x);
    hide Span, SeriesFor, IsRoot, HiA, HiB, HiC;
    CancelReal(s, 0.0, rl);
    assert J(0.0) == Zero;
  }

  // ---- the single reactance, and the load itself ----

  /** Standing-wave ratio of a resistance against r0. */
  function ResistiveSwr(r0: real, r: real): real
    requires 0.0 < r0 && 0.0 < r
  {
    var g := (if r < r0 then r0 - r else r - r0) / (r + r0);
    SwrDivisor(r0, r);
    (1.0 + g) / (1.0 - g)
  }

  lemma SwrDivisor(r0: real, r: real)
    requires 0.0 < r0 && 0.0 < r
    ensures var d := if r < r0 then r0 - r else r - r0; 0.0 < 1.0 - d / (r + r0)
    ensures var d := if r < r0 then r0 - r else r - r0;
            (1.0 - d / (r + r0)) * (r + r0) == r + r0 - d && (1.0 + d / (r + r0)) * (r + r0) == r + r0 + d
  {
    var d := if r < r0 then r0 - r else r - r0;
    var q := d / (r + r0);
    assert q * (r + r0) == d;
    Signs(q - 1.0, r + r0);
    if 1.0 <= q { assert (q - 1.0) * (r + r0) == d - (r + r0); }
  }

  /** Near the reference the one series reactance leaves a pure resistance with an SWR below 1.1. */
  lemma SingleReactance(r0: real, rl: real, xl: real)
    requires 0.0 < r0 && 0.0 < rl && NearReference(r0, rl)
    ensures Transform(Network(0.0, -xl, 0.0), Complex(rl, xl)) == Complex(rl, 0.0)
    ensures ResistiveSwr(r0, rl) < 1.1
  {
    SwrDivisor(r0, rl);
    var d := if rl < r0 then r0 - rl else rl - r0;
    var q, s := d / (rl + r0), ResistiveSwr(r0, rl);
    assert s * (1.0 - q) == 1.0 + q;
    hide ResistiveSwr;
    assert s * (rl + r0 - d) == rl + r0 + d by { assert s * ((1.0 - q) * (rl + r0)) == (s * (1.0 - q)) * (rl + r0); }
    BelowRatio(s, rl + r0 + d, rl + r0 - d);
  }

  /** The solver gives up exactly on a load of half an ohm or less, says that nothing is needed exactly on any other
      that is flat already or nearly all reactance, and solves the rest. */
  lemma OutcomeIff(sqrt: real -> real, r0: real, rl: real, xl: real, flat: bool)
    requires 0.0 < r0
    ensures var r := Calc(sqrt, r0, rl, xl, flat);
      && (r.Hopeless? <==> rl <= 0.5)
      && (r.NotNeeded? <==> 0.5 < rl && (flat || 100.0 * rl <= xl))
      && (r.Solved? <==> 0.5 < rl && !flat && xl < 100.0 * rl)
      && (r.Solved? ==> |r.networks| == if NearReference(r0, rl) then 1 else
                                        if rl < r0 && rl * rl + xl * xl > r0 * rl then 4 else 2)
  {
    if 0.5 < rl { QuotientAbove(rl, xl); }
    if Calc(sqrt, r0, rl, xl, flat).Solved? { NetworkCount(sqrt, r0, rl, xl, flat); }
  }

  lemma NetworkCount(sqrt: real -> real, r0: real, rl: real, xl: real, flat: bool)
    requires 0.0 < r0 && Calc(sqrt, r0, rl, xl, flat).Solved?
    ensures |Calc(sqrt, r0, rl, xl, flat).networks| ==
            if NearReference(r0, rl) then 1 else if rl < r0 && rl * rl + xl * xl > r0 * rl then 4 else 2
  {
    hide Roots, SeriesFor, ShuntFor, HiA, HiB, HiC, LoB, LoC;
  }

  lemma QuotientAbove(rl: real, xl: real)
    requires 0.0 < rl
    ensures xl / rl >= 100.0 <==> 100.0 * rl <= xl
  {
    var q := xl / rl;
    assert q * rl == xl;
    assert (q - 100.0) * rl == xl - 100.0 * rl;
    Signs(q - 100.0, rl);
    Signs(100.0 - q, rl);
  }

  /** Near the reference the answer is one network with a series reactance only, and behind it the source sees a pure
      resistance with a standing-wave ratio below 1.1. */
  lemma OneReactanceAnswer(sqrt: real -> real, r0: real, rl: real, xl: real, flat: bool)
    requires 0.0 < r0 && 0.5 < rl && !flat && xl < 100.0 * rl && NearReference(r0, rl)
    ensures var r := Calc(sqrt, r0, rl, xl, flat);
      && r.Solved? && |r.networks| == 1 && r.networks[0].xps == 0.0 && r.networks[0].xpl == 0.0
      && var seen := Transform(r.networks[0], Complex(rl, xl));
         seen.im == 0.0 && 0.0 < seen.re && ResistiveSwr(r0, seen.re) < 1.1
  {
    OutcomeIff(sqrt, r0, rl, xl, flat);
    SingleReactance(r0, rl, xl);
    hide ResistiveSwr;
  }

  lemma BelowRatio(s: real, a: real, b: real)
    requires s * b == a && 0.0 < b && a < 1.1 * b
    ensures s < 1.1
  {
    Signs(s - 1.1, b);
  }

  function Over(x: real, s: Complex): real
    requires s != Zero
  {
    NormPositive(s);
    hide Complex.Norm2;
    x / s.Norm2()
  }

  lemma OverTimes(x: real, s: Complex)
    requires s != Zero
    ensures 0.0 < s.Norm2() && Over(x, s) * s.Norm2() == x
  {
    NormPositive(s);
    hide Complex.Norm2;
  }

  lemma NormPositive(z: Complex)
    requires z != Zero
    ensures 0.0 < z.Norm2()
  {
    assert z.Norm2() == Product(z.re, z.re) + Product(z.im, z.im);
    hide Product;
    SquareSign(z.re);
    SquareSign(z.im);
  }

  /** Load resistance and reactance from the measured reflection: 2 z re / l - z and -2 z im / l for the
      squared length l of 1 - gamma = re + j im, the resistance without its sign. */
  function Resistance(gamma: Complex, z0: real): real
    requires gamma != One
  {
    var r := Over(2.0 * z0 * (1.0 - gamma.re), One.Sub(gamma)) - z0;
    if r < 0.0 then -r else r
  }

  function Reactance(gamma: Complex, z0: real): real
    requires gamma != One
  {
    Over(-2.0 * z0 * (0.0 - gamma.im), One.Sub(gamma))
  }

  lemma ImpedanceParts(gamma: Complex, z0: real) returns (re: real, im: real)
    requires gamma != One
    ensures Resistance(gamma, z0) == (if re < 0.0 then -re else re) && Reactance(gamma, z0) == im
    ensures var s := One.Sub(gamma);
      0.0 < s.Norm2() && (re + z0) * s.Norm2() == 2.0 * z0 * (1.0 - gamma.re) &&
      im * s.Norm2() == -2.0 * z0 * (0.0 - gamma.im)
  {
    hide Complex.Norm2;
    var x, y, s := 2.0 * z0 * (1.0 - gamma.re), -2.0 * z0 * (0.0 - gamma.im), One.Sub(gamma);
    re, im := Over(x, s) - z0, Over(y, s);
    OverTimes(x, s);
    OverTimes(y, s);
    hide Over;
  }

  /** They are the impedance z0 (1 + gamma) / (1 - gamma) exactly for a passive load. */
  lemma ImpedanceIff(gamma: Complex, z0: real)
    requires gamma != One && 0.0 < z0
    ensures Complex(Resistance(gamma, z0), Reactance(gamma, z0)) == Quot(One.Add(gamma).Scale(z0), One.Sub(gamma))
            <==> gamma.Norm2() <= 1.0
  {
    hide Resistance, Reactance, Quot, Complex.Norm2, Complex.Mul;
    var re, im := ImpedanceParts(gamma, z0);
    var s := One.Sub(gamma);
    ImpedanceEquations(gamma, z0, re, im);
    QuotIs(One.Add(gamma).Scale(z0), s, Complex(re, im));
    PassiveResistance(gamma, z0, re);
    SignOf(re, s.Norm2(), z0, 1.0 - gamma.Norm2());
  }

  lemma PassiveResistance(gamma: Complex, z0: real, re: real)
    requires (re + z0) * One.Sub(gamma).Norm2() == 2.0 * z0 * (1.0 - gamma.re)
    ensures re * One.Sub(gamma).Norm2() == z0 * (1.0 - gamma.Norm2())
  {
    assert One.Sub(gamma).Norm2() == 1.0 - 2.0 * gamma.re + gamma.Norm2();
  }

  lemma SignOf(re: real, l: real, z0: real, m: real)
    requires 0.0 < l && 0.0 < z0 && re * l == z0 * m
    ensures re < 0.0 <==> m < 0.0
  {
    Signs(-re, l); Signs(re, l);
    Signs(z0, -m); Signs(z0, m);
    if m == 0.0 { assert z0 * m == 0.0; }
    if re == 0.0 { assert re * l == 0.0; }
  }

  lemma ImpedanceEquations(gamma: Complex, z0: real, re: real, im: real)
    requires gamma != One
    requires var s := One.Sub(gamma);
      (re + z0) * s.Norm2() == 2.0 * z0 * s.re && im * s.Norm2() == -2.0 * z0 * s.im
    ensures Complex(re, im).Mul(One.Sub(gamma)) == One.Add(gamma).Scale(z0)
  {
    var s := One.Sub(gamma);
    var l := s.Norm2();
    NormZero(s);
    ImpedanceReal(re, im, s.re, s.im, z0, l);
    ImpedanceImaginary(re, im, s.re, s.im, z0, l);
  }

  lemma ImpedanceReal(re: real, im: real, x: real, y: real, z0: real, l: real)
    requires l == x * x + y * y && l != 0.0
    requires (re + z0) * l == 2.0 * z0 * x && im * l == -2.0 * z0 * y
    ensures re * x - im * y == 2.0 * z0 - z0 * x
  {
    var u := (re + z0) * x - im * y;
    assert u * l == ((re + z0) * l) * x - (im * l) * y;
    assert (2.0 * z0 * x) * x - (-2.0 * z0 * y) * y == (2.0 * z0) * l;
    CancelReal(u, 2.0 * z0, l);
  }

  lemma ImpedanceImaginary(re: real, im: real, x: real, y: real, z0: real, l: real)
    requires l == x * x + y * y && l != 0.0
    requires (re + z0) * l == 2.0 * z0 * x && im * l == -2.0 * z0 * y
    ensures re * y + im * x == -z0 * y
  {
    var v := (re + z0) * y + im * x;
    assert v * l == ((re + z0) * l) * y + (im * l) * x;
    assert (2.0 * z0 * x) * y + (-2.0 * z0 * y) * x == 0.0;
    CancelReal(v, 0.0, l);
  }

  // ---- from the reading to the networks ----

  /** The load's standing-wave ratio (1 + x) / (1 - x) is at most 1.1; beyond a reflection of 0.99 it counts as
      infinite. */
  function IsFlat(sqrt: real -> real, gamma: Complex): bool {
    var x := sqrt(gamma.Norm2());
    x <= 0.99 && (1.0 + x) / (1.0 - x) <= 1.1
  }

  lemma FlatIff(sqrt: real -> real, gamma: Complex)
    requires SquareRoot(sqrt)
    ensures IsFlat(sqrt, gamma) <==> 441.0 * gamma.Norm2() <= 1.0
  {
    NormNonnegative(gamma);
    var x := sqrt(gamma.Norm2());
    FlatReflection(x);
    FlatSquare(x);
  }

  lemma NormNonnegative(z: Complex)
    ensures 0.0 <= z.Norm2()
  {
    if z != Zero { NormPositive(z); }
  }

  lemma FlatReflection(x: real)
    requires 0.0 <= x
    ensures x <= 0.99 && (1.0 + x) / (1.0 - x) <= 1.1 <==> 21.0 * x <= 1.0
  {
    if x <= 0.99 {
      var q := (1.0 + x) / (1.0 - x);
      assert q * (1.0 - x) == 1.0 + x;
      assert (q - 1.1) * (1.0 - x) == 2.1 * x - 0.1;
      Signs(q - 1.1, 1.0 - x);
      Signs(1.1 - q, 1.0 - x);
    }
  }

  lemma FlatSquare(x: real)
    requires 0.0 <= x
    ensures 21.0 * x <= 1.0 <==> 441.0 * (x * x) <= 1.0
  {
    assert 441.0 * (x * x) - 1.0 == (21.0 * x - 1.0) * (21.0 * x + 1.0);
    Signs(21.0 * x - 1.0, 21.0 * x + 1.0);
    Signs(1.0 - 21.0 * x, 21.0 * x + 1.0);
  }

  function Load(gamma: Complex, z0: real): Complex { Quot(One.Add(gamma).Scale(z0), One.Sub(gamma)) }

  /** The solver on a reading: behind every network it returns for a passive load, the source sees a pure resistance
      with a standing-wave ratio below 1.1; where it says that nothing is needed, the reading is flat already or the
      load is a hundred times more inductive than resistive. */
  method MatchReading(sqrt: real -> real, gamma: Complex, z0: real) returns (r: Outcome)
    requires SquareRoot(sqrt) && gamma != One && gamma.Norm2() <= 1.0 && 0.0 < z0
    ensures r.Solved? ==> r.networks != [] && forall n :: n in r.networks ==> Serves(n, gamma, z0)
    ensures r.Hopeless? <==> Load(gamma, z0).re <= 0.5
    ensures r.NotNeeded? <==> 0.5 < Load(gamma, z0).re &&
                              (441.0 * gamma.Norm2() <= 1.0 || 100.0 * Load(gamma, z0).re <= Load(gamma, z0).im)
  {
    hide SquareRoot, Calc, IsFlat, Resistance, Reactance, Load, Serves;
    var rl, xl, flat := Resistance(gamma, z0), Reactance(gamma, z0), IsFlat(sqrt, gamma);
    r := LcMatchCalc(sqrt, z0, rl, xl, flat);
    LoadIs(gamma, z0);
    FlatIff(sqrt, gamma);
    OutcomeIff(sqrt, z0, rl, xl, flat);
    if r.Solved? { AllServe(sqrt, gamma, z0, flat); }
  }

  ghost predicate Serves(n: Network, gamma: Complex, z0: real)
    requires 0.0 < z0
  {
    var seen := Transform(n, Load(gamma, z0));
    seen.im == 0.0 && 0.0 < seen.re && ResistiveSwr(z0, seen.re) < 1.1
  }

  lemma LoadIs(gamma: Complex, z0: real)
    requires gamma != One && 0.0 < z0 && gamma.Norm2() <= 1.0
    ensures Load(gamma, z0) == Complex(Resistance(gamma, z0), Reactance(gamma, z0))
  {
    hide Resistance, Reactance, Quot;
    ImpedanceIff(gamma, z0);
  }

  lemma AllServe(sqrt: real -> real, gamma: Complex, z0: real, flat: bool)
    requires SquareRoot(sqrt) && gamma != One && gamma.Norm2() <= 1.0 && 0.0 < z0
    requires Calc(sqrt, z0, Resistance(gamma, z0), Reactance(gamma, z0), flat).Solved?
    ensures var r := Calc(sqrt, z0, Resistance(gamma, z0), Reactance(gamma, z0), flat);
            r.networks != [] && forall n :: n in r.networks ==> Serves(n, gamma, z0)
  {
    hide SquareRoot, Calc, Resistance, Reactance, Load, ResistiveSwr, Transform, IsL;
    var rl, xl := Resistance(gamma, z0), Reactance(gamma, z0);
    LoadIs(gamma, z0);
    OutcomeIff(sqrt, z0, rl, xl, flat);
    if NearReference(z0, rl) {
      OneReactanceAnswer(sqrt, z0, rl, xl, flat);
    } else {
      QuotientAbove(rl, xl);
      ReturnedMatch(sqrt, z0, rl, xl, flat);
      PerfectSwr(z0);
    }
  }

  lemma PerfectSwr(r0: real)
    requires 0.0 < r0
    ensures ResistiveSwr(r0, r0) == 1.0
  {}
}
