/** The bounded-denominator fraction search behind every divider of the clock generator
    (si5351.c, approximate_fraction): a continued-fraction walk on two 32-bit registers. */
module Fraction {
  import opened Arithmetic

  /** 20-bit register limit on a divider's denominator (si5351.c:266). */
  const MAX_DENOMINATOR: uint32 := 0xF_FFFF

  /** How far p/q is from the target num/den, scaled by q*den: |q*num - p*den|. */
  function Residual(num: int, den: int, p: int, q: int): nat {
    Abs(q * num - p * den)
  }

  /** p/q is at least as close, in residual, as every fraction whose denominator is in 1..max. */
  ghost predicate BestApproximation(num: int, den: int, max: int, p: int, q: int) {
    forall x, y :: 1 <= y <= max ==> Residual(num, den, p, q) <= Residual(num, den, x, y)
  }

  /** The state of the walk at any point: the two convergents p0/q0 and p1/q1 are neighbours
      (determinant one) and the two remainders tie them to the target. */
  ghost predicate Walk(target: (int, int), num: int, denom: int, p0: int, q0: int, p1: int, q1: int) {
    && 0 <= num && 0 <= denom && 0 <= p0 && 0 <= q0 && 0 <= p1 && 0 <= q1
    && p1 * q0 - p0 * q1 == 1
    && target.0 == num * p1 + denom * p0
    && target.1 == num * q1 + denom * q0
  }

  /** The remainders are the residuals of the two convergents, one from below and one from above. */
  lemma WalkResiduals(t: (int, int), num: int, denom: int, p0: int, q0: int, p1: int, q1: int)
    requires Walk(t, num, denom, p0, q0, p1, q1)
    ensures q0 * t.0 - p0 * t.1 == num
    ensures p1 * t.1 - q1 * t.0 == denom
  {
    calc {
      q0 * t.0 - p0 * t.1;
      q0 * (num * p1 + denom * p0) - p0 * (num * q1 + denom * q0);
      num * (p1 * q0 - p0 * q1);
      num;
    }
    calc {
      p1 * t.1 - q1 * t.0;
      p1 * (num * q1 + denom * q0) - q1 * (num * p1 + denom * p0);
      denom * (p1 * q0 - p0 * q1);
      denom;
    }
  }

  lemma WalkStart(n: int, d: int)
    requires 0 <= n && 0 <= d
    ensures Walk((n, d), n, d, 0, 1, 1, 0)
  {}

  lemma Remainders(t: (int, int), num: int, denom: int, p0: int, q0: int, p1: int, q1: int)
    requires Walk(t, num, denom, p0, q0, p1, q1)
    ensures Residual(t.0, t.1, p0, q0) == num && Residual(t.0, t.1, p1, q1) == denom
  {
    WalkResiduals(t, num, denom, p0, q0, p1, q1);
  }

  /** Taking `a` steps on the upper register keeps the walk. */
  lemma StepUpper(t: (int, int), num: int, denom: int, p0: int, q0: int, p1: int, q1: int, a: int)
    requires Walk(t, num, denom, p0, q0, p1, q1)
    requires 0 <= a && 0 <= denom - a * num
    ensures Walk(t, num, denom - a * num, p0, q0, p1 + a * p0, q1 + a * q0)
  {
    assert (p1 + a * p0) * q0 - p0 * (q1 + a * q0) == p1 * q0 - p0 * q1;
    assert num * (p1 + a * p0) + (denom - a * num) * p0 == num * p1 + denom * p0;
    assert num * (q1 + a * q0) + (denom - a * num) * q0 == num * q1 + denom * q0;
  }

  /** Taking `a` steps on the lower register keeps the walk. */
  lemma StepLower(t: (int, int), num: int, denom: int, p0: int, q0: int, p1: int, q1: int, a: int)
    requires Walk(t, num, denom, p0, q0, p1, q1)
    requires 0 <= a && 0 <= num - a * denom
    ensures Walk(t, num - a * denom, denom, p0 + a * p1, q0 + a * q1, p1, q1)
  {
    assert p1 * (q0 + a * q1) - (p0 + a * p1) * q1 == p1 * q0 - p0 * q1;
    assert (num - a * denom) * p1 + denom * (p0 + a * p1) == num * p1 + denom * p0;
    assert (num - a * denom) * q1 + denom * (q0 + a * q1) == num * q1 + denom * q0;
  }

  /** A matrix of determinant one is inverted by its adjugate. */
  lemma Adjugate(p0: int, q0: int, p1: int, q1: int, x: int, y: int)
    requires p1 * q0 - p0 * q1 == 1
    ensures (p1 * y - q1 * x) * p0 + (q0 * x - p0 * y) * p1 == x
    ensures (p1 * y - q1 * x) * q0 + (q0 * x - p0 * y) * q1 == y
  {
    assert (p1 * y - q1 * x) * p0 + (q0 * x - p0 * y) * p1 == (p1 * q0 - p0 * q1) * x;
    assert (p1 * y - q1 * x) * q0 + (q0 * x - p0 * y) * q1 == (p1 * q0 - p0 * q1) * y;
  }

  lemma Regroup(i: int, j: int, p0: int, q0: int, p1: int, q1: int, n: int, d: int)
    ensures (i * q0 + j * q1) * n - (i * p0 + j * p1) * d == i * (q0 * n - p0 * d) - j * (p1 * d - q1 * n)
  {}

  /** Any pair (x, y) is an integer combination i*(p0,q0) + j*(p1,q1) of two neighbours. */
  lemma Combination(t: (int, int), num: int, denom: int, p0: int, q0: int, p1: int, q1: int, x: int, y: int)
    returns (i: int, j: int)
    requires Walk(t, num, denom, p0, q0, p1, q1)
    ensures x == i * p0 + j * p1 && y == i * q0 + j * q1
    ensures y * t.0 - x * t.1 == i * num - j * denom
  {
    Adjugate(p0, q0, p1, q1, x, y);
    WalkResiduals(t, num, denom, p0, q0, p1, q1);
    hide Walk;
    i := p1 * y - q1 * x;
    j := q0 * x - p0 * y;
    Regroup(i, j, p0, q0, p1, q1, t.0, t.1);
  }

  /** A combination closer to the target than the kept convergent needs a denominator past the next one. */
  lemma CloserIsLarger(rem: int, big: int, a: int, i: int, j: int, kept: int, other: int)
    requires 0 < rem < big && 0 <= kept && 0 <= other && a * rem <= big
    requires Abs(i * rem - j * big) < rem
    requires 1 <= i * kept + j * other
    ensures i * kept + j * other >= other + a * kept
  {
    if j == 0 {
      SmallMultiple(i, rem);
    } else if j > 0 {
      MulMono(1, j, big);
      QuotientBelow(big, rem, a, i);
      MulMono(a, i, kept);
      MulMono(1, j, other);
    } else {
      MulMono(j, -1, big);
      NegativeFactor(i, rem);
      MulMono(i, 0, kept);
      MulMono(j, 0, other);
    }
  }

  /** Stopping on the lower register: the next denominator would pass max, so nothing allowed is closer. */
  lemma LowerIsBest(t: (int, int), num: int, denom: int, p0: int, q0: int, p1: int, q1: int, a: int, max: int)
    requires Walk(t, num, denom, p0, q0, p1, q1)
    requires 0 < num < denom && 0 <= a && a * num <= denom && q1 + a * q0 > max
    ensures BestApproximation(t.0, t.1, max, p0, q0)
  {
    forall x, y | 1 <= y <= max
      ensures Residual(t.0, t.1, p0, q0) <= Residual(t.0, t.1, x, y)
    {
      WalkResiduals(t, num, denom, p0, q0, p1, q1);
      var i, j := Combination(t, num, denom, p0, q0, p1, q1, x, y);
      if Abs(i * num - j * denom) < num {
        CloserIsLarger(num, denom, a, i, j, q0, q1);
      }
    }
  }

  /** Stopping on the upper register, symmetrically. */
  lemma UpperIsBest(t: (int, int), num: int, denom: int, p0: int, q0: int, p1: int, q1: int, a: int, max: int)
    requires Walk(t, num, denom, p0, q0, p1, q1)
    requires 0 < denom < num && 0 <= a && a * denom <= num && q0 + a * q1 > max
    ensures BestApproximation(t.0, t.1, max, p1, q1)
  {
    forall x, y | 1 <= y <= max
      ensures Residual(t.0, t.1, p1, q1) <= Residual(t.0, t.1, x, y)
    {
      WalkResiduals(t, num, denom, p0, q0, p1, q1);
      var i, j := Combination(t, num, denom, p0, q0, p1, q1, x, y);
      if Abs(j * denom - i * num) < denom {
        CloserIsLarger(denom, num, a, j, i, q1, q0);
      }
    }
  }

  lemma SmallMultiple(k: int, n: int)
    requires 0 < n && Abs(k * n) < n
    ensures k == 0
  {
    if k >= 1 { MulMono(1, k, n); } else if k <= -1 { MulMono(k, -1, n); }
  }

  lemma NegativeFactor(k: int, n: int)
    requires 0 < n && k * n < 0
    ensures k < 0
  {
    if k >= 0 { MulMono(0, k, n); }
  }

  /** k*n > m - n puts k at or above any a with a*n <= m. */
  lemma QuotientBelow(m: int, n: int, a: int, k: int)
    requires 0 < n && a * n <= m && k * n > m - n
    ensures k >= a
  {
    if k <= a - 1 { MulMono(k, a - 1, n); }
  }

  /** A determinant of one leaves the two numbers no common factor but one. */
  lemma NeighboursAreCoprime(p: int, q: int, r: int, s: int, g: int, u: int, v: int)
    requires p * s - r * q == 1 || p * s - r * q == -1
    requires 0 < g && p == g * u && q == g * v
    ensures g == 1
  {
    var k := u * s - r * v;
    assert g * k == p * s - r * q;
    if g >= 2 {
      if k >= 1 { MulMono(1, k, g); } else if k <= -1 { MulMono(k, -1, g); }
    }
  }

  /** p and q have no common factor above one. */
  ghost predicate Coprime(p: int, q: int) {
    forall g, u, v :: 0 < g && p == g * u && q == g * v ==> g == 1
  }

  lemma RegistersAreCoprime(t: (int, int), num: int, denom: int, p0: int, q0: int, p1: int, q1: int)
    requires Walk(t, num, denom, p0, q0, p1, q1)
    ensures Coprime(p0, q0) && Coprime(p1, q1)
  {
    forall g, u, v | 0 < g && p0 == g * u && q0 == g * v ensures g == 1 {
      NeighboursAreCoprime(p0, q0, p1, q1, g, u, v);
    }
    forall g, u, v | 0 < g && p1 == g * u && q1 == g * v ensures g == 1 {
      NeighboursAreCoprime(p1, q1, p0, q0, g, u, v);
    }
  }

  lemma CoprimeEqual(p: int, q: int)
    requires Coprime(p, q) && 1 <= q
    ensures p == q ==> p == 1
  {
    if p == q { assert p == p * 1 && q == p * 1; }
  }

  /** While a remainder is positive its registers are bounded by the target: nothing wraps. */
  lemma UpperBound(t: (int, int), num: int, denom: int, p0: int, q0: int, p1: int, q1: int)
    requires Walk(t, num, denom, p0, q0, p1, q1) && 1 <= num
    ensures q1 <= t.1 && p1 <= t.0 && num * q1 <= t.1
  {
    MulMono(1, num, q1); MulMono(1, num, p1);
    MulMono(0, denom, q0); MulMono(0, denom, p0);
  }

  lemma LowerBound(t: (int, int), num: int, denom: int, p0: int, q0: int, p1: int, q1: int)
    requires Walk(t, num, denom, p0, q0, p1, q1) && 1 <= denom
    ensures q0 <= t.1 && p0 <= t.0 && denom * q0 <= t.1
  {
    MulMono(1, denom, q0); MulMono(1, denom, p0);
    MulMono(0, num, q1); MulMono(0, num, p1);
  }

  /** The C quotient of two unsigned registers. */
  function Quotient(m: nat, n: nat): (a: nat)
    requires 0 < n
    ensures a <= m && a * n <= m < a * n + n
    ensures n <= m ==> 1 <= a
  {
    MulMono(1, n, m / n);
    m / n
  }

  function Times(a: nat, b: nat): nat {
    MulMono(0, a, b);
    a * b
  }

  function Remainder(m: nat, n: nat): (r: nat)
    requires 0 < n
    ensures r < n && m == Times(Quotient(m, n), n) + r
  {
    m - Times(Quotient(m, n), n)
  }

  lemma CoprimeZeroOne()
    ensures Coprime(0, 1)
  {
    forall g, u, v | 0 < g && 0 == g * u && 1 == g * v ensures g == 1 {
      if g >= 2 {
        if v >= 1 { MulMono(1, v, g); } else { MulMono(v, 0, g); }
      }
    }
  }

  /** What the caller gets: a reduced fraction within the denominator limit that nothing beats. */
  ghost predicate Answer(n: int, d: int, max: int, p: int, q: int) {
    && 0 <= p <= n && 1 <= q <= max && q <= d
    && Coprime(p, q)
    && BestApproximation(n, d, max, p, q)
    && (Residual(n, d, p, q) == 0 || Residual(n, d, p, q) * (max + 1) <= d)
    && (n <= d ==> p <= q)
    && (p == q ==> p == 1)
  }

  /** The lower register when it hits the target exactly. */
  lemma ExactLower(t: (int, int), denom: int, p0: int, q0: int, p1: int, q1: int, max: int)
    requires Walk(t, 0, denom, p0, q0, p1, q1)
    requires p0 <= t.0 && 1 <= q0 <= max && q0 <= t.1 && (t.0 <= t.1 ==> p0 <= q0)
    ensures Answer(t.0, t.1, max, p0, q0)
  {
    WalkResiduals(t, 0, denom, p0, q0, p1, q1);
    RegistersAreCoprime(t, 0, denom, p0, q0, p1, q1);
    CoprimeEqual(p0, q0);
  }

  lemma ExactUpper(t: (int, int), num: int, p0: int, q0: int, p1: int, q1: int, max: int)
    requires Walk(t, num, 0, p0, q0, p1, q1)
    requires p1 <= t.0 && 1 <= q1 <= max && q1 <= t.1 && (t.0 <= t.1 ==> p1 <= q1)
    ensures Answer(t.0, t.1, max, p1, q1)
  {
    WalkResiduals(t, num, 0, p0, q0, p1, q1);
    RegistersAreCoprime(t, num, 0, p0, q0, p1, q1);
    CoprimeEqual(p1, q1);
  }

  /** A next denominator past max leaves a remainder of at most den / (max + 1). */
  lemma NumSmall(t: (int, int), num: int, denom: int, p0: int, q0: int, p1: int, q1: int, a: int, max: int)
    requires Walk(t, num, denom, p0, q0, p1, q1) && 0 <= denom
    requires 0 < num && 0 <= a && a * num <= denom && q1 + a * q0 > max
    ensures num * (max + 1) <= t.1
  {
    hide Walk;
    StepUpper(t, num, denom, p0, q0, p1, q1, a);
    UpperBound(t, num, denom - a * num, p0, q0, p1 + a * p0, q1 + a * q0);
    MulMono(max + 1, q1 + a * q0, num);
  }

  lemma DenomSmall(t: (int, int), num: int, denom: int, p0: int, q0: int, p1: int, q1: int, a: int, max: int)
    requires Walk(t, num, denom, p0, q0, p1, q1) && 0 <= num
    requires 0 < denom && 0 <= a && a * denom <= num && q0 + a * q1 > max
    ensures denom * (max + 1) <= t.1
  {
    hide Walk;
    StepLower(t, num, denom, p0, q0, p1, q1, a);
    LowerBound(t, num - a * denom, denom, p0 + a * p1, q0 + a * q1, p1, q1);
    MulMono(max + 1, q0 + a * q1, denom);
  }

  lemma CloseEnough(t: (int, int), rem: nat, max: int, p: int, q: int)
    requires Residual(t.0, t.1, p, q) == rem && rem * (max + 1) <= t.1
    requires 0 <= p <= t.0 && 1 <= q <= max && q <= t.1 && (t.0 <= t.1 ==> p <= q)
    requires Coprime(p, q) && BestApproximation(t.0, t.1, max, p, q)
    ensures Answer(t.0, t.1, max, p, q)
  {
    hide BestApproximation;
    hide Residual;
    CoprimeEqual(p, q);
  }

  /** The lower register when the upper one would outgrow max. */
  lemma StopLower(t: (int, int), num: int, denom: int, p0: int, q0: int, p1: int, q1: int, a: int, max: int)
    requires Walk(t, num, denom, p0, q0, p1, q1)
    requires 0 <= p0 <= t.0 && 1 <= q0 <= max && q0 <= t.1 && (t.0 <= t.1 ==> p0 <= q0)
    requires 0 < num < denom && 0 <= a && 0 <= q0 && Times(a, num) <= denom && q1 + Times(a, q0) > max
    ensures Answer(t.0, t.1, max, p0, q0)
  {
    hide Walk, Answer, BestApproximation, Coprime, Residual;
    LowerIsBest(t, num, denom, p0, q0, p1, q1, a, max);
    RegistersAreCoprime(t, num, denom, p0, q0, p1, q1);
    Remainders(t, num, denom, p0, q0, p1, q1);
    NumSmall(t, num, denom, p0, q0, p1, q1, a, max);
    CloseEnough(t, num, max, p0, q0);
  }

  /** And the other way round. */
  lemma StopUpper(t: (int, int), num: int, denom: int, p0: int, q0: int, p1: int, q1: int, a: int, max: int)
    requires Walk(t, num, denom, p0, q0, p1, q1)
    requires 0 <= p1 <= t.0 && 1 <= q1 <= max && q1 <= t.1 && (t.0 <= t.1 ==> p1 <= q1)
    requires 0 < denom < num && 0 <= a && 0 <= q1 && Times(a, denom) <= num && q0 + Times(a, q1) > max
    ensures Answer(t.0, t.1, max, p1, q1)
  {
    hide Walk, Answer, BestApproximation, Coprime, Residual;
    UpperIsBest(t, num, denom, p0, q0, p1, q1, a, max);
    RegistersAreCoprime(t, num, denom, p0, q0, p1, q1);
    Remainders(t, num, denom, p0, q0, p1, q1);
    DenomSmall(t, num, denom, p0, q0, p1, q1, a, max);
    CloseEnough(t, denom, max, p1, q1);
  }

  /** One upper half-pass: the new registers fit, the remainder shrinks, the walk goes on. */
  lemma UpperPass(t: (int, int), num: nat, denom: nat, p0: nat, q0: nat, p1: nat, q1: nat, a: nat)
    requires Walk(t, num, denom, p0, q0, p1, q1)
    requires 0 < num && a == Quotient(denom, num)
    ensures q1 + Times(a, q0) <= t.1 && p1 + Times(a, p0) <= t.0
    ensures Times(a, num) <= denom < Times(a, num) + num
    ensures Walk(t, num, denom - Times(a, num), p0, q0, p1 + Times(a, p0), q1 + Times(a, q0))
  {
    hide Walk, Quotient;
    StepUpper(t, num, denom, p0, q0, p1, q1, a);
    UpperBound(t, num, denom - Times(a, num), p0, q0, p1 + Times(a, p0), q1 + Times(a, q0));
  }

  lemma LowerPass(t: (int, int), num: nat, denom: nat, p0: nat, q0: nat, p1: nat, q1: nat, a: nat)
    requires Walk(t, num, denom, p0, q0, p1, q1)
    requires 0 < denom && a == Quotient(num, denom)
    ensures q0 + Times(a, q1) <= t.1 && p0 + Times(a, p1) <= t.0
    ensures Times(a, denom) <= num < Times(a, denom) + denom
    ensures Walk(t, num - Times(a, denom), denom, p0 + Times(a, p1), q0 + Times(a, q1), p1, q1)
  {
    hide Walk, Quotient;
    StepLower(t, num, denom, p0, q0, p1, q1, a);
    LowerBound(t, num - Times(a, denom), denom, p0 + Times(a, p1), q0 + Times(a, q1), p1, q1);
  }

  lemma TimesFacts(a: nat, p: nat, q: nat, num: nat)
    ensures p <= q ==> Times(a, p) <= Times(a, q)
    ensures 1 <= a && 1 <= q ==> 1 <= Times(a, q)
    ensures Times(a, 0) == 0 && Times(0, num) == 0 && Times(a, 1) == a
    ensures 2 <= a && 1 <= num ==> num < Times(a, num)
  {
    if p <= q { MulMono(p, q, a); }
    if 1 <= a { MulMono(1, a, q); }
    if 2 <= a { MulMono(2, a, num); }
  }

  /** The search as a recursion on its state, in unbounded arithmetic. */
  function Search(num: nat, denom: nat, p0: nat, q0: nat, p1: nat, q1: nat, max: nat): (r: (nat, nat))
    requires 0 < denom
    decreases num + denom
  {
    if num == 0 then (p0, q0) else
    var a := Quotient(denom, num);
    var denom', p1', q1' := denom - Times(a, num), p1 + Times(a, p0), q1 + Times(a, q0);
    if q1' > max then (p0, q0) else
    if denom' == 0 then (p1', q1') else
    var b := Quotient(num, denom');
    var num', p0', q0' := num - Times(b, denom'), p0 + Times(b, p1'), q0 + Times(b, q1');
    if q0' > max then (p1', q1') else
    TimesFacts(a, 0, 1, num);
    TimesFacts(b, 0, 1, denom');
    Search(num', denom', p0', q0', p1', q1', max)
  }

  lemma SearchEnds(denom: nat, p0: nat, q0: nat, p1: nat, q1: nat, max: nat)
    requires 0 < denom
    ensures Search(0, denom, p0, q0, p1, q1, max) == (p0, q0)
  {}

  /** One turn of the search. */
  lemma SearchTurn(num: nat, denom: nat, p0: nat, q0: nat, p1: nat, q1: nat, max: nat)
    requires 0 < denom && 0 < num
    ensures var r, a := Search(num, denom, p0, q0, p1, q1, max), Quotient(denom, num);
            var denom', p1', q1' := denom - Times(a, num), p1 + Times(a, p0), q1 + Times(a, q0);
      && (q1' > max ==> r == (p0, q0)) && (q1' <= max && denom' == 0 ==> r == (p1', q1'))
      && (q1' <= max && denom' > 0 ==>
            var b := Quotient(num, denom');
            var num', p0', q0' := num - Times(b, denom'), p0 + Times(b, p1'), q0 + Times(b, q1');
            r == if q0' > max then (p1', q1') else Search(num', denom', p0', q0', p1', q1', max))
  {
    hide Quotient, Times;
  }

  function Approximation(n: nat, d: nat, max: nat): (r: (nat, nat))
    requires 1 <= d
  {
    Search(n, d, 0, 1, 1, 0, max)
  }

  lemma SearchStarts(n: nat, d: nat, max: nat)
    requires 1 <= d
    ensures Approximation(n, d, max) == Search(n, d, 0, 1, 1, 0, max)
  {}

  /** What every state at the head of the loop keeps besides the walk. */
  ghost predicate Head(t: (int, int), num: int, denom: int, p0: int, q0: int, p1: int, q1: int, max: int) {
    && 0 < denom && 1 <= q0 <= max && 0 <= q1 <= max && q0 <= t.1 && 0 <= p0 <= t.0
    && (num < denom || (q0 == 1 && q1 == 0))
    && (q1 == 0 && t.0 <= t.1 ==> p0 == 0 && p1 == 1 && num <= denom)
    && (t.0 <= t.1 ==> p0 <= q0 && (q1 > 0 ==> p1 <= q1))
  }

  /** It is kept by a pass of the loop that leaves through none of the exits. */
  lemma NextHead(t: (int, int), num: nat, denom: nat, p0: nat, q0: nat, p1: nat, q1: nat, max: nat, a: nat, b: nat)
    requires Walk(t, num, denom, p0, q0, p1, q1) && Head(t, num, denom, p0, q0, p1, q1, max)
    requires 0 < num && a == Quotient(denom, num) && q1 + Times(a, q0) <= max
    requires var denom' := denom - Times(a, num); 0 < denom' && b == Quotient(num, denom')
    requires q0 + Times(b, q1 + Times(a, q0)) <= max
    ensures var denom', p1', q1' := denom - Times(a, num), p1 + Times(a, p0), q1 + Times(a, q0);
            Head(t, num - Times(b, denom'), denom', p0 + Times(b, p1'), q0 + Times(b, q1'), p1', q1', max)
  {
    hide Walk, Quotient, Times;
    UpperPass(t, num, denom, p0, q0, p1, q1, a);
    TimesFacts(a, p0, q0, num);
    var denom', p1', q1' := denom - Times(a, num), p1 + Times(a, p0), q1 + Times(a, q0);
    LowerPass(t, num, denom', p0, q0, p1', q1', b);
    TimesFacts(b, p1', q1', denom');
  }

  /** Whatever state of the walk the search is in, it ends with a best approximation. */
  lemma {:induction false} SearchAnswers(t: (int, int), num: nat, denom: nat, p0: nat, q0: nat, p1: nat, q1: nat,
                                         max: nat)
    requires Walk(t, num, denom, p0, q0, p1, q1) && Head(t, num, denom, p0, q0, p1, q1, max)
    ensures var r := Search(num, denom, p0, q0, p1, q1, max); Answer(t.0, t.1, max, r.0, r.1)
    decreases num + denom
  {
    hide Walk, Answer, Quotient, Times;
    if num == 0 {
      ExactLower(t, denom, p0, q0, p1, q1, max);
      return;
    }
    var a := Quotient(denom, num);
    UpperPass(t, num, denom, p0, q0, p1, q1, a);
    TimesFacts(a, p0, q0, num);
    var denom', p1', q1' := denom - Times(a, num), p1 + Times(a, p0), q1 + Times(a, q0);
    if q1' > max {
      StopLower(t, num, denom, p0, q0, p1, q1, a, max);
      return;
    }
    if denom' == 0 {
      ExactUpper(t, num, p0, q0, p1', q1', max);
      return;
    }
    var b := Quotient(num, denom');
    LowerPass(t, num, denom', p0, q0, p1', q1', b);
    TimesFacts(b, p1', q1', denom');
    var num', p0', q0' := num - Times(b, denom'), p0 + Times(b, p1'), q0 + Times(b, q1');
    if q0' > max {
      StopUpper(t, num, denom', p0, q0, p1', q1', b, max);
      return;
    }
    NextHead(t, num, denom, p0, q0, p1, q1, max, a, b);
    SearchAnswers(t, num', denom', p0', q0', p1', q1', max);
  }

  lemma ApproximationIsBest(n: nat, d: nat, max: nat)
    requires 1 <= d && 1 <= max
    ensures var r := Approximation(n, d, max); Answer(n, d, max, r.0, r.1)
  {
    WalkStart(n, d);
    SearchAnswers((n, d), n, d, 0, 1, 1, 0, max);
  }

  /** A ratio that some denominator up to max expresses exactly is returned exactly. */
  lemma ExactWhenReducible(n: nat, d: nat, max: nat, x: int, y: int)
    requires 1 <= d && 1 <= y <= max && y * n == x * d
    ensures var r := Approximation(n, d, max); r.1 * n == r.0 * d
  {
    ApproximationIsBest(n, d, max);
    assert Residual(n, d, x, y) == 0;
  }

  /** The walk as it runs on the chip. Every product and every sum is stored in a 32-bit register, so
      the verifier shows that none of them wraps. */
  method ApproximateFraction(n: uint32, d: uint32, max: uint32) returns (rn: uint32, rd: uint32)
    requires 1 <= d && 1 <= max
    ensures (rn, rd) == Approximation(n, d, max)
    ensures Answer(n, d, max, rn, rd)
  {
    hide Walk, Answer, Quotient, Times, Search, Approximation;
    ApproximationIsBest(n, d, max);
    SearchStarts(n, d, max);
    ghost var t: (int, int) := (n, d);
    WalkStart(n, d);
    var denom: uint32, num: uint32 := d, n;
    var p0: uint32, q0: uint32, p1: uint32, q1: uint32 := 0, 1, 1, 0;
    while true
      invariant Walk(t, num, denom, p0, q0, p1, q1)
      invariant 0 < denom
      invariant Search(num, denom, p0, q0, p1, q1, max) == Approximation(n, d, max)
      decreases num + denom
    {
      if num == 0 {
        SearchEnds(denom, p0, q0, p1, q1, max);
        return p0, q0;
      }
      SearchTurn(num, denom, p0, q0, p1, q1, max);
      var a: uint32 := Quotient(denom, num);
      UpperPass(t, num, denom, p0, q0, p1, q1, a);
      TimesFacts(a, 0, 1, num);
      ghost var lower, top, bottom := denom - Times(a, num), p1 + Times(a, p0), q1 + Times(a, q0);
      var step: uint32 := Times(a, q0);
      q1 := q1 + step;
      if q1 > max {
        return p0, q0;
      }
      step := Times(a, num);
      denom := denom - step;
      step := Times(a, p0);
      p1 := p1 + step;

      if denom == 0 {
        return p1, q1;
      }
      a := Quotient(num, denom);
      assert denom == lower && p1 == top && q1 == bottom;
      assert Walk(t, num, denom, p0, q0, p1, q1);
      LowerPass(t, num, denom, p0, q0, p1, q1, a);
      TimesFacts(a, 0, 1, denom);
      ghost var rest, top0, bottom0 := num - Times(a, denom), p0 + Times(a, p1), q0 + Times(a, q1);
      step := Times(a, q1);
      q0 := q0 + step;
      if q0 > max {
        return p1, q1;
      }
      step := Times(a, denom);
      num := num - step;
      step := Times(a, p1);
      p0 := p0 + step;
      assert num == rest && p0 == top0 && q0 == bottom0;
    }
  }
}
