/** The error model the calibration undoes, and the terms computed from ideal standards (main.c, eterm_calc_es,
    eterm_calc_er, eterm_calc_et, apply_CH0_error_term, apply_CH1_error_term). */
module ErrorModel {
  import opened ComplexNumbers

  /** Directivity, source match and reflection tracking of port 1; transmission tracking and isolation. */
  datatype Box = Box(ed: Complex, es: Complex, er: Complex, et: Complex, ex: Complex) {
    /** What the instrument reads on CH0 for a true reflection. */
    function Reflect(gamma: Complex): Complex {
      ed.Add(Quot(er.Mul(gamma), One.Sub(es.Mul(gamma))))
    }

    /** What it reads on CH1 for a true transmission through a device with reflection gamma. */
    function Transmit(gamma: Complex, s21: Complex): Complex {
      ex.Add(Quot(et.Mul(s21), One.Sub(es.Mul(gamma))))
    }

    /** Open, short and signal path do not annihilate the reading. */
    ghost predicate Regular() {
      er != Zero && et != Zero && es != One && es != Zero.Sub(One)
    }
  }

  /** Source match from the raw open and short readings and the directivity. */
  function EsTerm(open: Complex, short: Complex, ed: Complex): Complex {
    var o, s := open.Sub(ed), short.Sub(ed);
    Quot(s.Add(o), o.Sub(s))
  }

  /** Reflection tracking: sign 1 from an open, -1 from a short. */
  function ErTerm(short: Complex, ed: Complex, es: Complex, sign: int): Complex {
    var s := short.Sub(ed);
    var e := if sign > 0 then Zero.Sub(es) else es;
    var er := One.Add(e).Mul(s);
    if sign < 0 then Zero.Sub(er) else er
  }

  /** Transmission tracking, stored inverted. */
  function EtTerm(thru: Complex, isoln: Complex): Complex { Quot(One, thru.Sub(isoln)) }

  /** The corrected reflection. */
  function Correct0(m: Complex, ed: Complex, es: Complex, er: Complex): Complex {
    var r := m.Sub(ed);
    Quot(r, er.Add(r.Mul(es)))
  }

  /** The corrected transmission; `enhanced` also removes the source match mismatch. */
  function Correct1(m: Complex, gamma: Complex, es: Complex, et: Complex, ex: Complex, enhanced: bool): Complex {
    var t := m.Sub(ex).Mul(et);
    if enhanced then One.Sub(es.Mul(gamma)).Mul(t) else t
  }

  /** Open and short through the box, less the directivity: x (1 - Es) = Er and y (1 + Es) = -Er. */
  lemma EsFromEquations(x: Complex, y: Complex, es: Complex, er: Complex)
    requires x.Mul(One.Sub(es)) == er && y.Mul(One.Add(es)) == Zero.Sub(er) && er != Zero
    ensures x.Sub(y) != Zero
    ensures Quot(y.Add(x), x.Sub(y)) == es
  {
    hide Complex.Mul;
    Laws(x, One, es);
    Laws(y, One, es);
    Laws(es, x, y);
    Laws(es, y, x);
    Units(es);
    Commutative(es, x.Sub(y));
    QuotIs(y.Add(x), x.Sub(y), es);
  }

  lemma ReflectLess(box: Box, gamma: Complex)
    requires One.Sub(box.es.Mul(gamma)) != Zero
    ensures box.Reflect(gamma).Sub(box.ed).Mul(One.Sub(box.es.Mul(gamma))) == box.er.Mul(gamma)
  {
    var d := One.Sub(box.es.Mul(gamma));
    QuotTimes(box.er.Mul(gamma), d);
    assert box.Reflect(gamma).Sub(box.ed) == Quot(box.er.Mul(gamma), d);
  }

  /** The three terms of the box come back exactly from ideal open, short and load. */
  lemma TermsRecovered(box: Box)
    requires box.Regular()
    ensures box.Reflect(Zero) == box.ed
    ensures EsTerm(box.Reflect(One), box.Reflect(Zero.Sub(One)), box.ed) == box.es
    ensures ErTerm(box.Reflect(Zero.Sub(One)), box.ed, box.es, -1) == box.er
  {
    var minus := Zero.Sub(One);
    assert box.es.Mul(One) == box.es && box.es.Mul(minus) == Zero.Sub(box.es) && box.es.Mul(Zero) == Zero;
    assert One.Sub(box.es) != Zero && One.Sub(Zero.Sub(box.es)) == One.Add(box.es) != Zero;
    ReflectLess(box, One);
    ReflectLess(box, minus);
    ReflectLess(box, Zero);
    assert box.er.Mul(One) == box.er && box.er.Mul(minus) == Zero.Sub(box.er) && box.er.Mul(Zero) == Zero;
    var x, y := box.Reflect(One).Sub(box.ed), box.Reflect(minus).Sub(box.ed);
    assert box.Reflect(Zero).Sub(box.ed) == Zero;
    EsFromEquations(x, y, box.es, box.er);
    assert One.Add(box.es).Mul(y) == y.Mul(One.Add(box.es));
  }

  /** The directivity put into the source-match formula decides it: only the true one gives the true term. */
  lemma EsIff(box: Box, ed: Complex)
    requires box.Regular()
    ensures EsTerm(box.Reflect(One), box.Reflect(Zero.Sub(One)), ed) == box.es <==> ed == box.ed
  {
    TermsRecovered(box);
    var x, y := box.Reflect(One), box.Reflect(Zero.Sub(One));
    DifferentReadings(box);
    assert x.Sub(ed).Sub(y.Sub(ed)) == x.Sub(y) == x.Sub(box.ed).Sub(y.Sub(box.ed));
    hide Complex.Mul, Box.Reflect, Quot;
    QuotTimes(y.Sub(ed).Add(x.Sub(ed)), x.Sub(y));
    QuotTimes(y.Sub(box.ed).Add(x.Sub(box.ed)), x.Sub(y));
  }

  /** An open and a short never read alike through a regular box. */
  lemma DifferentReadings(box: Box)
    requires box.Regular()
    ensures box.Reflect(One).Sub(box.Reflect(Zero.Sub(One))) != Zero
  {
    var minus := Zero.Sub(One);
    assert box.es.Mul(One) == box.es && box.es.Mul(minus) == Zero.Sub(box.es);
    assert One.Sub(box.es) != Zero && One.Sub(Zero.Sub(box.es)) == One.Add(box.es) != Zero;
    ReflectLess(box, One);
    ReflectLess(box, minus);
    assert box.er.Mul(One) == box.er && box.er.Mul(minus) == Zero.Sub(box.er);
    var x, y := box.Reflect(One).Sub(box.ed), box.Reflect(minus).Sub(box.ed);
    EsFromEquations(x, y, box.es, box.er);
    assert box.Reflect(One).Sub(box.Reflect(minus)) == x.Sub(y);
  }

  /** With the source match negligible, an open or a short alone gives the tracking. */
  lemma SingleStandard(box: Box)
    requires box.Regular() && box.es == Zero
    ensures ErTerm(box.Reflect(One), box.ed, Zero, 1) == box.er
    ensures ErTerm(box.Reflect(Zero.Sub(One)), box.ed, Zero, -1) == box.er
  {
    TermsRecovered(box);
    ReflectLess(box, One);
    assert box.Reflect(One).Sub(box.ed) == box.er;
  }

  /** Thru and isolation give the inverse transmission tracking. */
  lemma TrackingRecovered(box: Box)
    requires box.Regular()
    ensures box.Transmit(Zero, Zero) == box.ex
    ensures EtTerm(box.Transmit(Zero, One), box.Transmit(Zero, Zero)).Mul(box.et) == One
  {
    assert box.es.Mul(Zero) == Zero && One.Sub(Zero) == One;
    QuotIs(box.et.Mul(Zero), One, Zero);
    QuotIs(box.et.Mul(One), One, box.et);
    assert box.Transmit(Zero, One).Sub(box.Transmit(Zero, Zero)) == box.et;
    QuotTimes(One, box.et);
  }

  /** Correction inverts the reflection reading, for every box and every true value it can show. */
  lemma ReflectionCorrected(box: Box, gamma: Complex)
    requires box.er != Zero && One.Sub(box.es.Mul(gamma)) != Zero
    ensures Correct0(box.Reflect(gamma), box.ed, box.es, box.er) == gamma
  {
    var d, m := One.Sub(box.es.Mul(gamma)), box.Reflect(gamma).Sub(box.ed);
    ReflectLess(box, gamma);
    var e := box.er.Add(m.Mul(box.es));
    Laws(m, box.es, gamma);
    Laws(m, One, box.es.Mul(gamma));
    Laws(gamma, box.er, m.Mul(box.es));
    Commutative(gamma, box.er); Commutative(gamma, m.Mul(box.es)); Commutative(gamma, e);
    CorrectedDivisor(box, gamma, m, d);
    hide Complex.Mul;
    QuotIs(m, e, gamma);
  }

  /** The divisor of the correction is the tracking over 1 - Es * gamma, never zero. */
  lemma CorrectedDivisor(box: Box, gamma: Complex, m: Complex, d: Complex)
    requires box.er != Zero && d == One.Sub(box.es.Mul(gamma)) && m.Mul(d) == box.er.Mul(gamma)
    ensures box.er.Add(m.Mul(box.es)) != Zero
  {
    hide Complex.Mul;
    var e := box.er.Add(m.Mul(box.es));
    Laws(d, box.er, m.Mul(box.es));
    Laws(d, m, box.es);
    Laws(box.er, One, box.es.Mul(gamma));
    Laws(box.er, gamma, box.es);
    Commutative(gamma, box.es);
    assert d.Mul(e) == box.er;
    Units(d);
  }

  /** And the transmission reading, when the stored tracking is the inverse of the box's. */
  lemma TransmissionCorrected(box: Box, gamma: Complex, s21: Complex, inverse: Complex)
    requires inverse.Mul(box.et) == One && One.Sub(box.es.Mul(gamma)) != Zero
    ensures Correct1(box.Transmit(gamma, s21), gamma, box.es, inverse, box.ex, true) == s21
  {
    var d := One.Sub(box.es.Mul(gamma));
    var t := Quot(box.et.Mul(s21), d);
    QuotTimes(box.et.Mul(s21), d);
    assert box.Transmit(gamma, s21).Sub(box.ex) == t;
    Laws(d, t, inverse);
    Commutative(d, t);
    Laws(inverse, box.et, s21);
    Commutative(inverse, box.et.Mul(s21));
    Laws(s21, s21, s21);
    hide Complex.Mul;
  }

  /** Without the enhanced response it is right exactly when the device does not reflect into the source
      mismatch, or nothing is transmitted. */
  lemma PlainTransmissionIff(box: Box, gamma: Complex, s21: Complex, inverse: Complex)
    requires inverse.Mul(box.et) == One && One.Sub(box.es.Mul(gamma)) != Zero
    ensures Correct1(box.Transmit(gamma, s21), gamma, box.es, inverse, box.ex, false) == s21
            <==> (box.es.Mul(gamma) == Zero || s21 == Zero)
  {
    var d := One.Sub(box.es.Mul(gamma));
    var c := Correct1(box.Transmit(gamma, s21), gamma, box.es, inverse, box.ex, false);
    TransmissionCorrected(box, gamma, s21, inverse);
    assert d.Mul(c) == s21;
    Laws(c, One, box.es.Mul(gamma));
    Commutative(c, d); Commutative(c, box.es.Mul(gamma));
    Laws(c, c, c);
    hide Complex.Mul;
    if c == s21 {
      if s21 != Zero { ProductZero(box.es.Mul(gamma), s21); }
    } else if s21 == Zero {
      ProductZero(c, d);
    }
  }
}
