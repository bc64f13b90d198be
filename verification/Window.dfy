/** The measurement window (main.c, dsp.c): interrupts deliver sample buffers, the main loop starts a window and
    waits until enough of them have been accumulated. */
module Window {
  import opened Arithmetic
  import opened ComplexNumbers

  const SAMPLES := 48
  const BUFFER_LEN := 2 * SAMPLES

  type Int16 = x: int | -0x8000 <= x < 0x8000

  /** A buffer holds pairs of reference and sample; the table pairs of sine and cosine. */
  type Buffer = b: seq<Int16> | |b| == BUFFER_LEN witness seq(BUFFER_LEN, i => 0)

  datatype Sums = Sums(sampS: int, sampC: int, refS: int, refC: int) {
    function Plus(that: Sums): Sums {
      Sums(sampS + that.sampS, sampC + that.sampC, refS + that.refS, refC + that.refC)
    }

    predicate Below(n: int) { -n <= sampS <= n && -n <= sampC <= n && -n <= refS <= n && -n <= refC <= n }
  }

  const ZERO := Sums(0, 0, 0, 0)

  /** One pair's contribution: smp * sin, smp * cos, ref * sin, ref * cos. */
  function Term(b: Buffer, table: Buffer, i: nat): Sums
    requires i < SAMPLES
  {
    var ref: int, smp: int, sin: int, cos: int := b[2 * i], b[2 * i + 1], table[2 * i], table[2 * i + 1];
    Sums(smp * sin, smp * cos, ref * sin, ref * cos)
  }

  /** Correlation of the first n pairs of a buffer with the table. */
  function Dot(b: Buffer, table: Buffer, n: nat): Sums
    requires n <= SAMPLES
  {
    if n == 0 then ZERO else Dot(b, table, n - 1).Plus(Term(b, table, n - 1))
  }

  /** Correlation of whole buffers. */
  function Total(bs: seq<Buffer>, table: Buffer): Sums
  {
    if bs == [] then ZERO else Total(bs[..|bs| - 1], table).Plus(Dot(bs[|bs| - 1], table, SAMPLES))
  }

  lemma ProductBelow(x: int, y: int)
    requires -0x8000 <= x < 0x8000 && -0x8000 <= y < 0x8000
    ensures -0x4000_0000 <= x * y <= 0x4000_0000
  {
    var a: int, b: int := Abs(x), Abs(y);
    assert a * b <= 0x8000 * 0x8000 by {
      assert 0x8000 * 0x8000 == a * b + a * (0x8000 - b) + (0x8000 - a) * 0x8000;
      NotNegative(a, 0x8000 - b);
    }
    NotNegative(a, b);
    assert x * y == a * b || x * y == -(a * b);
  }

  lemma TermBelow(b: Buffer, table: Buffer, i: nat)
    requires i < SAMPLES
    ensures Term(b, table, i).Below(0x4000_0000)
  {
    ProductBelow(b[2 * i + 1], table[2 * i]);
    ProductBelow(b[2 * i + 1], table[2 * i + 1]);
    ProductBelow(b[2 * i], table[2 * i]);
    ProductBelow(b[2 * i], table[2 * i + 1]);
  }

  lemma {:induction false} DotBelow(b: Buffer, table: Buffer, n: nat)
    requires n <= SAMPLES
    ensures Dot(b, table, n).Below(n * 0x4000_0000)
  {
    hide Term;
    if n > 0 {
      DotBelow(b, table, n - 1);
      TermBelow(b, table, n - 1);
    }
  }

  /** Sums of n buffers stay below n * 48 * 2^30, far inside 64 bits for any 16-bit count. */
  lemma {:induction false} TotalBelow(bs: seq<Buffer>, table: Buffer)
    ensures Total(bs, table).Below(|bs| * (SAMPLES * 0x4000_0000))
  {
    hide Dot;
    if bs != [] {
      TotalBelow(bs[..|bs| - 1], table);
      DotBelow(bs[|bs| - 1], table, SAMPLES);
    }
  }

  /** Two's complement in 64 bits. */
  function Wrap64(x: int): int { (x + TWO_63) % (2 * TWO_63) - TWO_63 }

  lemma NoWrap(x: int)
    requires -TWO_63 <= x < TWO_63
    ensures Wrap64(x) == x
  {}

  /** The difference of two 32-bit times, taken as signed. */
  function SignedDelta(now: nat, ready: nat): int
  {
    var d := (now - ready) % TWO_32;
    if d < TWO_31 then d else d - TWO_32
  }

  /** It orders times correctly across the wrap while they are less than 2^31 apart. */
  lemma DeltaIsOrder(now: nat, ready: nat)
    requires -TWO_31 <= now - ready < TWO_31
    ensures SignedDelta(now % TWO_32, ready % TWO_32) == now - ready
  {
    var k, l := now / TWO_32, ready / TWO_32;
    assert now % TWO_32 - ready % TWO_32 == now - ready - TWO_32 * (k - l);
    WrapAway(now - ready, k - l);
  }

  lemma WrapAway(d: int, m: int)
    ensures (d - TWO_32 * m) % TWO_32 == d % TWO_32
  {}

  /** ... and no further: it is their difference exactly while that fits a signed word. */
  lemma DeltaIff(now: nat, ready: nat)
    ensures SignedDelta(now % TWO_32, ready % TWO_32) == now - ready <==> -TWO_31 <= now - ready < TWO_31
  {
    if -TWO_31 <= now - ready < TWO_31 { DeltaIsOrder(now, ready); }
  }

  /** At that distance a later time counts as earlier. */
  lemma DeltaFails()
    ensures SignedDelta((5 + TWO_31) % TWO_32, 5) < 0
  {}

  // ---- the receiver ----

  /** An interrupt: its time, which half of the receive buffer is ready, and the samples in it. */
  datatype Tick = Tick(time: nat, full: bool, samples: Buffer)

  /** The buffers delivered at or after the time the window is ready. */
  function Ready(ticks: seq<Tick>, ready: nat): seq<Buffer>
  {
    if ticks == [] then []
    else Ready(ticks[..|ticks| - 1], ready) +
         if ticks[|ticks| - 1].time >= ready then [ticks[|ticks| - 1].samples] else []
  }

  /** What the accumulators hold after the given ready buffers: the first is discarded, and as many as the
      bandwidth asks for, plus one, are summed. */
  function Expected(before: Sums, ready: seq<Buffer>, table: Buffer, bandwidth: nat): Sums
  {
    if ready == [] then before else Total(ready[1..Min(|ready|, bandwidth + 2)], table)
  }

  class Receiver {
    const table: Buffer
    const rx: array<Int16>
    var bandwidth: nat
    var readyTime: nat
    var waitCount: nat
    var acc: Sums

    constructor (table: Buffer, bandwidth: nat)
      requires bandwidth + 2 < TWO_16
      ensures Valid() && fresh(rx)
    {
      this.table, this.bandwidth, readyTime, waitCount, acc := table, bandwidth, 0, 0, ZERO;
      rx := new Int16[2 * BUFFER_LEN];
    }

    predicate Valid() reads this {
      rx.Length == 2 * BUFFER_LEN && bandwidth + 2 < TWO_16 && waitCount <= bandwidth + 2 && readyTime < TWO_32
    }

    /** Adds a half of the receive buffer to the accumulators, in 64 bits. */
    method DspProcess(start: nat, ghost b: Buffer)
      requires start + BUFFER_LEN <= rx.Length && rx[start..start + BUFFER_LEN] == b
      requires acc.Below(TWO_16 * (SAMPLES * 0x4000_0000))
      modifies `acc
      ensures acc == old(acc).Plus(Dot(b, table, SAMPLES))
    {
      ghost var was := acc;
      var i := 0;
      hide Dot, Wrap64;
      NoTerms(was, b, table);
      while i < SAMPLES
        invariant i <= SAMPLES && acc == was.Plus(Dot(b, table, i))
      {
        assert rx[start..start + BUFFER_LEN][2 * i] == b[2 * i] &&
               rx[start..start + BUFFER_LEN][2 * i + 1] == b[2 * i + 1];
        DotStep(was, b, table, i);
        var ref: int, smp: int, sin: int, cos: int :=
          rx[start + 2 * i], rx[start + 2 * i + 1], table[2 * i], table[2 * i + 1];
        acc := Sums(Wrap64(acc.sampS + smp * sin), Wrap64(acc.sampC + smp * cos),
                    Wrap64(acc.refS + ref * sin), Wrap64(acc.refC + ref * cos));
        i := i + 1;
      }
    }

    /** The receive interrupt. */
    method Interrupt(now: nat, full: bool, ghost b: Buffer)
      requires Valid()
      requires rx[if full then BUFFER_LEN else 0..if full then 2 * BUFFER_LEN else BUFFER_LEN] == b
      requires 0 < waitCount < bandwidth + 2 ==> acc.Below(TWO_16 * (SAMPLES * 0x4000_0000))
      modifies `acc, `waitCount
      ensures Valid()
      ensures if Ignores(old(waitCount), SignedDelta(now % TWO_32, readyTime))
              then waitCount == old(waitCount) && acc == old(acc)
              else waitCount == old(waitCount) - 1 &&
                   acc == if old(waitCount) >= bandwidth + 2 then ZERO else old(acc).Plus(Dot(b, table, SAMPLES))
    {
      var wait := waitCount;
      if wait == 0 || SignedDelta(now % TWO_32, readyTime) < 0 { return; }
      var p := if full then BUFFER_LEN else 0;
      if wait >= bandwidth + 2 {
        acc := ZERO;
      } else {
        DspProcess(p, b);
      }
      waitCount := waitCount - 1;
    }

    static predicate Ignores(wait: nat, delta: int) { wait == 0 || delta < 0 }

    /** Begins a window `delay` ticks from now. */
    method Start(now: nat, delay: nat)
      requires Valid()
      modifies `readyTime, `waitCount
      ensures Valid() && readyTime == (now + delay) % TWO_32 && waitCount == bandwidth + 2
    {
      readyTime := (now % TWO_32 + delay) % TWO_32;
      waitCount := bandwidth + 2;
    }

    /** The receive hardware fills one half of the buffer. */
    method Fill(full: bool, samples: Buffer)
      requires Valid()
      modifies rx
      ensures rx[if full then BUFFER_LEN else 0..if full then 2 * BUFFER_LEN else BUFFER_LEN] == samples
    {
      var p := if full then BUFFER_LEN else 0;
      for i := 0 to BUFFER_LEN
        invariant rx[p..p + i] == samples[..i]
      {
        rx[p + i] := samples[i];
      }
    }

    /** A window, whatever interrupts come while it lasts: the main loop is released when bandwidth + 2 buffers
        have come after the ready time, and then the accumulators hold all of them but the first. */
    method Window(now: nat, delay: nat, ticks: seq<Tick>)
      requires Valid() && delay < TWO_31
      requires forall i :: 0 <= i < |ticks| && |Ready(ticks[..i], now + delay)| < bandwidth + 2 ==>
                 now <= ticks[i].time < now + delay + TWO_31
      modifies this, rx
      ensures Valid() && bandwidth == old(bandwidth)
      ensures var ready := Ready(ticks, now + delay);
        && waitCount == bandwidth + 2 - Min(|ready|, bandwidth + 2)
        && acc == Expected(old(acc), ready, table, bandwidth)
    {
      ghost var before, at, bw := acc, now + delay, bandwidth;
      Start(now, delay);
      hide Expected, Total, Dot, SignedDelta, Ready, Sums.Plus;
      NothingYet(before, ticks, at, table, bw);
      for i := 0 to |ticks|
        invariant Valid() && bandwidth == bw && readyTime == at % TWO_32
        invariant waitCount == bw + 2 - Min(|Ready(ticks[..i], at)|, bw + 2)
        invariant acc == Expected(before, Ready(ticks[..i], at), table, bw)
      {
        ghost var ready, tick := Ready(ticks[..i], at), ticks[i];
        OneTick(ticks, i, at);
        ExpectedBelow(before, ready, table, bw);
        ExpectedStep(before, ready, tick.samples, table, bw);
        if |ready| < bw + 2 { DeltaIsOrder(tick.time, at); }
        Fill(ticks[i].full, ticks[i].samples);
        Interrupt(ticks[i].time, ticks[i].full, tick.samples);
      }
      assert ticks[..|ticks|] == ticks;
    }

    /** A window and its reading: when every buffer that counts carries one tone with the channels in the ratio g, the
        reading is g, or there is none because the reference sum has no cosine part. */
    method Measure(now: nat, delay: nat, ticks: seq<Tick>) returns (reading: Reading)
      requires Valid() && delay < TWO_31
      requires forall i :: 0 <= i < |ticks| && |Ready(ticks[..i], now + delay)| < bandwidth + 2 ==>
                 now <= ticks[i].time < now + delay + TWO_31
      requires Ready(ticks, now + delay) != []
      modifies this, rx
      ensures Valid() && bandwidth == old(bandwidth)
      ensures forall g: Complex :: Quadrature(table) && Carry(Ready(ticks, now + delay), g) ==>
                reading == if acc.refC == 0 then NotANumber else Gamma(g)
    {
      hide Expected, CalculateGamma, Quadrature, Ready, Carry;
      ghost var before, ready := acc, Ready(ticks, now + delay);
      Window(now, delay, ticks);
      reading := CalculateGamma(acc);
      forall g: Complex | Quadrature(table) && Carry(ready, g)
        ensures reading == if acc.refC == 0 then NotANumber else Gamma(g)
      {
        CarryReads(before, ready, g);
      }
    }

    /** The buffers that count, those behind the first, carry one tone each, with the channels in the ratio g. */
    ghost predicate Carry(ready: seq<Buffer>, g: Complex)
      reads `bandwidth
    {
      forall k :: 1 <= k < Min(|ready|, bandwidth + 2) ==> Ratio(ready[k], table, g)
    }

    lemma CarryReads(before: Sums, ready: seq<Buffer>, g: Complex)
      requires ready != [] && Quadrature(table) && Carry(ready, g)
      ensures var sums := Expected(before, ready, table, bandwidth);
              CalculateGamma(sums) == if sums.refC == 0 then NotANumber else Gamma(g)
    {
      WindowReads(before, ready, table, bandwidth, g);
    }
  }

  lemma NothingYet(before: Sums, ticks: seq<Tick>, ready: nat, table: Buffer, bandwidth: nat)
    ensures Ready(ticks[..0], ready) == [] && Expected(before, [], table, bandwidth) == before
  {}

  lemma OneTick(ticks: seq<Tick>, i: nat, ready: nat)
    requires i < |ticks|
    ensures Ready(ticks[..i + 1], ready) ==
            if ticks[i].time >= ready then Ready(ticks[..i], ready) + [ticks[i].samples] else Ready(ticks[..i], ready)
  {
    assert ticks[..i + 1][..i] == ticks[..i];
    assert Ready(ticks[..i], ready) + [] == Ready(ticks[..i], ready);
  }

  lemma ExpectedBelow(before: Sums, ready: seq<Buffer>, table: Buffer, bandwidth: nat)
    requires bandwidth + 2 < TWO_16
    ensures ready != [] ==> Expected(before, ready, table, bandwidth).Below(TWO_16 * (SAMPLES * 0x4000_0000))
  {
    if ready != [] { TotalBelow(ready[1..Min(|ready|, bandwidth + 2)], table); }
  }

  lemma ExpectedStep(before: Sums, ready: seq<Buffer>, b: Buffer, table: Buffer, bandwidth: nat)
    ensures var e, f := Expected(before, ready, table, bandwidth), Expected(before, ready + [b], table, bandwidth);
      f == if ready == [] then ZERO else if |ready| < bandwidth + 2 then e.Plus(Dot(b, table, SAMPLES)) else e
  {
    var n := Min(|ready|, bandwidth + 2);
    if ready != [] {
      if |ready| < bandwidth + 2 {
        assert (ready + [b])[1..n + 1] == ready[1..n] + [b];
        assert (ready[1..n] + [b])[..n - 1] == ready[1..n];
      } else {
        assert (ready + [b])[1..n] == ready[1..n];
      }
    }
  }

  lemma NoTerms(was: Sums, b: Buffer, table: Buffer)
    ensures was == was.Plus(Dot(b, table, 0))
  {}

  /** No addition leaves 64 bits. */
  lemma DotStep(was: Sums, b: Buffer, table: Buffer, i: nat)
    requires i < SAMPLES && was.Below(TWO_16 * (SAMPLES * 0x4000_0000))
    ensures var a, t := was.Plus(Dot(b, table, i)), Term(b, table, i);
      && was.Plus(Dot(b, table, i + 1)) == a.Plus(t)
      && Wrap64(a.sampS + t.sampS) == a.sampS + t.sampS && Wrap64(a.sampC + t.sampC) == a.sampC + t.sampC
      && Wrap64(a.refS + t.refS) == a.refS + t.refS && Wrap64(a.refC + t.refC) == a.refC + t.refC
  {
    var a, t := was.Plus(Dot(b, table, i)), Term(b, table, i);
    assert was.Plus(Dot(b, table, i + 1)) == a.Plus(t);
    DotBelow(b, table, i);
    TermBelow(b, table, i);
    hide Dot, Term, Wrap64;
    NoWrap(a.sampS + t.sampS);
    NoWrap(a.sampC + t.sampC);
    NoWrap(a.refS + t.refS);
    NoWrap(a.refC + t.refC);
  }

  // ---- the reading ----

  datatype Reading = NotANumber | Gamma(value: Complex)

  /** Sample over reference, computed from ratios to the reference's cosine part. Where the firmware's floats
      would divide by zero there is no number. */
  function CalculateGamma(acc: Sums): Reading {
    if acc.refC == 0 then NotANumber else
    var rc := acc.refC as real;
    var rs, sc, ss := acc.refS as real / rc, acc.sampC as real / rc, acc.sampS as real / rc;
    OnePlusSquare(rs);
    var rr := rs * rs + 1.0;
    Gamma(Complex((sc + ss * rs) / rr, (ss - sc * rs) / rr))
  }

  lemma OnePlusSquare(x: real)
    ensures 0.0 < x * x + 1.0
  {
    assert x * x == Product(x, x);
    hide Product;
    SquareSign(x);
  }

  function Sample(acc: Sums): Complex { Complex(acc.sampC as real, acc.sampS as real) }
  function Reference(acc: Sums): Complex { Complex(acc.refC as real, acc.refS as real) }

  /** The reading is the complex quotient exactly when the reference has a cosine part. */
  lemma GammaIff(acc: Sums)
    ensures CalculateGamma(acc) == Gamma(Quot(Sample(acc), Reference(acc))) <==> acc.refC != 0
  {
    if acc.refC != 0 {
      var rc := acc.refC as real;
      var rs, sc, ss := acc.refS as real / rc, acc.sampC as real / rc, acc.sampS as real / rc;
      OnePlusSquare(rs);
      var rr := rs * rs + 1.0;
      var u, v := (sc + ss * rs) / rr, (ss - sc * rs) / rr;
      assert u * rr == sc + ss * rs && v * rr == ss - sc * rs;
      assert rs * rc == acc.refS as real && sc * rc == acc.sampC as real && ss * rc == acc.sampS as real;
      Ratios(u, v, rs, sc, ss, rr);
      Scaled(u, v, rs, sc, ss, rc);
      QuotIs(Sample(acc), Reference(acc), Complex(u, v));
    }
  }

  lemma Ratios(u: real, v: real, rs: real, sc: real, ss: real, rr: real)
    requires rr == rs * rs + 1.0 && rr != 0.0 && u * rr == sc + ss * rs && v * rr == ss - sc * rs
    ensures u - v * rs == sc && u * rs + v == ss
  {
    assert (u - v * rs) * rr == u * rr - (v * rr) * rs == sc * rr;
    assert (u * rs + v) * rr == (u * rr) * rs + v * rr == ss * rr;
    CancelReal(u - v * rs, sc, rr);
    CancelReal(u * rs + v, ss, rr);
  }

  lemma Scaled(u: real, v: real, rs: real, sc: real, ss: real, rc: real)
    requires u - v * rs == sc && u * rs + v == ss
    ensures u * rc - v * (rs * rc) == sc * rc && u * (rs * rc) + v * rc == ss * rc
  {
    assert (u - v * rs) * rc == u * rc - v * (rs * rc);
    assert (u * rs + v) * rc == u * (rs * rc) + v * rc;
  }

  /** So it recovers the ratio between the two channels, whatever the length of the window. */
  lemma GammaRecovered(acc: Sums, g: Complex)
    requires acc.refC != 0 && Sample(acc) == g.Mul(Reference(acc))
    ensures CalculateGamma(acc) == Gamma(g)
  {
    hide CalculateGamma, Quot;
    GammaIff(acc);
    QuotIs(Sample(acc), Reference(acc), g);
  }

  // ---- from samples to the reading ----

  /** Sums of sin * sin, sin * cos and cos * cos over the first n pairs of the table. */
  datatype Energies = Energies(ss: int, sc: int, cc: int) {
    function Plus(that: Energies): Energies { Energies(ss + that.ss, sc + that.sc, cc + that.cc) }
  }

  function PairEnergy(sin: int, cos: int): Energies { Energies(sin * sin, sin * cos, cos * cos) }

  function EnergyOf(table: Buffer, n: nat): Energies
    requires n <= SAMPLES
  {
    if n == 0 then Energies(0, 0, 0)
    else EnergyOf(table, n - 1).Plus(PairEnergy(table[2 * n - 2], table[2 * n - 1]))
  }

  /** Sine and cosine of the table are orthogonal and of equal energy. */
  ghost predicate Quadrature(table: Buffer) {
    var e := EnergyOf(table, SAMPLES);
    e.sc == 0 && e.ss == e.cc > 0
  }

  /** The reference channel, sampled first, is the phasor r = p + j q: p cos + q sin; the other is s. */
  ghost predicate Tone(b: Buffer, table: Buffer, r: Complex, s: Complex) {
    forall i :: 0 <= i < SAMPLES ==>
      var sin, cos := table[2 * i] as real, table[2 * i + 1] as real;
      && b[2 * i] as real == r.re * cos + r.im * sin
      && b[2 * i + 1] as real == s.re * cos + s.im * sin
  }

  /** Cosine and sine sums c, s of one channel with phasor z. */
  ghost predicate Correlates(z: Complex, c: int, s: int, e: Energies) {
    && c as real == z.re * e.cc as real + z.im * e.sc as real
    && s as real == z.re * e.sc as real + z.im * e.ss as real
  }

  lemma {:induction false} DotOfTone(b: Buffer, table: Buffer, r: Complex, s: Complex, n: nat)
    requires n <= SAMPLES && Tone(b, table, r, s)
    ensures var d, e := Dot(b, table, n), EnergyOf(table, n);
            Correlates(r, d.refC, d.refS, e) && Correlates(s, d.sampC, d.sampS, e)
  {
    hide Correlates, Dot, EnergyOf, Tone;
    if n == 0 {
      NoPairs(b, table);
      Silence(r);
      Silence(s);
    } else {
      DotOfTone(b, table, r, s, n - 1);
      var i := n - 1;
      ToneAt(b, table, r, s, i);
      DotNext(b, table, i);
      var d, e, sin: int, cos: int := Dot(b, table, i), EnergyOf(table, i), table[2 * i], table[2 * i + 1];
      var ref: int, smp: int := b[2 * i], b[2 * i + 1];
      TonePair(r, ref, sin, cos);
      TonePair(s, smp, sin, cos);
      var p := PairEnergy(sin, cos);
      OnePair(r, d.refC, d.refS, e, ref * cos, ref * sin, p);
      OnePair(s, d.sampC, d.sampS, e, smp * cos, smp * sin, p);
    }
  }

  lemma DotNext(b: Buffer, table: Buffer, i: nat)
    requires i < SAMPLES
    ensures var d, ref: int, smp: int, sin: int, cos: int :=
              Dot(b, table, i), b[2 * i], b[2 * i + 1], table[2 * i], table[2 * i + 1];
            Dot(b, table, i + 1) ==
            Sums(d.sampS + smp * sin, d.sampC + smp * cos, d.refS + ref * sin, d.refC + ref * cos)
    ensures EnergyOf(table, i + 1) == EnergyOf(table, i).Plus(PairEnergy(table[2 * i], table[2 * i + 1]))
  {}

  lemma NoPairs(b: Buffer, table: Buffer)
    ensures Dot(b, table, 0) == ZERO && EnergyOf(table, 0) == Energies(0, 0, 0)
  {}

  lemma Silence(z: Complex)
    ensures Correlates(z, 0, 0, Energies(0, 0, 0))
  {}

  lemma ToneAt(b: Buffer, table: Buffer, r: Complex, s: Complex, i: nat)
    requires i < SAMPLES && Tone(b, table, r, s)
    ensures var sin, cos := table[2 * i] as real, table[2 * i + 1] as real;
      && b[2 * i] as real == r.re * cos + r.im * sin
      && b[2 * i + 1] as real == s.re * cos + s.im * sin
  {}

  lemma OnePair(z: Complex, c: int, s: int, e: Energies, c1: int, s1: int, p: Energies)
    requires Correlates(z, c, s, e) && Correlates(z, c1, s1, p)
    ensures Correlates(z, c + c1, s + s1, e.Plus(p))
  {
    AddSums(z, c, c1, e.cc, p.cc, e.sc, p.sc);
    AddSums(z, s, s1, e.sc, p.sc, e.ss, p.ss);
  }

  lemma AddSums(z: Complex, c: int, d: int, a: int, a1: int, b: int, b1: int)
    requires c as real == z.re * a as real + z.im * b as real && d as real == z.re * a1 as real + z.im * b1 as real
    ensures (c + d) as real == z.re * (a + a1) as real + z.im * (b + b1) as real
  {
    Distribute(z.re, a, a1);
    Distribute(z.im, b, b1);
  }

  lemma Distribute(x: real, y: int, z: int)
    ensures x * (y + z) as real == x * y as real + x * z as real
  {
    var u, v := y as real, z as real;
    assert (y + z) as real == u + v;
  }

  lemma TonePair(z: Complex, x: int, sin: int, cos: int)
    requires x as real == z.re * cos as real + z.im * sin as real
    ensures Correlates(z, x * cos, x * sin, PairEnergy(sin, cos))
  {
    var c, s := cos as real, sin as real;
    assert (x * cos) as real == x as real * c && (x * sin) as real == x as real * s;
    assert (cos * cos) as real == c * c && (sin * cos) as real == s * c && (sin * sin) as real == s * s;
  }

  /** The two channels carry one tone, and the sample channel is g times the reference. */
  ghost predicate Ratio(b: Buffer, table: Buffer, g: Complex) { exists r: Complex :: Tone(b, table, r, g.Mul(r)) }

  /** So the sums of a buffer are the phasors, scaled by the energy of the table ... */
  lemma BufferPhasors(b: Buffer, table: Buffer, r: Complex, s: Complex)
    requires Quadrature(table) && Tone(b, table, r, s)
    ensures var d, e := Dot(b, table, SAMPLES), EnergyOf(table, SAMPLES).cc as real;
            Reference(d) == r.Scale(e) && Sample(d) == s.Scale(e)
  {
    hide Dot, EnergyOf, Tone;
    DotOfTone(b, table, r, s, SAMPLES);
    ScalePhasor(r, Dot(b, table, SAMPLES).refC, Dot(b, table, SAMPLES).refS, EnergyOf(table, SAMPLES));
    ScalePhasor(s, Dot(b, table, SAMPLES).sampC, Dot(b, table, SAMPLES).sampS, EnergyOf(table, SAMPLES));
  }

  lemma ScalePhasor(z: Complex, c: int, s: int, e: Energies)
    requires Correlates(z, c, s, e) && e.sc == 0 && e.ss == e.cc
    ensures Complex(c as real, s as real) == z.Scale(e.cc as real)
  {}

  /** ... and over any number of buffers the channels keep their ratio. */
  lemma {:induction false} TotalRatio(bs: seq<Buffer>, table: Buffer, g: Complex)
    requires Quadrature(table) && forall k :: 0 <= k < |bs| ==> Ratio(bs[k], table, g)
    ensures var t := Total(bs, table); Sample(t) == g.Mul(Reference(t))
  {
    hide Dot, Quadrature, Tone, Complex.Mul, Complex.Scale;
    if bs == [] {
      Units(g);
    } else {
      var n := |bs| - 1;
      TotalRatio(bs[..n], table, g);
      var r: Complex :| Tone(bs[n], table, r, g.Mul(r));
      BufferPhasors(bs[n], table, r, g.Mul(r));
      var t, d := Total(bs[..n], table), Dot(bs[n], table, SAMPLES);
      ScaledRatio(g, r, EnergyOf(table, SAMPLES).cc as real);
      Distributive(g, Reference(t), Reference(d));
      SumsAdd(t, d);
    }
  }

  lemma ScaledRatio(g: Complex, r: Complex, k: real)
    ensures g.Mul(r).Scale(k) == g.Mul(r.Scale(k))
  {}

  lemma SumsAdd(a: Sums, b: Sums)
    ensures Reference(a.Plus(b)) == Reference(a).Add(Reference(b)) && Sample(a.Plus(b)) == Sample(a).Add(Sample(b))
  {}

  /** A window over buffers of one tone each, whatever its phase, reads the ratio of the channels exactly when the
      reference sum has a cosine part. The first ready buffer is dropped and need not be one. */
  lemma WindowReads(before: Sums, ready: seq<Buffer>, table: Buffer, bandwidth: nat, g: Complex)
    requires Quadrature(table) && ready != []
    requires forall k :: 1 <= k < Min(|ready|, bandwidth + 2) ==> Ratio(ready[k], table, g)
    ensures var acc := Expected(before, ready, table, bandwidth);
            CalculateGamma(acc) == if acc.refC == 0 then NotANumber else Gamma(g)
  {
    var bs := ready[1..Min(|ready|, bandwidth + 2)];
    forall k | 0 <= k < |bs|
      ensures Ratio(bs[k], table, g)
    {
      assert bs[k] == ready[k + 1];
    }
    hide Quadrature, Ratio, Total;
    TotalRatio(bs, table, g);
    var acc := Total(bs, table);
    if acc.refC != 0 { GammaRecovered(acc, g); }
  }

  /** With one phasor p + j q on the reference of every buffer and u + j v on the other channel, the reading is
      (u + j v) / (p + j q), and there is one exactly if p is not zero. */
  lemma SteadyReading(before: Sums, ready: seq<Buffer>, table: Buffer, bandwidth: nat, r: Complex, s: Complex)
    requires Quadrature(table) && 2 <= |ready| && r != Zero
    requires forall k :: 1 <= k < Min(|ready|, bandwidth + 2) ==> Tone(ready[k], table, r, s)
    ensures var acc := Expected(before, ready, table, bandwidth);
            CalculateGamma(acc) == if r.re == 0.0 then NotANumber else Gamma(Quot(s, r))
  {
    var g, bs := Quot(s, r), ready[1..Min(|ready|, bandwidth + 2)];
    QuotTimes(s, r);
    Commutative(g, r);
    forall k | 0 <= k < |bs|
      ensures Tone(bs[k], table, r, s)
    {
      assert bs[k] == ready[k + 1];
    }
    forall k | 1 <= k < Min(|ready|, bandwidth + 2)
      ensures Ratio(ready[k], table, g)
    {
      assert Tone(ready[k], table, r, g.Mul(r));
    }
    SteadyGamma(before, ready, bs, table, bandwidth, r, s);
  }

  lemma SteadyGamma(before: Sums, ready: seq<Buffer>, bs: seq<Buffer>, table: Buffer, bandwidth: nat, r: Complex,
                    s: Complex)
    requires Quadrature(table) && 2 <= |ready| && bs == ready[1..Min(|ready|, bandwidth + 2)]
    requires forall k :: 0 <= k < |bs| ==> Tone(bs[k], table, r, s)
    requires forall k :: 1 <= k < Min(|ready|, bandwidth + 2) ==> Ratio(ready[k], table, Quot(s, r))
    ensures var acc := Expected(before, ready, table, bandwidth);
            CalculateGamma(acc) == if r.re == 0.0 then NotANumber else Gamma(Quot(s, r))
  {
    hide Quot, Tone, Ratio, CalculateGamma, Total, Quadrature, CosineOf;
    WindowReads(before, ready, table, bandwidth, Quot(s, r));
    SteadyReference(bs, table, r, s);
    CosinePart(|bs|, table, r);
  }

  /** The cosine sum of one buffer. */
  function CosineOf(table: Buffer, r: Complex): real { r.re * EnergyOf(table, SAMPLES).cc as real }

  lemma {:induction false} SteadyReference(bs: seq<Buffer>, table: Buffer, r: Complex, s: Complex)
    requires Quadrature(table) && forall k :: 0 <= k < |bs| ==> Tone(bs[k], table, r, s)
    ensures Total(bs, table).refC as real == Times(|bs|, CosineOf(table, r))
  {
    hide Dot, Quadrature, Tone, EnergyOf, CosineOf, Times;
    if bs == [] {
      None(CosineOf(table, r));
    } else {
      var n := |bs| - 1;
      SteadyReference(bs[..n], table, r, s);
      BufferCosine(bs[n], table, r, s);
      OneMore(n, CosineOf(table, r));
    }
  }

  lemma BufferCosine(b: Buffer, table: Buffer, r: Complex, s: Complex)
    requires Quadrature(table) && Tone(b, table, r, s)
    ensures Dot(b, table, SAMPLES).refC as real == CosineOf(table, r)
  {
    hide Quadrature, Tone, EnergyOf, Dot;
    BufferPhasors(b, table, r, s);
  }

  function Times(n: nat, x: real): real { n as real * x }

  lemma None(x: real)
    ensures Times(0, x) == 0.0
  {}

  lemma OneMore(n: nat, x: real)
    ensures Times(n + 1, x) == Times(n, x) + x
  {
    assert (n + 1) as real == n as real + 1.0;
  }

  lemma CosinePart(n: nat, table: Buffer, r: Complex)
    requires 1 <= n && Quadrature(table)
    ensures Times(n, CosineOf(table, r)) == 0.0 <==> r.re == 0.0
  {
    hide EnergyOf;
    var e, x := EnergyOf(table, SAMPLES).cc as real, CosineOf(table, r);
    NoZeroProduct(n as real, x);
    NoZeroProduct(e, r.re);
  }

  lemma NoZeroProduct(a: real, x: real)
    requires a != 0.0
    ensures a * x == 0.0 <==> x == 0.0
  {
    if a * x == 0.0 { CancelReal(x, 0.0, a); }
  }

  /** One turn of the firmware's sine in 16 steps, scaled to 32767. */
  function Wave(k: nat): Int16 {
    match k
    case 0 => 3212 case 1 => 15447 case 2 => 25330 case 3 => 31357
    case 4 => 32610 case 5 => 28899 case 6 => 20788 case 7 => 9512
    case 8 => -3212 case 9 => -15447 case 10 => -25330 case 11 => -31357
    case 12 => -32610 case 13 => -28899 case 14 => -20788 case _ => -9512
  }

  /** The table for an intermediate frequency of 12 kHz at 192 kHz: three turns of sine and, a quarter ahead, cosine. */
  function Sincos12k(): Buffer { seq(BUFFER_LEN, j requires 0 <= j < BUFFER_LEN => WaveAt(j)) }

  function WaveAt(j: nat): Int16 { Wave(if j % 2 == 0 then j / 2 % 16 else (j / 2 + 4) % 16) }

  function StepEnergy(k: nat): Energies { PairEnergy(Wave(k), Wave((k + 4) % 16)) }

  lemma EnergyStep(t: Buffer, n: nat, k: nat)
    requires t == Sincos12k() && n < SAMPLES && n % 16 == k
    ensures EnergyOf(t, n + 1) == EnergyOf(t, n).Plus(StepEnergy(k))
  {
    hide Wave, PairEnergy, EnergyOf, Sincos12k, WaveAt;
    DotNext(t, t, n);
    WaveIndex(n);
    TableAt(t, 2 * n);
    TableAt(t, 2 * n + 1);
  }

  lemma TableAt(t: Buffer, j: nat)
    requires t == Sincos12k() && j < BUFFER_LEN
    ensures t[j] == WaveAt(j)
  {
    hide WaveAt;
  }

  lemma WaveIndex(n: nat)
    ensures WaveAt(2 * n) == Wave(n % 16) && WaveAt(2 * n + 1) == Wave((n % 16 + 4) % 16)
  {
    assert 2 * n / 2 == n && (2 * n + 1) / 2 == n && (2 * n + 1) % 2 == 1;
    assert (n + 4) % 16 == (n % 16 + 4) % 16;
  }

  function Quarter(k: nat): Energies {
    StepEnergy(k).Plus(StepEnergy(k + 1)).Plus(StepEnergy(k + 2)).Plus(StepEnergy(k + 3))
  }

  lemma Quarter0()
    ensures Quarter(0) == Energies(1873797102, 1375973997, 2421183389)
  {
    assert StepEnergy(0) == PairEnergy(3212, 32610);
    assert StepEnergy(1) == PairEnergy(15447, 28899);
    assert StepEnergy(2) == PairEnergy(25330, 20788);
    assert StepEnergy(3) == PairEnergy(31357, 9512);
  }

  lemma Quarter4()
    ensures Quarter(4) == Energies(2421183389, -1375973997, 1873797102)
  {
    assert StepEnergy(4) == PairEnergy(32610, -3212);
    assert StepEnergy(5) == PairEnergy(28899, -15447);
    assert StepEnergy(6) == PairEnergy(20788, -25330);
    assert StepEnergy(7) == PairEnergy(9512, -31357);
  }

  lemma Quarter8()
    ensures Quarter(8) == Energies(1873797102, 1375973997, 2421183389)
  {
    assert StepEnergy(8) == PairEnergy(-3212, -32610);
    assert StepEnergy(9) == PairEnergy(-15447, -28899);
    assert StepEnergy(10) == PairEnergy(-25330, -20788);
    assert StepEnergy(11) == PairEnergy(-31357, -9512);
  }

  lemma Quarter12()
    ensures Quarter(12) == Energies(2421183389, -1375973997, 1873797102)
  {
    assert StepEnergy(12) == PairEnergy(-32610, 3212);
    assert StepEnergy(13) == PairEnergy(-28899, 15447);
    assert StepEnergy(14) == PairEnergy(-20788, 25330);
    assert StepEnergy(15) == PairEnergy(-9512, 31357);
  }

  lemma QuarterStep(t: Buffer, n: nat, k: nat)
    requires t == Sincos12k() && n + 4 <= SAMPLES && n % 16 == k && k <= 12
    ensures EnergyOf(t, n + 4) == EnergyOf(t, n).Plus(Quarter(k))
  {
    hide EnergyOf, Sincos12k, StepEnergy;
    EnergyStep(t, n, k);
    EnergyStep(t, n + 1, k + 1);
    EnergyStep(t, n + 2, k + 2);
    EnergyStep(t, n + 3, k + 3);
  }

  lemma Turn(t: Buffer, n: nat)
    requires t == Sincos12k() && (n == 0 || n == 16 || n == 32)
    ensures EnergyOf(t, n + 16) == EnergyOf(t, n).Plus(Energies(8589960982, 0, 8589960982))
  {
    hide EnergyOf, Sincos12k, Quarter;
    Quarter0();
    Quarter4();
    Quarter8();
    Quarter12();
    QuarterStep(t, n, 0);
    QuarterStep(t, n + 4, 4);
    QuarterStep(t, n + 8, 8);
    QuarterStep(t, n + 12, 12);
  }

  lemma ThreeTurns(t: Buffer, n: nat)
    requires t == Sincos12k() && n == 0
    ensures EnergyOf(t, n + 48) == Energies(3 * 8589960982, 0, 3 * 8589960982)
  {
    hide *;
    NoEnergy(t);
    Turn(t, n);
    Turn(t, n + 16);
    Turn(t, n + 32);
    AddTurns();
  }

  lemma NoEnergy(t: Buffer)
    ensures EnergyOf(t, 0) == Energies(0, 0, 0)
  {}

  lemma AddTurns()
    ensures var turn := Energies(8589960982, 0, 8589960982);
            Energies(0, 0, 0).Plus(turn).Plus(turn).Plus(turn) == Energies(3 * 8589960982, 0, 3 * 8589960982)
  {}

  /** It is orthogonal with equal energies, exactly. */
  lemma FirmwareTable(t: Buffer)
    requires t == Sincos12k()
    ensures Quadrature(t)
  {
    hide EnergyOf, Sincos12k;
    ThreeTurns(t, 0);
  }
}
