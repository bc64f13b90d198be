/** What the programmed dividers mean: register widths and the frequency that comes out. */
module Tuning {
  import opened Arithmetic
  import opened Bytes
  import opened Fraction
  import opened Registers
  import opened Bands
  import opened Synth
  import opened Drive

  /** The divider survives the register widths. */
  ghost predicate Fits(v: Divider) {
    MIN_DIVIDER <= v.whole < DIVIDER_END && v.num < v.den <= MAX_DENOMINATOR
  }

  /** A divider that fits is what the chip reads back, from a PLL and from a multisynth. */
  lemma FitsIsIdeal(v: Divider, rdiv: nat)
    requires Fits(v) && rdiv < 8
    ensures MsSetting(v, rdiv) == Ideal(v, rdiv)
    ensures PllSetting(v) == Ideal(v, 0).(by4 := false)
  {
    hide Image, Decode;
    DecodeImage(v.whole - MIN_DIVIDER, v.num, v.den, Top(v, rdiv));
    DecodeImage(v.whole - MIN_DIVIDER, v.num, v.den, 0);
  }

  lemma SplitFits(n: nat, d: nat, low: nat, high: nat)
    requires 1 <= d && low * d <= n < high * d
    requires MIN_DIVIDER <= low && high < DIVIDER_END
    ensures Fits(Split(n, d))
  {
    SplitInRange(n, d);
    hide Split, InRange, Coprime;
    QuotientUnder(n, d, high);
    QuotientFrom(n, d, low);
    SplitWhole(n, d);
  }

  lemma SplitWhole(n: nat, d: nat)
    requires 1 <= d
    ensures var v := Split(n, d);
            Quotient(n, d) <= v.whole <= Quotient(n, d) + 1 && v.num < v.den <= MAX_DENOMINATOR
  {
    SplitInRange(n, d);
  }

  lemma QuotientFrom(m: nat, n: nat, k: nat)
    requires 0 < n && k * n <= m
    ensures k <= Quotient(m, n)
  {
    if Quotient(m, n) < k { MulMono(Quotient(m, n) + 1, k, n); }
  }

  /** The frequencies a given crystal reaches without overflowing P1: the low ends of the divide-by-128
      and divide-by-16 ranges are the critical ones. */
  ghost predicate Reachable(cfg: Config, freq: nat) {
    && (freq < 26_000 ==> 8 * cfg.xtal < (DIVIDER_END - 1) * freq)
    && (26_000 <= freq <= 1_000_000 ==> 256 * cfg.xtal < (DIVIDER_END - 1) * freq)
  }

  /** A 26 MHz crystal reaches everything from 792 Hz up. */
  lemma NominalCrystalReaches(cfg: Config, freq: nat)
    requires cfg.xtal == 26_000_000 && 792 <= freq
    ensures Reachable(cfg, freq)
  {}

  lemma PllTarget(cfg: Config, row: Strategy, rdiv: nat)
    requires rdiv <= 7
    ensures row.div == 8 && rdiv == 7 ==> Scaled(PllHz(cfg, row, 1), rdiv) == cfg.xtal * 8
    ensures row.div == 32 && rdiv == 4 ==> Scaled(PllHz(cfg, row, 1), rdiv) == cfg.xtal * 32 * 8
    ensures row.div == 32 && rdiv == 0 ==> Scaled(PllHz(cfg, row, 1), rdiv) == cfg.xtal * 32 * 128
  {
    Powers();
  }

  /** Below 100 MHz both output dividers fit. */
  lemma OutputFits(cfg: Config, freq: nat, offset: nat, drive: nat)
    requires cfg.Valid() && cfg.Covers(freq) && freq <= 100_000_000 && Reachable(cfg, freq) && offset <= 96_000
    ensures var (band, rdiv, _) := cfg.Plan(freq, drive);
            rdiv <= 7 && Fits(OutputDivider(cfg, Row(cfg.board, band), 1, freq + offset, rdiv))
  {
    PlanFacts(cfg, freq, drive);
    var (band, rdiv, _) := cfg.Plan(freq, drive);
    RowFacts(cfg.board, band);
    var row := Row(cfg.board, band);
    PllTarget(cfg, row, rdiv);
    hide Row, Config.Plan, Config.Covers, Split, Fits, Scaled, PllHz;
    SplitFits(Scaled(PllHz(cfg, row, 1), rdiv), freq + offset, MIN_DIVIDER, DIVIDER_END - 1);
  }

  /** And for a 26 MHz crystal that is every frequency from 792 Hz up, and none below. */
  lemma LowestFrequency(cfg: Config, freq: nat)
    requires cfg.Valid() && cfg.xtal == 26_000_000 && 1 <= freq < 26_000
    ensures Fits(OutputDivider(cfg, Row(cfg.board, 1), 1, freq, 7)) <==> freq >= 792
  {
    var row := Row(cfg.board, 1);
    PllTarget(cfg, row, 7);
    var n := Scaled(PllHz(cfg, row, 1), 7);
    hide Split, Scaled, PllHz;
    if freq >= 792 {
      SplitFits(n, freq, MIN_DIVIDER, DIVIDER_END - 1);
    } else {
      QuotientFrom(n, freq, DIVIDER_END);
      SplitWhole(n, freq);
    }
  }

  /** Above 100 MHz every row multiplies the frequency far enough above the crystal. */
  lemma RowReach(cfg: Config, freq: nat, drive: nat)
    requires cfg.Valid() && cfg.Covers(freq) && 100_000_000 < freq
    ensures var row := Row(cfg.board, cfg.Plan(freq, drive).0);
            1 <= row.mul <= 12 && 1 <= row.omul <= 12 && 4 <= row.div <= 8 &&
            112_000_000 * row.mul <= Times(freq, row.div) && 112_000_000 * row.omul <= Times(freq, row.div)
  {
    PlanFacts(cfg, freq, drive);
    hide Config.Plan;
    var row := Row(cfg.board, cfg.Plan(freq, drive).0);
    MulMono(4, row.div, freq);
    if row.div == 6 { assert freq * row.div == 6 * freq; }
    if row.div == 8 { assert freq * row.div == 8 * freq; }
  }

  lemma PllRange(xtal: nat, mul: nat, scaled: nat)
    requires 24_000_000 <= xtal <= 28_000_000 && 1 <= mul
    requires 112_000_000 * mul * 128 <= scaled <= TWO_32 * 1024
    ensures MIN_DIVIDER * (xtal * mul) <= scaled < (DIVIDER_END - 1) * (xtal * mul)
    ensures 1 <= xtal * mul
  {
    MulMono(xtal, 28_000_000, mul);
    MulMono(24_000_000, xtal, mul);
  }

  /** Above 100 MHz both PLL multipliers fit. */
  lemma PllFits(cfg: Config, freq: nat, offset: nat, drive: nat, mul: nat)
    requires cfg.Valid() && cfg.Covers(freq) && 100_000_000 < freq && freq + offset < TWO_32
    requires var row := Row(cfg.board, cfg.Plan(freq, drive).0); mul == row.mul || mul == row.omul
    ensures var row := Row(cfg.board, cfg.Plan(freq, drive).0);
            1 <= Times(cfg.xtal, mul) && Fits(PllDivider(cfg, row, mul, freq + offset))
  {
    RowReach(cfg, freq, drive);
    Powers();
    var row := Row(cfg.board, cfg.Plan(freq, drive).0);
    var f := freq + offset;
    assert Times(freq, row.div) <= Times(f, row.div) <= 8 * TWO_32 by {
      MulMono(freq, f, row.div);
      MulMono(row.div, 8, f);
    }
    hide Row, Config.Plan, Config.Covers, Split;
    var n := Scaled(Times(f, row.div), 0);
    assert n == Times(f, row.div) * 128;
    PllRange(cfg.xtal, mul, n);
    hide Scaled;
    SplitFits(n, Times(cfg.xtal, mul), MIN_DIVIDER, DIVIDER_END - 1);
  }

  // ---- the frequency that comes out ----

  /** The divider a setting stands for: (4 * 128 + P1 + P2/P3) / 128. */
  function Ratio(s: Setting): real
    requires 0 < s.p3
  {
    ((MIN_DIVIDER + s.p1) as real + s.p2 as real / s.p3 as real) / 128.0
  }

  /** Crystal times PLL ratio, over multisynth ratio and output divider. */
  function Hertz(xtal: real, pll: real, ms: real, r2: real): (f: real)
    requires 0.0 < ms && 0.0 < r2
    ensures f * (ms * r2) == xtal * pll
  {
    assert 0.0 < ms * r2;
    xtal * pll / (ms * r2)
  }

  function ClockHz(cfg: Config, pll: Setting, ms: Setting): real
    requires 0 < pll.p3 && 0 < ms.p3 && 0.0 < Ratio(ms)
  {
    Hertz(cfg.xtal as real, Ratio(pll), Ratio(ms), Pow2(ms.r) as real)
  }

  /** A divider as one fraction over 128. */
  function Numerator(v: Divider): nat { Times(v.whole, v.den) + v.num }

  lemma RatioOf(v: Divider, rdiv: nat)
    requires MIN_DIVIDER <= v.whole && 0 < v.den
    ensures var s := Ideal(v, rdiv);
            Ratio(s) * (128.0 * v.den as real) == Numerator(v) as real && 4.0 <= Ratio(s)
    ensures MIN_DIVIDER * v.den <= Numerator(v)
  {
    var s := Ideal(v, rdiv);
    var w, den := Numerator(v) as real, v.den as real;
    MulMono(MIN_DIVIDER, v.whole, v.den);
    assert w == v.whole as real * den + v.num as real;
    assert v.num as real / den * den == v.num as real;
    assert Ratio(s) * 128.0 == v.whole as real + v.num as real / den;
  }

  lemma TimesReal(a: nat, b: nat)
    ensures Times(a, b) as real == a as real * b as real
  {}

  lemma RealMono(a: real, b: real, c: real)
    requires a <= b && 0.0 <= c
    ensures a * c <= b * c
  {}

  /** f*w = a with |a - d*w| < w puts f within one of d. */
  lemma WithinOne(f: real, a: real, w: real, d: real)
    requires 0.0 < w && f * w == a && -w < a - d * w < w
    ensures -1.0 < f - d < 1.0
  {
    var y := f - d;
    assert y * w == a - d * w;
    if y >= 1.0 { RealMono(1.0, y, w); }
    if y <= -1.0 { RealMono(y, -1.0, w); }
  }

  /** The same from whole numbers. */
  lemma WithinOneHertz(f: real, a: nat, w: nat, d: nat)
    requires f * w as real == a as real && 512 <= w && -512 < a - Times(d, w) < 512
    ensures -1.0 < f - d as real < 1.0
  {
    TimesReal(d, w);
    hide Times;
    WithinOne(f, a as real, w as real, d as real);
  }

  lemma ResidualAsTimes(n: nat, d: nat, p: nat, q: nat)
    ensures Residual(n, d, p, q) == Abs(Times(n, q) - Times(d, p))
  {}

  /** The residual of a split, for a target denominator below 2^20 * 512. */
  lemma SmallResidual(n: nat, d: nat)
    requires 1 <= d < 512 * 0x10_0000
    ensures var v := Split(n, d); -512 < Times(n, v.den) - Times(d, Numerator(v)) < 512
  {
    SplitIsClosest(n, d);
    var v := Split(n, d);
    ResidualAsTimes(n, d, Numerator(v), v.den);
    assert Numerator(v) == v.whole * v.den + v.num;
    hide Split, BestApproximation, Residual, Times, Numerator;
  }

  lemma Cancel(a: real, b: real, c: real)
    requires a * c == b * c && c != 0.0
    ensures a == b
  {
    assert (a - b) * c == 0.0;
  }

  lemma FixedPllAlgebra(x: real, div: real, w: real, den: real, r2: real, n: real, ms: real)
    requires 0.0 < ms && 1.0 <= den && 1.0 <= r2 && n * r2 == x * div * 128.0
    requires ms * (128.0 * den) == w
    ensures Hertz(x, div, ms, r2) * w == n * den
  {
    var f := Hertz(x, div, ms, r2);
    hide Hertz;
    calc {
      f * w * r2;
      f * (ms * (128.0 * den)) * r2;
      f * (ms * r2) * (128.0 * den);
      x * div * (128.0 * den);
      n * r2 * den;
      n * den * r2;
    }
    Cancel(f * w, n * den, r2);
  }

  lemma WholeRatio(div: nat)
    requires 4 <= div
    ensures Ratio(Ideal(Whole(div), 0)) == div as real
  {
    RatioOf(Whole(div), 0);
    assert Numerator(Whole(div)) == 128 * div;
  }

  lemma ScaledReal(xtal: nat, div: nat, n: nat, r2: nat)
    requires Times(n, r2) == Times(xtal, div) * 128
    ensures n as real * r2 as real == xtal as real * div as real * 128.0
  {
    TimesReal(n, r2);
    TimesReal(xtal, div);
    hide Times;
  }

  lemma PositiveNumerator(v: Divider)
    requires MIN_DIVIDER <= v.whole && 0 < v.den
    ensures 512 <= Numerator(v)
  {
    MulMono(MIN_DIVIDER, v.whole, v.den);
  }

  /** A PLL of a whole number of crystals, through the output divider v. */
  lemma FixedPllHz(cfg: Config, div: nat, v: Divider, n: nat, rdiv: nat)
    requires 4 <= div && MIN_DIVIDER <= v.whole && 0 < v.den
    requires Times(n, Pow2(rdiv)) == Times(cfg.xtal, div) * 128
    ensures 0.0 < Ratio(Ideal(v, rdiv)) && 0 < Numerator(v)
    ensures ClockHz(cfg, Ideal(Whole(div), 0), Ideal(v, rdiv)) * Numerator(v) as real == Times(n, v.den) as real
  {
    hide Ratio, Numerator, Times, Pow2, Hertz;
    RatioOf(v, rdiv);
    WholeRatio(div);
    ScaledReal(cfg.xtal, div, n, Pow2(rdiv));
    TimesReal(n, v.den);
    PositiveNumerator(v);
    FixedPllAlgebra(cfg.xtal as real, div as real, Numerator(v) as real, v.den as real, Pow2(rdiv) as real, n as real,
                    Ratio(Ideal(v, rdiv)));
  }

  /** The output divider closest to n/d gives d within one hertz. */
  lemma FixedPllClock(cfg: Config, div: nat, n: nat, d: nat, rdiv: nat)
    requires 4 <= div && 1 <= d < 512 * 0x10_0000
    requires Times(n, Pow2(rdiv)) == Times(cfg.xtal, div) * 128 && Fits(Split(n, d))
    ensures 0.0 < Ratio(Ideal(Split(n, d), rdiv))
    ensures -1.0 < ClockHz(cfg, Ideal(Whole(div), 0), Ideal(Split(n, d), rdiv)) - d as real < 1.0
  {
    hide Split, Ratio, ClockHz, Numerator, Times, Pow2;
    var v := Split(n, d);
    FixedPllHz(cfg, div, v, n, rdiv);
    SmallResidual(n, d);
    PositiveNumerator(v);
    WithinOneHertz(ClockHz(cfg, Ideal(Whole(div), 0), Ideal(v, rdiv)), Times(n, v.den), Numerator(v), d);
  }

  lemma FixedMultAlgebra(x: real, div: real, w: real, den: real, mul: real, pll: real)
    requires 4.0 <= div && 1.0 <= den && pll * (128.0 * den) == w
    ensures mul * Hertz(x, pll, div, 1.0) * (128.0 * div * den) == x * mul * w
  {
    var f := Hertz(x, pll, div, 1.0);
    hide Hertz;
    calc {
      mul * f * (128.0 * div * den);
      mul * (f * (div * 1.0)) * (128.0 * den);
      mul * (x * pll) * (128.0 * den);
      x * mul * (pll * (128.0 * den));
      x * mul * w;
    }
  }

  /** The PLL multiplier v, through a whole output divider; `mul` is the harmonic used. */
  lemma FixedMultHz(cfg: Config, div: nat, v: Divider, mul: nat)
    requires 4 <= div && MIN_DIVIDER <= v.whole && 0 < v.den
    ensures 0.0 < Ratio(Ideal(Whole(div), 0))
    ensures mul as real * ClockHz(cfg, Ideal(v, 0).(by4 := false), Ideal(Whole(div), 0)) *
            Times(128 * div, v.den) as real ==
            Times(Times(cfg.xtal, mul), Numerator(v)) as real
  {
    assert Ratio(Ideal(v, 0).(by4 := false)) == Ratio(Ideal(v, 0));
    assert Pow2(0) == 1;
    hide Numerator, Ratio, Times, Pow2, Hertz;
    RatioOf(v, 0);
    WholeRatio(div);
    TimesReal(cfg.xtal, mul);
    TimesReal(Times(cfg.xtal, mul), Numerator(v));
    TimesReal(128 * div, v.den);
    FixedMultAlgebra(cfg.xtal as real, div as real, Numerator(v) as real, v.den as real, mul as real,
                     Ratio(Ideal(v, 0)));
  }

  /** Cross-multiplied, the residual of the PLL split is the error of the output. */
  lemma Rearrange(freq: nat, div: nat, den: nat, d: nat, w: nat)
    ensures Times(d, w) - Times(freq, Times(128 * div, den)) == Times(d, w) - Times(Times(freq, div) * 128, den)
  {
    assert freq * (128 * div * den) == freq * div * 128 * den;
  }

  /** The PLL multiplier closest to freq * div / (xtal * mul) puts the harmonic within one hertz of freq. */
  lemma FixedMultClock(cfg: Config, div: nat, freq: nat, mul: nat)
    requires 4 <= div && 1 <= Times(cfg.xtal, mul) < 512 * 0x10_0000
    requires Fits(Split(Times(freq, div) * 128, Times(cfg.xtal, mul)))
    ensures 0.0 < Ratio(Ideal(Whole(div), 0))
    ensures var v := Split(Times(freq, div) * 128, Times(cfg.xtal, mul));
            -1.0 < mul as real * ClockHz(cfg, Ideal(v, 0).(by4 := false), Ideal(Whole(div), 0)) - freq as real < 1.0
  {
    hide Split, Ratio, ClockHz, Numerator, Times;
    var n, d := Times(freq, div) * 128, Times(cfg.xtal, mul);
    var v := Split(n, d);
    FixedMultHz(cfg, div, v, mul);
    SmallResidual(n, d);
    Rearrange(freq, div, v.den, d, Numerator(v));
    TimesAtLeast(128 * div, v.den);
    WithinOneHertz(mul as real * ClockHz(cfg, Ideal(v, 0).(by4 := false), Ideal(Whole(div), 0)),
                   Times(d, Numerator(v)), Times(128 * div, v.den), freq);
  }

  lemma TimesAtLeast(a: nat, b: nat)
    requires 1 <= b
    ensures a <= Times(a, b)
  {
    MulMono(1, b, a);
  }

  /** The mul-th harmonic of a clock is within one hertz of freq. */
  ghost predicate Near(cfg: Config, pll: Setting, ms: Setting, mul: nat, freq: nat) {
    && 0 < pll.p3 && 0 < ms.p3 && 0.0 < Ratio(ms)
    && -1.0 < mul as real * ClockHz(cfg, pll, ms) - freq as real < 1.0
  }

  lemma FixedPllScale(cfg: Config, row: Strategy, rdiv: nat)
    requires (row.div == 8 && rdiv == 7) || (row.div == 32 && (rdiv == 0 || rdiv == 4))
    ensures Times(Scaled(PllHz(cfg, row, 1), rdiv), Pow2(rdiv)) == Times(cfg.xtal, row.div) * 128
  {
    PllTarget(cfg, row, rdiv);
    Powers();
    assert Pow2(4) == 16;
    hide Scaled, PllHz, Pow2;
  }

  lemma FixedPllNear(cfg: Config, freq: nat, offset: nat, drive: nat)
    requires cfg.Valid() && cfg.Covers(freq) && freq <= 100_000_000 && Reachable(cfg, freq) && offset <= 96_000
    ensures var (band, rdiv, _) := cfg.Plan(freq, drive);
            var row := Row(cfg.board, band);
            rdiv <= 7 &&
            Near(cfg, PllSetting(Whole(row.div)), MsSetting(OutputDivider(cfg, row, 1, freq + offset, rdiv), rdiv),
                 1, freq + offset)
  {
    hide Split, Ratio, ClockHz, Reachable, Row, Config.Plan, PllSetting, MsSetting, Scaled, PllHz, Times, Pow2;
    OutputFits(cfg, freq, offset, drive);
    PlanFacts(cfg, freq, drive);
    var (band, rdiv, _) := cfg.Plan(freq, drive);
    RowFacts(cfg.board, band);
    var row := Row(cfg.board, band);
    FixedPllScale(cfg, row, rdiv);
    var n := Scaled(PllHz(cfg, row, 1), rdiv);
    FitsIsIdeal(Whole(row.div), 0);
    FitsIsIdeal(Split(n, freq + offset), rdiv);
    FixedPllClock(cfg, row.div, n, freq + offset, rdiv);
    assert row.div * 128 != MIN_DIVIDER;
  }

  lemma PllTargetAbove(cfg: Config, mul: nat, hz: nat)
    requires cfg.Valid() && 1 <= mul <= 12
    ensures 1 <= Times(cfg.xtal, mul) < 512 * 0x10_0000 && Scaled(hz, 0) == hz * 128
  {
    Powers();
    MulMono(1, mul, cfg.xtal);
    MulMono(mul, 12, cfg.xtal);
  }

  lemma FixedMultNear(cfg: Config, freq: nat, offset: nat, drive: nat, mul: nat)
    requires cfg.Valid() && cfg.Covers(freq) && 100_000_000 < freq && freq + offset < TWO_32
    requires var row := Row(cfg.board, cfg.Plan(freq, drive).0); mul == row.mul || mul == row.omul
    ensures var row := Row(cfg.board, cfg.Plan(freq, drive).0);
            1 <= Times(cfg.xtal, mul) &&
            Near(cfg, PllSetting(PllDivider(cfg, row, mul, freq + offset)), MsSetting(Whole(row.div), 0), mul,
                 freq + offset)
  {
    hide Row, Config.Plan, Config.Covers, Config.Valid, Split, PllSetting, MsSetting, Ratio, ClockHz, Scaled, Times;
    PllFits(cfg, freq, offset, drive, mul);
    RowReach(cfg, freq, drive);
    var row := Row(cfg.board, cfg.Plan(freq, drive).0);
    PllTargetAbove(cfg, mul, Times(freq + offset, row.div));
    FitsIsIdeal(Whole(row.div), 0);
    FitsIsIdeal(PllDivider(cfg, row, mul, freq + offset), 0);
    FixedMultClock(cfg, row.div, freq + offset, mul);
  }

  /** A cold start below 100 MHz, and above. */
  lemma ColdParts(cfg: Config, freq: nat, drive: nat)
    requires cfg.Valid() && cfg.Covers(freq)
    ensures var (band, rdiv, strength) := cfg.Plan(freq, drive);
            var row := Row(cfg.board, band);
            var cold := Cold(cfg, freq, drive);
      && rdiv <= 7 && Strength(strength, row.pow) <= 3 && Strength(strength, row.opow) <= 3 && 1 <= row.mul
      && 1 <= Times(cfg.xtal, row.mul) && 1 <= Times(cfg.xtal, row.omul)
      && (row.mode == FixedPll ==>
            && cold.pllA == PllSetting(Whole(row.div))
            && cold.ms[0] == MsSetting(OutputDivider(cfg, row, row.omul, freq + cfg.offset, rdiv), rdiv)
            && cold.ms[1] == MsSetting(OutputDivider(cfg, row, row.mul, freq, rdiv), rdiv)
            && cold.pllB == PllSetting(Whole(PLL_N_2)) && cold.ms[2] == MsSetting(CodecDivider(cfg), 0)
            && cold.ctl == [Control(Strength(strength, row.opow),
                                    OutputDivider(cfg, row, row.omul, freq + cfg.offset, rdiv).num),
                            Control(Strength(strength, row.pow), OutputDivider(cfg, row, row.mul, freq, rdiv).num),
                            Control(DRIVE_2MA + CLK_PLL_SELECT_B, CodecDivider(cfg).num)])
      && (row.mode != FixedPll ==>
            && cold.pllA == PllSetting(PllDivider(cfg, row, row.omul, freq + cfg.offset))
            && cold.pllB == PllSetting(PllDivider(cfg, row, row.mul, freq))
            && cold.ms[0] == MsSetting(Whole(row.div), rdiv)
            && cold.ms[1] == MsSetting(Whole(row.div), rdiv)
            && cold.ms[2] == MsSetting(CodecFromPllB(row, freq, rdiv), rdiv)
            && cold.ctl == [Control(Strength(strength, row.opow), 0),
                            Control(Strength(strength, row.pow) + CLK_PLL_SELECT_B, 0),
                            Control(DRIVE_2MA + CLK_PLL_SELECT_B, CodecFromPllB(row, freq, rdiv).num)])
  {
    hide Row, Config.Plan, Config.Covers, Config.Valid, PllSetting, MsSetting, OutputDivider, PllDivider, Times,
         Strength;
    PlannedRow(cfg, freq, drive);
  }

  /** The PLL a clock takes its signal from, by bit 5 of its control register. */
  function Source(c: Chip, ch: nat): Setting
    requires |c.ctl| == 3 && ch < 3
  {
    if FromPllB(c.ctl[ch]) then c.pllB else c.pllA
  }

  /** The output divider in effect: in integer mode the fraction is ignored. */
  function Effective(ms: Setting, control: byte): Setting { if IntegerMode(control) then ms.(p2 := 0) else ms }

  /** The mul-th harmonic of a clock, as its control register routes it, is within one hertz of hz. */
  ghost predicate Delivers(cfg: Config, c: Chip, ch: nat, mul: nat, hz: nat)
    requires |c.ms| == 3 && |c.ctl| == 3 && ch < 3
  {
    OwnDivider(c.ctl[ch]) && Near(cfg, Source(c, ch), Effective(c.ms[ch], c.ctl[ch]), mul, hz)
  }

  /** What the registers make of a frequency: CLK1, if it runs, is on the frequency, and CLK0 on the offset
      frequency, within one hertz, on the harmonics of the band. */
  ghost predicate OnFrequency(cfg: Config, c: Chip, freq: nat, drive: nat)
    requires cfg.Covers(freq) && |c.ms| == 3 && |c.ctl| == 3
  {
    var row := Row(cfg.board, cfg.Plan(freq, drive).0);
    && (c.ctl[FREQ_CHANNEL] != CLK_POWERDOWN ==> Delivers(cfg, c, FREQ_CHANNEL, row.mul, freq))
    && (c.ctl[OFREQ_CHANNEL] != CLK_POWERDOWN ==> Delivers(cfg, c, OFREQ_CHANNEL, row.omul, freq + cfg.offset))
  }

  /** CLK2, if it runs, gives the codec its 8 MHz. */
  ghost predicate CodecOnFrequency(cfg: Config, c: Chip)
    requires |c.ms| == 3 && |c.ctl| == 3
  {
    c.ctl[CODEC_CHANNEL] != CLK_POWERDOWN ==> Delivers(cfg, c, CODEC_CHANNEL, 1, 8_000_000)
  }

  /** A divider that fits is in effect whole, with a control byte made for it. */
  lemma EffectiveIs(v: Divider, rdiv: nat, base: nat, control: byte)
    requires Fits(v) && rdiv < 8 && (base < 4 || 32 <= base < 36) && SameRoute(control, Control(base, v.num))
    ensures Effective(MsSetting(v, rdiv), control) == MsSetting(v, rdiv) && OwnDivider(control)
    ensures FromPllB(control) <==> 32 <= base
  {
    hide MsSetting, PllSetting, Control, SameRoute, FromPllB, OwnDivider, IntegerMode;
    FitsIsIdeal(v, rdiv);
    ControlBits(base, v.num);
    RouteBits(control, Control(base, v.num));
  }

  /** A clock routed by such a byte delivers what its PLL and divider give. */
  lemma RoutedDelivers(cfg: Config, c: Chip, ch: nat, pll: Setting, v: Divider, rdiv: nat, base: nat, mul: nat, hz: nat)
    requires |c.ms| == 3 && |c.ctl| == 3 && ch < 3 && Fits(v) && rdiv < 8 && (base < 4 || 32 <= base < 36)
    requires c.ms[ch] == MsSetting(v, rdiv) && SameRoute(c.ctl[ch], Control(base, v.num))
    requires pll == (if 32 <= base then c.pllB else c.pllA) && Near(cfg, pll, MsSetting(v, rdiv), mul, hz)
    ensures Delivers(cfg, c, ch, mul, hz)
  {
    hide Fits, MsSetting, Control, SameRoute, FromPllB, OwnDivider, IntegerMode, Near, Effective;
    EffectiveIs(v, rdiv, base, c.ctl[ch]);
  }

  lemma WholeFits(n: nat)
    requires 4 <= n < 1024
    ensures Fits(Whole(n)) && Whole(n).num == 0
  {}

  /** End to end: dividers of a cold start, with every running clock routed as after one, give the frequency. */
  lemma InTuneIsAccurate(cfg: Config, c: Chip, freq: nat, drive: nat)
    requires cfg.Valid() && cfg.Covers(freq) && Reachable(cfg, freq) && |c.ms| == 3 && |c.ctl| == 3
    requires cfg.Plan(freq, drive).2 == drive
    requires var cold := Cold(cfg, freq, drive);
      && c.SameDividers(cold)
      && forall ch :: 0 <= ch < 3 && c.ctl[ch] != CLK_POWERDOWN ==> SameRoute(c.ctl[ch], cold.ctl[ch])
    ensures OnFrequency(cfg, c, freq, drive)
  {
    hide Row, Config.Plan, Cold, Near, PllSetting, MsSetting, OutputDivider, PllDivider, Times, SameRoute, Control,
         Delivers, Fits, Strength, Reachable;
    PlanFacts(cfg, freq, drive);
    ColdParts(cfg, freq, drive);
    var (band, rdiv, _) := cfg.Plan(freq, drive);
    var row := Row(cfg.board, band);
    RowFacts(cfg.board, band);
    if freq <= 100_000_000 {
      LowOutput(cfg, c, freq, 0, drive, FREQ_CHANNEL, Strength(drive, row.pow));
      LowOutput(cfg, c, freq, cfg.offset, drive, OFREQ_CHANNEL, Strength(drive, row.opow));
    } else {
      HighOutput(cfg, c, freq, 0, drive, row.mul, FREQ_CHANNEL, Strength(drive, row.pow) + CLK_PLL_SELECT_B);
      HighOutput(cfg, c, freq, cfg.offset, drive, row.omul, OFREQ_CHANNEL, Strength(drive, row.opow));
    }
  }

  lemma LowOutput(cfg: Config, c: Chip, freq: nat, offset: nat, drive: nat, ch: nat, base: nat)
    requires cfg.Valid() && cfg.Covers(freq) && freq <= 100_000_000 && Reachable(cfg, freq) && offset <= 96_000
    requires |c.ms| == 3 && |c.ctl| == 3 && ch < 3 && base < 4
    requires var (band, rdiv, _) := cfg.Plan(freq, drive);
             var row := Row(cfg.board, band);
      && rdiv <= 7 && c.pllA == PllSetting(Whole(row.div))
      && c.ms[ch] == MsSetting(OutputDivider(cfg, row, 1, freq + offset, rdiv), rdiv)
      && (c.ctl[ch] != CLK_POWERDOWN ==>
            SameRoute(c.ctl[ch], Control(base, OutputDivider(cfg, row, 1, freq + offset, rdiv).num)))
    ensures c.ctl[ch] != CLK_POWERDOWN ==> Delivers(cfg, c, ch, 1, freq + offset)
  {
    hide Row, Config.Plan, Near, PllSetting, MsSetting, OutputDivider, SameRoute, Control, Delivers, Fits, Reachable;
    FixedPllNear(cfg, freq, offset, drive);
    OutputFits(cfg, freq, offset, drive);
    var (band, rdiv, _) := cfg.Plan(freq, drive);
    var row := Row(cfg.board, band);
    var v := OutputDivider(cfg, row, 1, freq + offset, rdiv);
    if c.ctl[ch] != CLK_POWERDOWN { RoutedDelivers(cfg, c, ch, c.pllA, v, rdiv, base, 1, freq + offset); }
  }

  lemma HighOutput(cfg: Config, c: Chip, freq: nat, offset: nat, drive: nat, mul: nat, ch: nat, base: nat)
    requires cfg.Valid() && cfg.Covers(freq) && 100_000_000 < freq && freq + offset < TWO_32
    requires |c.ms| == 3 && |c.ctl| == 3 && ch < 3 && (base < 4 || 32 <= base < 36)
    requires var row := Row(cfg.board, cfg.Plan(freq, drive).0);
      && (mul == row.mul || mul == row.omul) && 1 <= Times(cfg.xtal, mul)
      && (if 32 <= base then c.pllB else c.pllA) == PllSetting(PllDivider(cfg, row, mul, freq + offset))
      && c.ms[ch] == MsSetting(Whole(row.div), 0)
      && (c.ctl[ch] != CLK_POWERDOWN ==> SameRoute(c.ctl[ch], Control(base, 0)))
    ensures c.ctl[ch] != CLK_POWERDOWN ==> Delivers(cfg, c, ch, mul, freq + offset)
  {
    hide Row, Config.Plan, Near, PllSetting, MsSetting, PllDivider, SameRoute, Control, Delivers, Fits, Times;
    FixedMultNear(cfg, freq, offset, drive, mul);
    RowReach(cfg, freq, drive);
    var row := Row(cfg.board, cfg.Plan(freq, drive).0);
    WholeFits(row.div);
    if c.ctl[ch] != CLK_POWERDOWN {
      RoutedDelivers(cfg, c, ch, if 32 <= base then c.pllB else c.pllA, Whole(row.div), 0, base, mul, freq + offset);
    }
  }

  // ---- the codec clock ----

  /** From the fixed PLL B the codec divider is the closest one to 8 MHz ... */
  lemma CodecFixedNear(cfg: Config)
    requires cfg.Valid()
    ensures Fits(CodecDivider(cfg))
    ensures Near(cfg, PllSetting(Whole(PLL_N_2)), MsSetting(CodecDivider(cfg), 0), 1, 8_000_000)
  {
    var n := Scaled(cfg.xtal * PLL_N_2, 0);
    Powers();
    assert n == cfg.xtal * PLL_N_2 * 128 && Times(n, Pow2(0)) == Times(cfg.xtal, PLL_N_2) * 128;
    hide Split, Ratio, ClockHz, Fits, Scaled, Times, Pow2, PllSetting, MsSetting;
    SplitFits(n, CLK2_FREQUENCY, MIN_DIVIDER, DIVIDER_END - 1);
    WholeFits(PLL_N_2);
    FitsIsIdeal(Whole(PLL_N_2), 0);
    FitsIsIdeal(CodecDivider(cfg), 0);
    FixedPllClock(cfg, PLL_N_2, n, CLK2_FREQUENCY, 0);
    assert PLL_N_2 * 128 != MIN_DIVIDER;
  }

  /** Above 100 MHz no row multiplies the frequency beyond what the codec divider can take. */
  lemma RowCeiling(cfg: Config, freq: nat, drive: nat)
    requires cfg.Valid() && cfg.Covers(freq) && 100_000_000 < freq
    ensures var row := Row(cfg.board, cfg.Plan(freq, drive).0); Times(freq, row.div) <= 16_000_000_000 * row.mul
  {
    PlanFacts(cfg, freq, drive);
    hide Config.Plan;
    var band := cfg.Plan(freq, drive).0;
    var row := Row(cfg.board, band);
    if band == 3 {
      assert freq * row.div == 8 * freq;
    } else if band == 4 || band == 6 {
      assert freq * row.div == 6 * freq;
    } else {
      assert freq * row.div == 4 * freq;
    }
  }

  lemma CodecFits(n: nat, mul: nat)
    requires 1 <= mul && 112_000_000 * mul <= n <= 16_000_000_000 * mul
    ensures Fits(Split(n * 128, CLK2_FREQUENCY * mul))
  {
    SplitFits(n * 128, CLK2_FREQUENCY * mul, MIN_DIVIDER, DIVIDER_END - 1);
  }

  /** ... and from a PLL B that follows the frequency, the error of the PLL and that of the divider together stay
      below one hertz. */
  lemma CodecMultNear(cfg: Config, freq: nat, drive: nat)
    requires cfg.Valid() && cfg.Covers(freq) && 100_000_000 < freq
    ensures var row := Row(cfg.board, cfg.Plan(freq, drive).0);
      && 1 <= row.mul && 1 <= Times(cfg.xtal, row.mul) && Fits(CodecFromPllB(row, freq, 0))
      && Near(cfg, PllSetting(PllDivider(cfg, row, row.mul, freq)), MsSetting(CodecFromPllB(row, freq, 0), 0), 1,
              8_000_000)
  {
    hide Row, Config.Plan, Split, PllSetting, MsSetting, PllDivider, Near;
    RowReach(cfg, freq, drive);
    RowCeiling(cfg, freq, drive);
    FixedMultNear(cfg, freq, 0, drive, Row(cfg.board, cfg.Plan(freq, drive).0).mul);
    var row := Row(cfg.board, cfg.Plan(freq, drive).0);
    Powers();
    CodecFits(Times(freq, row.div), row.mul);
    CodecClock(cfg, PllSetting(PllDivider(cfg, row, row.mul, freq)), freq, row.div, row.mul);
  }

  lemma CodecClock(cfg: Config, pll: Setting, freq: nat, div: nat, mul: nat)
    requires 4 <= div <= 8 && 1 <= mul <= 12 && 112_000_000 * mul <= Times(freq, div)
    requires Near(cfg, pll, MsSetting(Whole(div), 0), mul, freq)
    requires Fits(Split(Times(freq, div) * 128, CLK2_FREQUENCY * mul))
    ensures Near(cfg, pll, MsSetting(Split(Times(freq, div) * 128, CLK2_FREQUENCY * mul), 0), 1, 8_000_000)
  {
    hide Split, Ratio, ClockHz, Fits, MsSetting, Times, Numerator, Whole, Ideal;
    var n, d := Times(freq, div) * 128, CLK2_FREQUENCY * mul;
    var v := Split(n, d);
    SmallResidual(n, d);
    var q := CodecRatio(v);
    var h, p := DividedClock(cfg, pll, div);
    var f := ClockWith(cfg, pll, MsSetting(v, 0), q, p);
    CodecError(f, h, q, Numerator(v), v.den, mul, div, freq);
  }

  /** The ratio of a divider that fits, as a fraction. */
  lemma CodecRatio(v: Divider) returns (q: real)
    requires Fits(v)
    ensures 0 < MsSetting(v, 0).p3 && MsSetting(v, 0).r == 0 && 4.0 <= q && Ratio(MsSetting(v, 0)) == q
    ensures 1 <= v.den && q * (128.0 * v.den as real) == Numerator(v) as real
  {
    hide Ratio, MsSetting, PllSetting, Numerator;
    FitsIsIdeal(v, 0);
    RatioOf(v, 0);
    q := Ratio(MsSetting(v, 0));
  }

  lemma DividedClock(cfg: Config, pll: Setting, div: nat) returns (h: real, p: real)
    requires 4 <= div <= 8 && 0 < pll.p3
    ensures var ms := MsSetting(Whole(div), 0); 0 < ms.p3 && 0.0 < Ratio(ms) && ClockHz(cfg, pll, ms) == h
    ensures p == cfg.xtal as real * Ratio(pll) && h * div as real == p
  {
    hide MsSetting, PllSetting, Ratio, Fits, Hertz, ClockHz;
    WholeFits(div);
    FitsIsIdeal(Whole(div), 0);
    WholeRatio(div);
    var ms := MsSetting(Whole(div), 0);
    p := cfg.xtal as real * Ratio(pll);
    h := ClockWith(cfg, pll, ms, div as real, p);
  }

  lemma ClockWith(cfg: Config, pll: Setting, ms: Setting, q: real, p: real) returns (f: real)
    requires 0 < pll.p3 && 0 < ms.p3 && ms.r == 0 && Ratio(ms) == q && 0.0 < q && p == cfg.xtal as real * Ratio(pll)
    ensures f == ClockHz(cfg, pll, ms) && f * q == p
  {
    hide Ratio, Hertz;
    assert Pow2(0) == 1;
    f := Hertz(cfg.xtal as real, Ratio(pll), q, 1.0);
    assert f * (q * 1.0) == p;
  }

  lemma CodecError(f: real, h: real, ms: real, w: nat, den: nat, mul: nat, div: nat, freq: nat)
    requires 4 <= div <= 8 && 1 <= mul <= 12 && 1 <= den && 112_000_000 * mul <= Times(freq, div)
    requires f * ms == h * div as real && ms * (128.0 * den as real) == w as real
    requires -1.0 < mul as real * h - freq as real < 1.0
    requires -512 < Times(Times(freq, div) * 128, den) - Times(8_000_000 * mul, w) < 512
    ensures -1.0 < f - 8_000_000.0 < 1.0
  {
    hide Times;
    CodecNumbers(w, den, mul, div, freq);
    CodecProducts(f, h, ms, w, den, mul, div);
    CodecWithin(f, mul as real * h, freq, Times(128 * div, den), Times(mul, w));
  }

  lemma CodecWithin(f: real, g: real, freq: nat, k: nat, w: nat)
    requires f * w as real == g * k as real && -1.0 < g - freq as real < 1.0
    requires 1 <= k && k + 512 <= w && -512 < Times(freq, k) - 8_000_000 * w < 512
    ensures -1.0 < f - 8_000_000.0 < 1.0
  {
    hide Times;
    var a := PllError(g, freq, k);
    BothErrors(a, Times(freq, k), k, w);
    WithinOne(f, a, w as real, 8_000_000.0);
  }

  lemma BothErrors(a: real, t: int, k: nat, w: nat)
    requires -(k as real) < a - t as real < k as real && -512 < t - 8_000_000 * w < 512 && k + 512 <= w
    ensures -(w as real) < a - 8_000_000.0 * w as real < w as real
  {
    assert (8_000_000 * w) as real == 8_000_000.0 * w as real;
    assert (t - 8_000_000 * w) as real == t as real - 8_000_000.0 * w as real;
  }

  /** The PLL's error, below a hertz at the output it is made for, counts k-fold. */
  lemma PllError(g: real, freq: nat, k: nat) returns (a: real)
    requires -1.0 < g - freq as real < 1.0 && 1 <= k
    ensures a == g * k as real && -(k as real) < a - Times(freq, k) as real < k as real
  {
    a := g * k as real;
    var y := g - freq as real;
    TimesReal(freq, k);
    hide Times;
    assert a - Times(freq, k) as real == y * k as real;
    assert (1.0 - y) * k as real > 0.0 && (1.0 + y) * k as real > 0.0;
  }

  lemma CodecNumbers(w: nat, den: nat, mul: nat, div: nat, freq: nat)
    requires 4 <= div <= 8 && 1 <= mul <= 12 && 1 <= den && 112_000_000 * mul <= Times(freq, div)
    requires -512 < Times(Times(freq, div) * 128, den) - Times(8_000_000 * mul, w) < 512
    ensures var k, w' := Times(128 * div, den), Times(mul, w);
            1 <= k && k + 512 <= w' && -512 < Times(freq, k) - 8_000_000 * w' < 512
  {
    var p := Times(freq, div);
    SameProduct(freq, div, den);
    ScaleOut(mul, w);
    AtLeast(p, mul, den);
    AtMost(div, den);
    hide Times;
  }

  lemma SameProduct(freq: nat, div: nat, den: nat)
    ensures Times(Times(freq, div) * 128, den) == Times(freq, Times(128 * div, den))
  {
    assert (freq * div * 128) * den == freq * (128 * div * den);
  }

  lemma ScaleOut(mul: nat, w: nat)
    ensures Times(8_000_000 * mul, w) == 8_000_000 * Times(mul, w)
  {}

  /** The product the codec divider is computed from, in units of what 8 MHz stands for. */
  lemma AtLeast(p: nat, mul: nat, den: nat)
    requires 112_000_000 * mul <= p && 1 <= mul
    ensures 8_000_000 * (1792 * den) <= Times(p * 128, den)
  {
    MulMono(112_000_000 * 128, p * 128, den);
  }

  lemma AtMost(div: nat, den: nat)
    requires 1 <= div <= 8 && 1 <= den
    ensures 1 <= Times(128 * div, den) <= 1024 * den
  {
    MulMono(128 * div, 1024, den);
    MulMono(1, den, 128 * div);
  }

  lemma CodecProducts(f: real, h: real, ms: real, w: nat, den: nat, mul: nat, div: nat)
    requires f * ms == h * div as real && ms * (128.0 * den as real) == w as real
    ensures f * Times(mul, w) as real == (mul as real * h) * Times(128 * div, den) as real
  {
    TimesReal(mul, w);
    TimesReal(128 * div, den);
    hide Times;
    var m, d, v := mul as real, div as real, den as real;
    assert (128 * div) as real == 128.0 * d;
    calc {
      f * (m * w as real);
      f * (m * (ms * (128.0 * v)));
      (f * ms) * (m * (128.0 * v));
      (h * d) * (m * (128.0 * v));
      (m * h) * (128.0 * d * v);
    }
  }

  /** Whatever the generator has been through, stale or not, CLK2 gives the codec its 8 MHz as soon as a frequency is
      set: both PLLs and the codec divider always follow. */
  lemma CodecIsAccurate(cfg: Config, c: Chip, cache: seq<byte>, k: Caches)
    requires |c.ms| == 3 && |c.ctl| == 3 && |cache| == 3 && Consistent(cfg, c, cache, k) && k.freq != 0
    requires c.ctl[CODEC_CHANNEL] == CLK_POWERDOWN || c.ctl[CODEC_CHANNEL] == cache[CODEC_CHANNEL]
    ensures CodecOnFrequency(cfg, c)
  {
    hide Row, Config.Plan, Cold, Near, PllSetting, MsSetting, PllDivider, CodecDivider, CodecFromPllB, Times, Control,
         Delivers, Fits, Strength, KeptControls, LowBandOutputs, FromPllB;
    PlanFacts(cfg, k.freq, k.power);
    ColdParts(cfg, k.freq, k.power);
    var (band, rdiv, _) := cfg.Plan(k.freq, k.power);
    var row := Row(cfg.board, band);
    RowFacts(cfg.board, band);
    var base := DRIVE_2MA + CLK_PLL_SELECT_B;
    if c.ctl[CODEC_CHANNEL] == CLK_POWERDOWN {
    } else if k.freq <= 100_000_000 {
      CodecFixedNear(cfg);
      RoutedDelivers(cfg, c, CODEC_CHANNEL, c.pllB, CodecDivider(cfg), 0, base, 1, 8_000_000);
    } else {
      CodecMultNear(cfg, k.freq, k.power);
      RoutedDelivers(cfg, c, CODEC_CHANNEL, c.pllB, CodecFromPllB(row, k.freq, rdiv), rdiv, base, 1, 8_000_000);
    }
  }

  /** A PLL for band 3 behind a divide-by-128 gives a few megahertz at most. */
  lemma SlowClock(cfg: Config, pll: Setting, band3: Setting, ms: Setting, f: nat, freq: nat)
    requires 100_000_000 < freq && f <= 131_000_000 && 0 < band3.p3 && Ratio(band3) == 8.0 && band3.r == 0
    requires Near(cfg, pll, band3, 1, f) && ms.r == 7
    ensures !Near(cfg, pll, ms, 1, freq)
  {
    if 0 < ms.p3 {
      AtLeastFour(ms);
      Powers();
      assert Pow2(0) == 1;
      var x, p, m := cfg.xtal as real, Ratio(pll), Ratio(ms);
      var f3, slow := Hertz(x, p, 8.0, 1.0), Hertz(x, p, m, 128.0);
      assert ClockHz(cfg, pll, band3) == f3 && ClockHz(cfg, pll, ms) == slow;
      hide Hertz, Ratio, ClockHz, Pow2;
      SlowQuotient(slow, m, x * p);
    }
  }

  lemma AtLeastFour(s: Setting)
    requires 0 < s.p3
    ensures 4.0 <= Ratio(s)
  {
    assert 0.0 <= s.p2 as real / s.p3 as real;
  }

  lemma SlowQuotient(f: real, m: real, a: real)
    requires f * (m * 128.0) == a && a < 1_056_000_000.0 && 4.0 <= m
    ensures f < 3_000_000.0
  {
    if 3_000_000.0 <= f {
      RealMono(512.0, m * 128.0, 3_000_000.0);
      RealMono(3_000_000.0, f, m * 128.0);
    }
  }

  /** Neither output runs. */
  predicate Silent(c: Chip)
    requires |c.ctl| == 3
  {
    c.ctl[FREQ_CHANNEL] == c.ctl[OFREQ_CHANNEL] == CLK_POWERDOWN
  }

  /** Stale dividers put every running output off frequency. */
  lemma StaleIsOff(cfg: Config, c: Chip, cache: seq<byte>, k: Caches)
    requires |c.ms| == 3 && |c.ctl| == 3 && |cache| == 3 && Consistent(cfg, c, cache, k) && k.Stale()
    requires !Silent(c)
    ensures cfg.Covers(k.freq) && !OnFrequency(cfg, c, k.freq, k.power)
  {
    hide Config.Plan, Cold, Near, PllSetting, MsSetting, PllDivider, Times, FromPllB, Ratio;
    PlanFacts(cfg, k.freq, k.power);
    RowFacts(cfg.board, 3);
    ColdParts(cfg, k.freq, k.power);
    FixedMultNear(cfg, k.freq, 0, k.power, 1);
    FixedMultNear(cfg, k.freq, cfg.offset, k.power, 1);
    var band3 := MsSetting(Whole(8), 0);
    FitsIsIdeal(Whole(8), 0);
    WholeRatio(8);
    var f := k.freq + cfg.offset;
    forall ch: nat, freq: nat | ch < 2 && 100_000_000 < freq
      ensures !Delivers(cfg, c, ch, 1, freq)
    {
      var target := if FromPllB(c.ctl[ch]) then k.freq else f;
      SlowClock(cfg, Source(c, ch), band3, Effective(c.ms[ch], c.ctl[ch]), target, freq);
    }
  }

  /** So a generator is on frequency exactly when its caches are not stale or nothing runs, whatever it has been
      through. */
  lemma GeneratorOnFrequencyIff(g: Generator)
    requires g.Valid() && g.currentFreq != 0 && Reachable(g.cfg, g.currentFreq)
    ensures g.cfg.Covers(g.currentFreq)
    ensures OnFrequency(g.cfg, g.State(), g.currentFreq, g.currentPower) <==>
            !g.Cached().Stale() || Silent(g.State())
  {
    hide Config.Plan, Config.Covers, Cold, OnFrequency, Reachable, FromPllB, ReadChip, Row, Carries, Silent;
    if Silent(g.State()) {
      SilentIsOn(g.cfg, g.State(), g.currentFreq, g.currentPower);
    } else if g.Cached().Stale() {
      StaleIsOff(g.cfg, g.State(), g.clkCache, g.Cached());
    } else {
      InStepIff(g.cfg, g.State(), g.clkCache, g.Cached());
      SourcesKept(g.cfg, g.State(), g.clkCache, g.Cached());
      InTuneIsAccurate(g.cfg, g.State(), g.currentFreq, g.currentPower);
    }
  }

  lemma SilentIsOn(cfg: Config, c: Chip, freq: nat, drive: nat)
    requires cfg.Covers(freq) && |c.ms| == 3 && |c.ctl| == 3 && Silent(c)
    ensures OnFrequency(cfg, c, freq, drive)
  {
    hide Delivers;
  }

  /** The outputs that run are within a hertz of the frequency that is set. */
  ghost predicate Tuned1Hz(g: Generator)
    requires g.Valid() && g.currentFreq != 0
    reads g
  {
    FrequencyFits(g.cfg, g.Cached());
    OnFrequency(g.cfg, g.State(), g.currentFreq, g.currentPower)
  }

  /** The control bytes are those of a cold start at this frequency. */
  ghost predicate ControlsAsCold(g: Generator)
    requires g.Valid() && g.currentFreq != 0
    reads g
  {
    FrequencyFits(g.cfg, g.Cached());
    g.clkCache == Cold(g.cfg, g.currentFreq, g.currentPower).ctl
  }

  const AFTER_START := Tuned(DRIVE_2MA, [26_000_000])

  /** Configuration and caches after start-up. */
  ghost function Started(cfg: Config): (m: Memory)
    requires cfg.Valid() && cfg.Covers(START_FREQUENCY)
    ensures Sound(m.cfg, m.caches) && m.cfg == cfg
  {
    hide Config.Plan, Config.Covers, Step;
    StepIsSound(cfg, ZERO_CACHES, START_FREQUENCY, DRIVE_2MA);
    Memory(cfg, Step(cfg, ZERO_CACHES, START_FREQUENCY, DRIVE_2MA))
  }

  /** A session from power-on. After any run the outputs that run are on frequency if and only if the run does not end
      stale, and the control bytes are those of a cold start if and only if moreover it keeps no drive strengths of an
      earlier band; the codec clock, if it runs, is right in any case. Without a mute all three clocks are powered, and
      the outputs are disabled exactly after a mute that no restart follows. Crystal and offset are the last ones asked
      for. */
  method Session(cfg: Config, powerOn: seq<byte>, ops: seq<Op>) returns (g: Generator)
    requires cfg.Valid() && |powerOn| == REGISTER_COUNT && cfg.Covers(START_FREQUENCY)
    requires Legal(Started(cfg), ops)
    ensures fresh(g) && g.Valid()
    ensures Mute !in ops ==> forall ch :: 0 <= ch < 3 ==> g.State().ctl[ch] != CLK_POWERDOWN
    ensures g.currentFreq != 0 && Reachable(g.cfg, g.currentFreq) ==>
              (Tuned1Hz(g) <==> !EndsStale(ops) || Silent(g.State()))
    ensures g.currentFreq != 0 ==> CodecOnFrequency(g.cfg, g.State())
    ensures forall ch: nat :: ch < 3 ==> (g.State().Enabled(ch) <==> !EndsMuted(ops))
    ensures Configured(cfg, g.cfg, ops)
    ensures g.currentFreq != 0 ==>
              (ControlsAsCold(g) <==>
               !EndsStale(ops) && !KeepsStrengths(cfg, Since(AFTER_START, ops)))
  {
    hide Config.Plan, Config.Covers, Cold, OnFrequency, Reachable, ReadChip, Row, Carries, Sound, Step, KeepsStrengths,
         Since, CodecOnFrequency, Chip.Enabled, EndsMuted, Disabled, Configured;
    FirstFrequency(cfg);
    AllClocksNeeded(cfg);
    g := new Generator(cfg, powerOn);
    ghost var start := g.Now();
    StaleIff(start, ops);
    DriveIff(start, ops);
    g.Run(ops);
    FrequencyFits(g.cfg, g.Cached());
    if g.currentFreq != 0 {
      ControlsIff(g.cfg, g.State(), g.clkCache, g.Cached());
      CodecIsAccurate(g.cfg, g.State(), g.clkCache, g.Cached());
    }
    MutedIff(g.State(), ops);
    ConfigIs(start, ops);
    if g.currentFreq != 0 && Reachable(g.cfg, g.currentFreq) { GeneratorOnFrequencyIff(g); }
  }

  lemma AllClocksNeeded(cfg: Config)
    requires cfg.Valid() && cfg.Covers(START_FREQUENCY)
    ensures forall ch :: 0 <= ch < 3 ==> Cold(cfg, START_FREQUENCY, DRIVE_2MA).ctl[ch] != CLK_POWERDOWN
  {
    PlanFacts(cfg, START_FREQUENCY, DRIVE_2MA);
    hide Cold, Config.Plan, Config.Covers;
    ColdControlBytes(cfg, START_FREQUENCY, DRIVE_2MA);
  }
}
