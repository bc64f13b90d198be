/** Programming the clock generator (si5351.c): dividers, PLLs, and si5351_set_frequency with its caches
    over a register file. */
module Synth {
  import opened Arithmetic
  import opened Bytes
  import opened Fraction
  import opened Registers
  import opened Bands

  const PLL_A := 26
  const PLL_B := 34
  const MULTISYNTH := 42
  const CLK_CONTROL := 16
  const OUTPUT_ENABLE := 3

  const PLL_N_2 := 32
  const CLK2_FREQUENCY := 8_000_000
  const OFREQ_CHANNEL := 0
  const FREQ_CHANNEL := 1
  const CODEC_CHANNEL := 2

  const CLK_POWERDOWN: byte := 128
  const OUTPUTS_ON: byte := 0xF8
  const OUTPUTS_OFF: byte := 7
  const CLK_INTEGER_MODE := 64
  const CLK_PLL_SELECT_B := 32
  const CLK_INPUT_MULTISYNTH_N := 12
  const DIVBY4 := 12

  /** The smallest divider, times 128, and one past the largest that 18 bits of P1 can hold. */
  const MIN_DIVIDER := 4 * 128
  const DIVIDER_END := MIN_DIVIDER + 0x4_0000

  /** A divider as three register values, before truncation: 128 * ratio = whole + num/den. */
  datatype Divider = Divider(whole: nat, num: nat, den: nat)

  /** n/d split into a whole part and a fraction of bounded denominator; a fraction that rounds to one
      is carried into the whole part. */
  function Split(n: nat, d: nat): (r: Divider)
    requires 1 <= d
  {
    var a := Approximation(Remainder(n, d), d, MAX_DENOMINATOR);
    if a.0 == a.1 then Divider(Quotient(n, d) + 1, 0, a.1) else Divider(Quotient(n, d), a.0, a.1)
  }

  /** What the chip holds after si5351_setupPLL. */
  function PllSetting(v: Divider): Setting {
    Decode(Image(Sub32(v.whole, MIN_DIVIDER), v.num, v.den, 0))
  }

  function Top(v: Divider, rdiv: nat): nat {
    rdiv * 0x10 + if Sub32(v.whole, MIN_DIVIDER) == 0 then DIVBY4 else 0
  }

  /** What a multisynth holds after si5351_setupMultisynth. */
  function MsSetting(v: Divider, rdiv: nat): Setting
    requires rdiv < 8
  {
    Decode(Image(Sub32(v.whole, MIN_DIVIDER), v.num, v.den, Top(v, rdiv)))
  }

  /** The setting a divider stands for when nothing is truncated. */
  function Ideal(v: Divider, rdiv: nat): Setting
    requires MIN_DIVIDER <= v.whole
  {
    Setting(v.whole - MIN_DIVIDER, v.num, v.den, rdiv, v.whole == MIN_DIVIDER)
  }

  // ---- dividers ----

  /** A divider in range for P2 and P3, reduced, whose whole part is the quotient or its carry. */
  ghost predicate InRange(v: Divider, n: nat, d: nat)
    requires 1 <= d
  {
    && v.num < v.den <= MAX_DENOMINATOR
    && Coprime(v.num, v.den)
    && (v.whole == Quotient(n, d) || (v.whole == Quotient(n, d) + 1 && v.num == 0))
  }

  /** No divider with a denominator of 20 bits is closer to n/d, and the error is below 1/(den * 2^20). */
  ghost predicate Closest(v: Divider, n: nat, d: nat) {
    && BestApproximation(n, d, MAX_DENOMINATOR, v.whole * v.den + v.num, v.den)
    && (Residual(n, d, v.whole * v.den + v.num, v.den) == 0 ||
        Residual(n, d, v.whole * v.den + v.num, v.den) * (MAX_DENOMINATOR + 1) <= d)
  }

  lemma SplitInRange(n: nat, d: nat)
    requires 1 <= d
    ensures InRange(Split(n, d), n, d)
  {
    hide Quotient, Times, Remainder, Coprime, BestApproximation, Approximation;
    ApproximationIsBest(Remainder(n, d), d, MAX_DENOMINATOR);
    CoprimeZeroOne();
  }

  lemma Shift(n: int, d: int, k: int, x: int, y: int)
    ensures Residual(n, d, x, y) == Residual(n - k * d, d, x - k * y, y)
  {
    assert y * (n - k * d) - (x - k * y) * d == y * n - x * d;
  }

  /** Adding a whole number to target and answer changes no distance. */
  lemma ShiftBest(n: int, d: int, max: int, k: int, p: int, q: int)
    requires BestApproximation(n - k * d, d, max, p, q)
    ensures BestApproximation(n, d, max, k * q + p, q)
    ensures Residual(n, d, k * q + p, q) == Residual(n - k * d, d, p, q)
  {
    hide Residual;
    Shift(n, d, k, k * q + p, q);
    forall x, y | 1 <= y <= max
      ensures Residual(n, d, k * q + p, q) <= Residual(n, d, x, y)
    {
      Shift(n, d, k, x, y);
    }
  }

  lemma SplitIsClosest(n: nat, d: nat)
    requires 1 <= d
    ensures Closest(Split(n, d), n, d)
  {
    hide Approximation, BestApproximation, Residual, Quotient, Coprime;
    var k, a := Quotient(n, d), Approximation(Remainder(n, d), d, MAX_DENOMINATOR);
    ApproximationIsBest(Remainder(n, d), d, MAX_DENOMINATOR);
    assert Remainder(n, d) == n - k * d;
    ShiftBest(n, d, MAX_DENOMINATOR, k, a.0, a.1);
    var v := Split(n, d);
    assert v.whole * v.den + v.num == k * a.1 + a.0;
  }

  /** When some 20-bit denominator expresses n/d, the divider is exact. */
  lemma SplitExact(n: nat, d: nat, x: int, y: int)
    requires 1 <= d && 1 <= y <= MAX_DENOMINATOR && y * n == x * d
    ensures var v := Split(n, d); v.den * n == (v.whole * v.den + v.num) * d
  {
    SplitIsClosest(n, d);
    assert Residual(n, d, x, y) == 0;
  }

  // ---- the chip and what a start from empty caches would put into it ----

  /** The register file as the chip reads it: two PLLs, three multisynths, three clock controls, and a set bit for
      every output that is disabled. */
  datatype Chip = Chip(pllA: Setting, pllB: Setting, ms: seq<Setting>, ctl: seq<byte>, disabled: byte) {
    predicate Enabled(ch: nat)
      requires ch < 3
    {
      disabled as int / Pow2(ch) % 2 == 0
    }

    ghost predicate SameDividers(that: Chip) {
      pllA == that.pllA && pllB == that.pllB && ms == that.ms
    }
  }

  ghost function ReadChip(regs: seq<byte>): (c: Chip)
    requires |regs| == REGISTER_COUNT
    ensures |c.ms| == 3 && |c.ctl| == 3
  {
    Chip(Decode(Block(regs, PLL_A)), Decode(Block(regs, PLL_B)),
         [Decode(Block(regs, MULTISYNTH)), Decode(Block(regs, MULTISYNTH + 8)), Decode(Block(regs, MULTISYNTH + 16))],
         regs[CLK_CONTROL..CLK_CONTROL + 3], regs[OUTPUT_ENABLE])
  }

  /** The registers of the chip by their numbers. */
  lemma RegisterMap(regs: seq<byte>)
    requires |regs| == 256
    ensures var c := ReadChip(regs);
      && c.disabled == regs[3] && c.ctl == regs[16..19]
      && c.pllA == Decode(regs[26..34]) && c.pllB == Decode(regs[34..42])
      && c.ms == [Decode(regs[42..50]), Decode(regs[50..58]), Decode(regs[58..66])]
  {
    hide Decode;
  }

  lemma WritePll(regs: seq<byte>, addr: nat, data: seq<byte>)
    requires |regs| == REGISTER_COUNT && |data| == 8 && (addr == PLL_A || addr == PLL_B)
    ensures ReadChip(Written(regs, addr, data)) ==
            if addr == PLL_A then ReadChip(regs).(pllA := Decode(data)) else ReadChip(regs).(pllB := Decode(data))
  {
    hide Decode;
    WrittenElsewhere(regs, addr, data);
    assert Written(regs, addr, data)[CLK_CONTROL..CLK_CONTROL + 3] == regs[CLK_CONTROL..CLK_CONTROL + 3];
  }

  lemma WriteMultisynth(regs: seq<byte>, ch: nat, data: seq<byte>)
    requires |regs| == REGISTER_COUNT && |data| == 8 && ch < 3
    ensures ReadChip(Written(regs, MULTISYNTH + 8 * ch, data)) ==
            ReadChip(regs).(ms := ReadChip(regs).ms[ch := Decode(data)])
  {
    hide Decode;
    WrittenElsewhere(regs, MULTISYNTH + 8 * ch, data);
    assert Written(regs, MULTISYNTH + 8 * ch, data)[CLK_CONTROL..CLK_CONTROL + 3] == regs[CLK_CONTROL..CLK_CONTROL + 3];
  }

  lemma WriteControl(regs: seq<byte>, ch: nat, c: byte)
    requires |regs| == REGISTER_COUNT && ch < 3
    ensures ReadChip(Written(regs, CLK_CONTROL + ch, [c])) ==
            ReadChip(regs).(ctl := ReadChip(regs).ctl[ch := c])
  {
    hide Decode;
    WrittenElsewhere(regs, CLK_CONTROL + ch, [c]);
    assert Written(regs, CLK_CONTROL + ch, [c])[CLK_CONTROL..CLK_CONTROL + 3] ==
           regs[CLK_CONTROL..CLK_CONTROL + 3][ch := c];
  }

  /** Control byte of a channel: input from its multisynth, integer mode when the divider has no fraction. */
  function Control(base: nat, num: nat): (c: byte)
    requires base < 4 || 32 <= base < 36
    ensures c != CLK_POWERDOWN && c != 0
  {
    base + CLK_INPUT_MULTISYNTH_N + if num == 0 then CLK_INTEGER_MODE else 0
  }

  /** Drive strengths above 8 mA mean: take the strength of the band. */
  function Strength(drive: nat, ofBand: nat): nat {
    if drive > DRIVE_8MA then ofBand else drive
  }

  /** A frequency scaled by 128 before the output divider 2^rdiv. */
  function Scaled(hz: nat, rdiv: nat): nat
    requires rdiv <= 7
  {
    Times(hz, Pow2(7 - rdiv))
  }

  /** The frequency of a fixed PLL, times the harmonic used. */
  function PllHz(cfg: Config, row: Strategy, mul: nat): nat {
    Times(Times(mul, cfg.xtal), row.div)
  }

  /** The dividers of a band whose PLL is fixed and whose output dividers follow the frequency. */
  function OutputDivider(cfg: Config, row: Strategy, mul: nat, freq: nat, rdiv: nat): Divider
    requires 1 <= freq && rdiv <= 7
  {
    Split(Scaled(PllHz(cfg, row, mul), rdiv), freq)
  }

  function CodecDivider(cfg: Config): Divider {
    Split(Scaled(cfg.xtal * PLL_N_2, 0), CLK2_FREQUENCY)
  }

  /** The PLL multiplier of a band whose output divider is fixed. */
  function PllDivider(cfg: Config, row: Strategy, mul: nat, freq: nat): Divider
    requires 1 <= Times(cfg.xtal, mul)
  {
    Split(Scaled(Times(freq, row.div), 0), Times(cfg.xtal, mul))
  }

  function CodecFromPllB(row: Strategy, freq: nat, rdiv: nat): Divider
    requires 1 <= row.mul && rdiv <= 7
  {
    Split(Scaled(Times(freq, row.div), rdiv), CLK2_FREQUENCY * row.mul)
  }

  function Whole(n: nat): Divider { Divider(n * 128, 0, 1) }

  /** The fixed-PLL arm, started from empty caches. */
  function ColdFixedPll(cfg: Config, row: Strategy, freq: nat, ofreq: nat, rdiv: nat, ds: nat, ods: nat): (c: Chip)
    requires 1 <= freq && 1 <= ofreq && rdiv <= 7 && ds <= 3 && ods <= 3
    ensures |c.ms| == 3 && |c.ctl| == 3
  {
    hide Split, PllSetting, MsSetting;
    var o, f, c := OutputDivider(cfg, row, row.omul, ofreq, rdiv), OutputDivider(cfg, row, row.mul, freq, rdiv),
                   CodecDivider(cfg);
    Chip(PllSetting(Whole(row.div)), PllSetting(Whole(PLL_N_2)),
         [MsSetting(o, rdiv), MsSetting(f, rdiv), MsSetting(c, 0)],
         [Control(ods, o.num), Control(ds, f.num), Control(DRIVE_2MA + CLK_PLL_SELECT_B, c.num)], OUTPUTS_ON)
  }

  /** The fixed-divider arm, started from empty caches. */
  function ColdFixedMult(cfg: Config, row: Strategy, freq: nat, ofreq: nat, rdiv: nat, ds: nat, ods: nat): (c: Chip)
    requires 1 <= Times(cfg.xtal, row.mul) && 1 <= Times(cfg.xtal, row.omul) && 1 <= row.mul
    requires rdiv <= 7 && ds <= 3 && ods <= 3
    ensures |c.ms| == 3 && |c.ctl| == 3
  {
    hide Split, PllSetting, MsSetting;
    var o, f, c := PllDivider(cfg, row, row.omul, ofreq), PllDivider(cfg, row, row.mul, freq),
                   CodecFromPllB(row, freq, rdiv);
    Chip(PllSetting(o), PllSetting(f),
         [MsSetting(Whole(row.div), rdiv), MsSetting(Whole(row.div), rdiv), MsSetting(c, rdiv)],
         [Control(ods, 0), Control(ds + CLK_PLL_SELECT_B, 0), Control(DRIVE_2MA + CLK_PLL_SELECT_B, c.num)],
         OUTPUTS_ON)
  }

  /** The two bands below 100 MHz run a fixed PLL, the others a fixed divider, and no two rows of different modes
      share a divider byte but 1 and 3. */
  lemma RowFacts(board: Board, i: nat)
    requires 1 <= i <= LAST_BAND
    ensures Row(board, 0).div == 0
    ensures var row := Row(board, i);
      && row.pow <= 3 && row.opow <= 3 && 1 <= row.mul <= 11 && 1 <= row.omul <= 12
      && row.mode == (if i <= 2 then FixedPll else FixedMult)
      && (i <= 2 ==> row.mul == 1 && row.omul == 1 && row.div == if i == 1 then 8 else 32)
      && (3 <= i ==> (row.div == 8 <==> i == 3) && (row.div == 8 || row.div == 6 || row.div == 4))
  {}

  /** What a planned band gives the two arms. */
  lemma PlannedRow(cfg: Config, freq: nat, drive: nat)
    requires cfg.Valid() && cfg.Covers(freq)
    ensures var (band, rdiv, strength) := cfg.Plan(freq, drive);
            var row := Row(cfg.board, band);
      && rdiv <= 7 && 1 <= row.mul && Strength(strength, row.pow) <= 3 && Strength(strength, row.opow) <= 3
      && 1 <= Times(cfg.xtal, row.mul) && 1 <= Times(cfg.xtal, row.omul)
  {
    hide Row, Config.Plan, Config.Covers;
    PlanFacts(cfg, freq, drive);
    var band := cfg.Plan(freq, drive).0;
    RowFacts(cfg.board, band);
    var row := Row(cfg.board, band);
    MulMono(1, row.mul, cfg.xtal);
    MulMono(1, row.omul, cfg.xtal);
  }

  /** Everything si5351_set_frequency writes when nothing is cached. */
  function Cold(cfg: Config, freq: nat, drive: nat): (c: Chip)
    requires cfg.Valid() && cfg.Covers(freq)
    ensures |c.ms| == 3 && |c.ctl| == 3
  {
    hide Row, Config.Plan, ColdFixedPll, ColdFixedMult, Strength, Times, Config.Valid;
    PlannedRow(cfg, freq, drive);
    var (band, rdiv, strength) := cfg.Plan(freq, drive);
    var row := Row(cfg.board, band);
    var ds, ods, ofreq := Strength(strength, row.pow), Strength(strength, row.opow), freq + cfg.offset;
    if row.mode == FixedPll then ColdFixedPll(cfg, row, freq, ofreq, rdiv, ds, ods)
    else ColdFixedMult(cfg, row, freq, ofreq, rdiv, ds, ods)
  }

  /** State after a multisynth and its control are set up, given the cached control bytes. */
  function Programmed(c: Chip, cache: seq<byte>, ch: nat, v: Divider, rdiv: nat, chctrl: nat): (r: Chip)
    requires |c.ms| == 3 && |c.ctl| == 3 && |cache| == 3 && ch < 3
    requires rdiv < 8 && (chctrl < 4 || 32 <= chctrl < 36)
    ensures |r.ms| == 3 && |r.ctl| == 3
  {
    c.(ms := c.ms[ch := MsSetting(v, rdiv)],
       ctl := if cache[ch] == Control(chctrl, v.num) then c.ctl else c.ctl[ch := Control(chctrl, v.num)])
  }

  lemma QuotientUnder(m: nat, n: nat, k: nat)
    requires 0 < n && m < k * n
    ensures Quotient(m, n) < k
  {
    if Quotient(m, n) >= k { MulMono(k, Quotient(m, n), n); }
  }

  /** The output divider exponent survives in its own bits. */
  lemma ExponentKept(v: Divider, rdiv: nat)
    requires rdiv < 8
    ensures MsSetting(v, rdiv).r == rdiv
  {
    hide Image, Decode;
    DecodeImage(Sub32(v.whole, MIN_DIVIDER), v.num, v.den, Top(v, rdiv));
  }

  /** A control register after a write that the cache may suppress. */
  function ControlAfter(now: byte, cached: byte, wanted: byte): byte {
    if cached == wanted then now else wanted
  }

  ghost predicate ControlsWritten(before: Chip, cache: seq<byte>, after: Chip, cold: Chip)
    requires |before.ctl| == 3 && |cache| == 3 && |after.ctl| == 3 && |cold.ctl| == 3
  {
    forall ch :: 0 <= ch < 3 ==> after.ctl[ch] == ControlAfter(before.ctl[ch], cache[ch], cold.ctl[ch])
  }

  /** No output is enabled or disabled ... */
  ghost predicate StaysOn(before: Chip, after: Chip)
    requires |before.ctl| == 3 && |after.ctl| == 3
  {
    before.disabled == after.disabled && StaysPowered(before, after)
  }

  /** ... and no running clock is powered down. */
  ghost predicate StaysPowered(before: Chip, after: Chip)
    requires |before.ctl| == 3 && |after.ctl| == 3
  {
    forall ch :: 0 <= ch < 3 && before.ctl[ch] != CLK_POWERDOWN ==> after.ctl[ch] != CLK_POWERDOWN
  }

  /** The outputs still carry the divide-by-128 of the lowest band. */
  ghost predicate LowBandOutputs(c: Chip)
    requires |c.ms| == 3
  {
    c.ms[0].r == 7 && c.ms[1].r == 7
  }

  /** Both PLLs and the codec clock are as a cold start would leave them. */
  ghost predicate SourcesFollow(c: Chip, cold: Chip)
    requires |c.ms| == 3 && |cold.ms| == 3
  {
    c.pllA == cold.pllA && c.pllB == cold.pllB && c.ms[2] == cold.ms[2]
  }

  /** The caches of si5351_set_frequency, and the band whose row the output dividers were last set up for. */
  datatype Caches = Caches(band: nat, power: nat, freq: nat, wrote: nat) {
    /** The outputs still carry the lowest band although the table's divider byte reads as band 3's. */
    predicate Stale() { freq != 0 && band == 3 && wrote == 1 }

    /** After si5351_reset_cache. */
    function Reset(): Caches { Caches(0, power, 0, 0) }
  }

  /** What one call does to them. In the bands with a fixed divider the outputs are set up again only when the
      table's divider byte changes. */
  function Step(cfg: Config, c: Caches, freq: nat, drive: nat): Caches
    requires c.band <= LAST_BAND && (freq == 0 || cfg.Covers(freq))
  {
    if freq == 0 then c else
    var (band, _, strength) := cfg.Plan(freq, drive);
    var k := if c.power == strength then c else c.Reset();
    if k.freq == freq then k
    else Caches(band, strength, freq, if LeavesOutputs(cfg, k, band) then k.wrote else band)
  }

  predicate LeavesOutputs(cfg: Config, c: Caches, band: nat)
    requires c.band <= LAST_BAND && band <= LAST_BAND
  {
    3 <= band && Row(cfg.board, c.band).div == Row(cfg.board, band).div
  }

  lemma Powers()
    ensures Pow2(7) == 128 && Pow2(0) == 1 && Pow2(3) == 8
    ensures forall k: nat :: k <= 7 ==> Pow2(k) <= 128
  {
    assert Pow2(3) == 8 by { assert Pow2(1) == 2; assert Pow2(2) == 4; }
    assert Pow2(7) == 128 by { assert Pow2(5) == 32; assert Pow2(6) == 64; }
    assert Pow2(1) == 2 && Pow2(2) == 4 && Pow2(4) == 16 && Pow2(5) == 32 && Pow2(6) == 64;
  }

  /** The fixed-PLL bands keep every quotient within 32 bits. */
  lemma FixedPllFits(cfg: Config, row: Strategy, mul: nat, freq: nat, rdiv: nat)
    requires cfg.Valid() && mul == 1 && 1 <= freq
    requires (row.div == 8 && rdiv == 7) || (row.div == 32 && 26_000 <= freq && rdiv <= 7)
    ensures Scaled(PllHz(cfg, row, mul), rdiv) < (TWO_32 - 1) * freq
    ensures Scaled(cfg.xtal * PLL_N_2, 0) < (TWO_32 - 1) * CLK2_FREQUENCY
  {
    Powers();
    var hz := PllHz(cfg, row, mul);
    assert hz == cfg.xtal * row.div;
    MulMono(Pow2(7 - rdiv), 128, hz);
  }

  /** So do the fixed-divider bands. */
  lemma FixedMultFits(cfg: Config, row: Strategy, mul: nat, freq: nat, rdiv: nat)
    requires cfg.Valid() && 1 <= mul <= 12 && freq < TWO_32 && row.div <= 8 && rdiv <= 7
    ensures 1 <= Times(cfg.xtal, mul) < TWO_32
    ensures Scaled(Times(freq, row.div), 0) < (TWO_32 - 1) * Times(cfg.xtal, mul)
    ensures Scaled(Times(freq, row.div), rdiv) < (TWO_32 - 1) * (CLK2_FREQUENCY * mul)
  {
    Powers();
    var hz, x := Times(freq, row.div), Times(cfg.xtal, mul);
    MulMono(row.div, 8, freq);
    MulMono(1, mul, cfg.xtal);
    MulMono(mul, 12, cfg.xtal);
    MulMono(Pow2(7 - rdiv), 128, hz);
    assert 24_000_000 <= x <= 12 * 28_000_000;
    assert hz <= 8 * TWO_32;
  }

  /** Chip and control cache after the fixed-PLL arm; `changed` when the band is new. */
  function FixedPllWrites(c: Chip, cache: seq<byte>, cfg: Config, row: Strategy, changed: bool,
                          freq: nat, ofreq: nat, rdiv: nat, ds: nat, ods: nat): (r: (Chip, seq<byte>))
    requires |c.ms| == 3 && |c.ctl| == 3 && |cache| == 3
    requires 1 <= freq && 1 <= ofreq && rdiv <= 7 && ds <= 3 && ods <= 3
  {
    hide Split, MsSetting, PllSetting, Control;
    var o, f, k := OutputDivider(cfg, row, row.omul, ofreq, rdiv), OutputDivider(cfg, row, row.mul, freq, rdiv),
                   CodecDivider(cfg);
    var base := DRIVE_2MA + CLK_PLL_SELECT_B;
    var (c1, cache1) :=
      if changed then
        (Programmed(c.(pllA := PllSetting(Whole(row.div)), pllB := PllSetting(Whole(PLL_N_2))), cache,
                    CODEC_CHANNEL, k, 0, base),
         cache[CODEC_CHANNEL := Control(base, k.num)])
      else (c, cache);
    var c2, cache2 := Programmed(c1, cache1, OFREQ_CHANNEL, o, rdiv, ods), cache1[OFREQ_CHANNEL := Control(ods, o.num)];
    (Programmed(c2, cache2, FREQ_CHANNEL, f, rdiv, ds), cache2[FREQ_CHANNEL := Control(ds, f.num)])
  }

  lemma FixedPllOutcome(c: Chip, cache: seq<byte>, cfg: Config, row: Strategy, changed: bool,
                        freq: nat, ofreq: nat, rdiv: nat, ds: nat, ods: nat)
    requires |c.ms| == 3 && |c.ctl| == 3 && |cache| == 3
    requires 1 <= freq && 1 <= ofreq && rdiv <= 7 && ds <= 3 && ods <= 3
    ensures var (after, kept) := FixedPllWrites(c, cache, cfg, row, changed, freq, ofreq, rdiv, ds, ods);
            var cold := ColdFixedPll(cfg, row, freq, ofreq, rdiv, ds, ods);
      && |after.ms| == 3 && |after.ctl| == 3 && |kept| == 3
      && (changed || SourcesFollow(c, cold) ==> after.SameDividers(cold))
      && kept[0] == cold.ctl[0] && kept[1] == cold.ctl[1] && (kept[2] == if changed then cold.ctl[2] else cache[2])
      && (changed ==> ControlsWritten(c, cache, after, cold))
      && StaysOn(c, after)
  {
    hide Split, MsSetting, PllSetting, Control, OutputDivider, CodecDivider;
  }

  /** Chip and control cache after the fixed-divider arm; `changed` when the output divider is new. */
  function FixedMultWrites(c: Chip, cache: seq<byte>, cfg: Config, row: Strategy, changed: bool,
                           freq: nat, ofreq: nat, rdiv: nat, ds: nat, ods: nat): (r: (Chip, seq<byte>))
    requires |c.ms| == 3 && |c.ctl| == 3 && |cache| == 3
    requires 1 <= Times(cfg.xtal, row.mul) && 1 <= Times(cfg.xtal, row.omul) && 1 <= row.mul
    requires rdiv <= 7 && ds <= 3 && ods <= 3
  {
    hide Split, MsSetting, PllSetting, Control;
    var o, f, k := PllDivider(cfg, row, row.omul, ofreq), PllDivider(cfg, row, row.mul, freq),
                   CodecFromPllB(row, freq, rdiv);
    var base, w := DRIVE_2MA + CLK_PLL_SELECT_B, Whole(row.div);
    var c1 := c.(pllA := PllSetting(o), pllB := PllSetting(f));
    var (c2, cache2) :=
      if changed then
        var cache1 := cache[OFREQ_CHANNEL := Control(ods, w.num)];
        (Programmed(Programmed(c1, cache, OFREQ_CHANNEL, w, rdiv, ods), cache1, FREQ_CHANNEL, w, rdiv,
                    ds + CLK_PLL_SELECT_B),
         cache1[FREQ_CHANNEL := Control(ds + CLK_PLL_SELECT_B, w.num)])
      else (c1, cache);
    (Programmed(c2, cache2, CODEC_CHANNEL, k, rdiv, base), cache2[CODEC_CHANNEL := Control(base, k.num)])
  }

  lemma FixedMultOutcome(c: Chip, cache: seq<byte>, cfg: Config, row: Strategy, changed: bool,
                         freq: nat, ofreq: nat, rdiv: nat, ds: nat, ods: nat)
    requires |c.ms| == 3 && |c.ctl| == 3 && |cache| == 3
    requires 1 <= Times(cfg.xtal, row.mul) && 1 <= Times(cfg.xtal, row.omul) && 1 <= row.mul
    requires rdiv <= 7 && ds <= 3 && ods <= 3
    ensures var (after, kept) := FixedMultWrites(c, cache, cfg, row, changed, freq, ofreq, rdiv, ds, ods);
            var cold := ColdFixedMult(cfg, row, freq, ofreq, rdiv, ds, ods);
      && |after.ms| == 3 && |after.ctl| == 3 && |kept| == 3
      && SourcesFollow(after, cold)
      && (after.ms[0] == if changed then cold.ms[0] else c.ms[0])
      && (after.ms[1] == if changed then cold.ms[1] else c.ms[1])
      && kept == (if changed then cold.ctl else [cache[0], cache[1], cold.ctl[2]])
      && (changed ==> ControlsWritten(c, cache, after, cold))
      && StaysOn(c, after)
  {
    hide Split, MsSetting, PllSetting, Control, PllDivider, CodecFromPllB;
  }

  /** What the caches know of themselves: the band is the frequency's, and in a band with a fixed divider the
      outputs were set up for a row with the same divider byte. */
  ghost predicate Sound(cfg: Config, k: Caches) {
    && cfg.Valid() && k.band <= LAST_BAND && (k.freq == 0 <==> k.band == 0)
    && (k.freq != 0 ==>
          && cfg.Covers(k.freq)
          && cfg.Plan(k.freq, k.power).0 == k.band && cfg.Plan(k.freq, k.power).2 == k.power
          && 1 <= k.wrote <= LAST_BAND && (k.wrote == 1 ==> k.power == DRIVE_2MA)
          && if k.band <= 2 then k.wrote == k.band
             else Row(cfg.board, k.wrote).div == Row(cfg.board, k.band).div && k.wrote != 2)
  }

  /** The control bytes of a fixed-divider band whose outputs were set up for row `wrote`. */
  function KeptControls(cfg: Config, k: Caches, codec: byte): seq<byte>
    requires 1 <= k.wrote <= LAST_BAND
  {
    var row := Row(cfg.board, k.wrote);
    [Control(Strength(k.power, row.opow), 0), Control(Strength(k.power, row.pow) + CLK_PLL_SELECT_B, 0), codec]
  }

  /** Bit 5 of a control byte routes the clock to PLL B. */
  predicate FromPllB(control: byte) { control as int / CLK_PLL_SELECT_B % 2 == 1 }

  /** What the caches say about the chip. In step, the dividers are those of a cold start, and so are the
      control bytes but for a drive strength taken from the row the outputs were set up for. Stale, the
      outputs are those of the lowest band, and CLK1 follows PLL A. */
  ghost predicate Carries(cfg: Config, c: Chip, cache: seq<byte>, k: Caches)
    requires |c.ms| == 3 && |cache| == 3 && Sound(cfg, k) && k.freq != 0
  {
    var cold := Cold(cfg, k.freq, k.power);
    && SourcesFollow(c, cold) && cache[CODEC_CHANNEL] == cold.ctl[CODEC_CHANNEL]
    && if k.Stale() then LowBandOutputs(c) && !FromPllB(cache[FREQ_CHANNEL])
       else c.SameDividers(cold) &&
            cache == if k.band <= 2 then cold.ctl else KeptControls(cfg, k, cold.ctl[CODEC_CHANNEL])
  }

  ghost predicate Consistent(cfg: Config, c: Chip, cache: seq<byte>, k: Caches)
    requires |c.ms| == 3 && |cache| == 3
  {
    Sound(cfg, k) && (k.freq != 0 ==> Carries(cfg, c, cache, k))
  }

  lemma CacheIsSound(cfg: Config, c: Chip, cache: seq<byte>, k: Caches)
    requires |c.ms| == 3 && |cache| == 3 && Consistent(cfg, c, cache, k)
    ensures cfg.Valid() && Sound(cfg, k)
  {}

  lemma StepIsSound(cfg: Config, k: Caches, freq: nat, drive: nat)
    requires Sound(cfg, k) && (freq == 0 || cfg.Covers(freq))
    ensures Sound(cfg, Step(cfg, k, freq, drive))
  {
    hide Config.Plan, Config.Covers;
    if freq != 0 {
      PlanFacts(cfg, freq, drive);
      PlanSettles(cfg, freq, drive);
      if k.freq != 0 { PlanFacts(cfg, k.freq, k.power); }
    }
  }

  /** Bits 2 and 3: the clock is fed by its own multisynth. */
  predicate OwnDivider(control: byte) { control as int / 4 % 4 == 3 }

  /** Bit 6: the multisynth ignores its fraction. */
  predicate IntegerMode(control: byte) { control as int / 64 % 2 == 1 }

  /** What a control byte says: powered, not inverted, fed by its own divider, in integer mode exactly when that has
      no fraction, from the PLL and at the strength asked for. */
  lemma ControlBits(base: nat, num: nat)
    requires base < 4 || 32 <= base < 36
    ensures var c := Control(base, num);
      && c < 128 && c as int / 16 % 2 == 0 && OwnDivider(c) && (IntegerMode(c) <==> num == 0)
      && (FromPllB(c) <==> 32 <= base) && c as int % 4 == base % 4
  {}

  /** Bytes that differ in the drive strength only. */
  predicate SameRoute(a: byte, b: byte) { a as int / 4 == b as int / 4 }

  lemma RouteBits(a: byte, b: byte)
    requires SameRoute(a, b)
    ensures (FromPllB(a) <==> FromPllB(b)) && (OwnDivider(a) <==> OwnDivider(b)) && (IntegerMode(a) <==> IntegerMode(b))
  {
    assert a as int / 32 == a as int / 4 / 8 && b as int / 32 == b as int / 4 / 8;
    assert a as int / 64 == a as int / 4 / 16 && b as int / 64 == b as int / 4 / 16;
  }

  lemma StrengthBits(a: nat, b: nat)
    requires a < 4 && b < 4
    ensures SameRoute(Control(a, 0), Control(b, 0))
    ensures SameRoute(Control(a + CLK_PLL_SELECT_B, 0), Control(b + CLK_PLL_SELECT_B, 0))
  {}

  /** A control byte's PLL, for the bases that are used. */
  lemma ControlSource(base: nat, num: nat)
    requires base < 4 || 32 <= base < 36
    ensures FromPllB(Control(base, num)) <==> 32 <= base
  {}

  lemma ControlDrive(a: nat, b: nat)
    requires a < 4 && b < 4
    ensures Control(a, 0) == Control(b, 0) <==> a == b
    ensures Control(a + CLK_PLL_SELECT_B, 0) == Control(b + CLK_PLL_SELECT_B, 0) <==> a == b
  {}

  /** The control bytes of a cold start in either kind of band. */
  lemma ColdControlBytes(cfg: Config, freq: nat, power: nat)
    requires cfg.Valid() && cfg.Covers(freq) && cfg.Plan(freq, power).2 == power
    ensures var cold, band := Cold(cfg, freq, power), cfg.Plan(freq, power).0;
            var row := Row(cfg.board, band);
      && row.pow <= 3 && row.opow <= 3
      && FromPllB(cold.ctl[CODEC_CHANNEL]) && !FromPllB(cold.ctl[OFREQ_CHANNEL])
      && (FromPllB(cold.ctl[FREQ_CHANNEL]) <==> 3 <= band)
      && (3 <= band ==> cold.ctl == [Control(Strength(power, row.opow), 0),
                                     Control(Strength(power, row.pow) + CLK_PLL_SELECT_B, 0), cold.ctl[CODEC_CHANNEL]])
      && (band <= 2 ==> cold.ctl[CODEC_CHANNEL] == Control(DRIVE_2MA + CLK_PLL_SELECT_B, CodecDivider(cfg).num))
      && (forall ch :: 0 <= ch < 3 ==> cold.ctl[ch] != CLK_POWERDOWN && cold.ctl[ch] != 0)
  {
    hide Row, Config.Plan, Config.Covers, MsSetting, PllSetting, Split, Control, FromPllB, OutputDivider, PllDivider,
      CodecDivider, CodecFromPllB, Times;
    var band, rdiv := cfg.Plan(freq, power).0, cfg.Plan(freq, power).1;
    RowFacts(cfg.board, band);
    PlannedRow(cfg, freq, power);
    var row := Row(cfg.board, band);
    var ds, ods := Strength(power, row.pow), Strength(power, row.opow);
    var codec := (if band <= 2 then CodecDivider(cfg) else CodecFromPllB(row, freq, rdiv)).num;
    ControlSource(DRIVE_2MA + CLK_PLL_SELECT_B, codec);
    forall num: nat
      ensures !FromPllB(Control(ods, num)) && !FromPllB(Control(ds, num)) &&
              FromPllB(Control(ds + CLK_PLL_SELECT_B, num))
    {
      ControlSource(ods, num);
      ControlSource(ds, num);
      ControlSource(ds + CLK_PLL_SELECT_B, num);
    }
    assert Cold(cfg, freq, power).ctl[CODEC_CHANNEL] == Control(DRIVE_2MA + CLK_PLL_SELECT_B, codec);
  }

  /** The arms' arguments for a planned band. */
  ghost predicate Planned(cfg: Config, row: Strategy, freq: nat, power: nat, band: nat, rdiv: nat, ds: nat, ods: nat)
    requires cfg.Covers(freq) && 1 <= band <= LAST_BAND
  {
    && row == Row(cfg.board, band)
    && cfg.Plan(freq, power) == (band, rdiv, power)
    && ds == Strength(power, row.pow) && ods == Strength(power, row.opow)
  }

  /** In a fixed-PLL band the dividers always end in step. */
  lemma FixedPllInStep(cfg: Config, c: Chip, cache: seq<byte>, k: Caches, freq: nat,
                       row: Strategy, band: nat, rdiv: nat, ds: nat, ods: nat)
    requires cfg.Covers(freq) && |c.ms| == 3 && |c.ctl| == 3 && |cache| == 3
    requires Consistent(cfg, c, cache, k)
    requires 1 <= band <= 2 && rdiv <= 7 && ds <= 3 && ods <= 3
    requires Planned(cfg, row, freq, k.power, band, rdiv, ds, ods)
    ensures row.mode == FixedPll
    ensures var after := FixedPllWrites(c, cache, cfg, row, k.band != band, freq, freq + cfg.offset, rdiv, ds, ods).0;
            |after.ms| == 3 && after.SameDividers(Cold(cfg, freq, k.power))
  {
    hide Row, Config.Plan, Split, MsSetting, PllSetting, Control, FixedPllWrites, OutputDivider, KeptControls, FromPllB;
    RowFacts(cfg.board, band);
    FixedPllOutcome(c, cache, cfg, row, k.band != band, freq, freq + cfg.offset, rdiv, ds, ods);
    if k.band == band {
      assert SourcesFollow(c, Cold(cfg, k.freq, k.power));
    }
  }

  lemma LowBandCold(cfg: Config, freq: nat, power: nat)
    requires cfg.Valid() && cfg.Covers(freq) && (freq < 26_000 || 1_000_000 < freq)
    ensures var cold := Cold(cfg, freq, power); cold.ms[0].r == cold.ms[1].r == if freq < 26_000 then 7 else 0
  {
    hide Cold, Config.Plan, Config.Covers;
    PlanFacts(cfg, freq, power);
    ColdExponent(cfg, freq, power);
  }

  lemma ColdExponent(cfg: Config, freq: nat, power: nat)
    requires cfg.Valid() && cfg.Covers(freq)
    ensures var cold := Cold(cfg, freq, power); cold.ms[0].r == cold.ms[1].r == cfg.Plan(freq, power).1
  {
    hide Row, Config.Plan, ColdFixedPll, ColdFixedMult, Times, Strength, Config.Valid;
    PlannedRow(cfg, freq, power);
    var (band, rdiv, strength) := cfg.Plan(freq, power);
    var row := Row(cfg.board, band);
    var ds, ods, ofreq := Strength(strength, row.pow), Strength(strength, row.opow), freq + cfg.offset;
    if row.mode == FixedPll {
      ColdExponents(cfg, row, freq, ofreq, rdiv, ds, ods);
    } else {
      ColdMultExponents(cfg, row, freq, ofreq, rdiv, ds, ods);
    }
  }

  lemma ColdExponents(cfg: Config, row: Strategy, freq: nat, ofreq: nat, rdiv: nat, ds: nat, ods: nat)
    requires 1 <= freq && 1 <= ofreq && rdiv <= 7 && ds <= 3 && ods <= 3
    ensures var cold := ColdFixedPll(cfg, row, freq, ofreq, rdiv, ds, ods); cold.ms[0].r == cold.ms[1].r == rdiv
  {
    hide MsSetting, PllSetting, Control, OutputDivider, CodecDivider;
    ExponentKept(OutputDivider(cfg, row, row.omul, ofreq, rdiv), rdiv);
    ExponentKept(OutputDivider(cfg, row, row.mul, freq, rdiv), rdiv);
  }

  lemma ColdMultExponents(cfg: Config, row: Strategy, freq: nat, ofreq: nat, rdiv: nat, ds: nat, ods: nat)
    requires 1 <= Times(cfg.xtal, row.mul) && 1 <= Times(cfg.xtal, row.omul) && 1 <= row.mul
    requires rdiv <= 7 && ds <= 3 && ods <= 3
    ensures var cold := ColdFixedMult(cfg, row, freq, ofreq, rdiv, ds, ods); cold.ms[0].r == cold.ms[1].r == rdiv
  {
    hide MsSetting, PllSetting, Control, PllDivider, CodecFromPllB, Times;
    ExponentKept(Whole(row.div), rdiv);
  }

  /** In step is what the caches call not stale. */
  lemma InStepIff(cfg: Config, c: Chip, cache: seq<byte>, k: Caches)
    requires |c.ms| == 3 && |cache| == 3 && Consistent(cfg, c, cache, k) && k.freq != 0
    ensures c.SameDividers(Cold(cfg, k.freq, k.power)) <==> !k.Stale()
  {
    hide Row, Config.Plan, Config.Covers, Cold, KeptControls, FromPllB;
    if k.Stale() {
      PlanFacts(cfg, k.freq, k.power);
      LowBandCold(cfg, k.freq, k.power);
    }
  }

  /** In a fixed-divider band the outputs are rewritten only when the table's divider byte changes, so they
      end in step unless that byte came from a PLL multiplier: band 1 before band 3. */
  lemma FixedMultInStep(cfg: Config, c: Chip, cache: seq<byte>, k: Caches, freq: nat,
                        row: Strategy, band: nat, rdiv: nat, ds: nat, ods: nat)
    requires cfg.Covers(freq) && |c.ms| == 3 && |c.ctl| == 3 && |cache| == 3
    requires Consistent(cfg, c, cache, k)
    requires 3 <= band <= LAST_BAND && rdiv <= 7 && ds <= 3 && ods <= 3
    requires Planned(cfg, row, freq, k.power, band, rdiv, ds, ods)
    requires 1 <= Times(cfg.xtal, row.mul) && 1 <= Times(cfg.xtal, row.omul) && 1 <= row.mul
    ensures row.mode == FixedMult
    ensures var cold := Cold(cfg, freq, k.power);
            var changed := Row(cfg.board, k.band).div != row.div;
            var after := FixedMultWrites(c, cache, cfg, row, changed, freq, freq + cfg.offset, rdiv, ds, ods).0;
            var stale := band == 3 && (k.band == 1 || k.Stale());
      && |after.ms| == 3 && SourcesFollow(after, cold)
      && (stale ==> LowBandOutputs(after))
      && (after.SameDividers(cold) <==> !stale)
  {
    hide Config.Plan, Split, MsSetting, PllSetting, Control, FixedMultWrites, OutputDivider, Times, Config.Covers,
      KeptControls, FromPllB, ColdFixedPll;
    RowFacts(cfg.board, band);
    PlanFacts(cfg, freq, k.power);
    var changed := Row(cfg.board, k.band).div != row.div;
    FixedMultOutcome(c, cache, cfg, row, changed, freq, freq + cfg.offset, rdiv, ds, ods);
    ExponentKept(Whole(row.div), 0);
    if !changed {
      RowFacts(cfg.board, k.band);
      PlanFacts(cfg, k.freq, k.power);
      if k.band == 1 { LowBandCold(cfg, k.freq, k.power); }
    }
  }

  /** Where a call must end: caches and chip consistent, controls rewritten after a cache reset, no running
      clock powered down. */
  ghost predicate Lands(cfg: Config, c: Chip, cache: seq<byte>, band0: nat, after: Chip, kept: seq<byte>, next: Caches)
    requires |c.ms| == 3 && |c.ctl| == 3 && |cache| == 3 && cfg.Valid() && cfg.Covers(next.freq)
  {
    && |after.ms| == 3 && |after.ctl| == 3 && |kept| == 3
    && Consistent(cfg, after, kept, next)
    && (band0 == 0 ==>
          var cold := Cold(cfg, next.freq, next.power); kept == cold.ctl && ControlsWritten(c, cache, after, cold))
    && StaysOn(c, after)
  }

  lemma FixedPllLands(cfg: Config, c: Chip, cache: seq<byte>, k: Caches, freq: nat,
                      row: Strategy, band: nat, rdiv: nat, ds: nat, ods: nat)
    requires cfg.Valid() && cfg.Covers(freq) && |c.ms| == 3 && |c.ctl| == 3 && |cache| == 3
    requires Consistent(cfg, c, cache, k)
    requires 1 <= band <= 2 && rdiv <= 7 && ds <= 3 && ods <= 3 && 1 <= freq
    requires Planned(cfg, row, freq, k.power, band, rdiv, ds, ods)
    ensures var r := FixedPllWrites(c, cache, cfg, row, k.band != band, freq, freq + cfg.offset, rdiv, ds, ods);
            Lands(cfg, c, cache, k.band, r.0, r.1, Caches(band, k.power, freq, band))
  {
    hide Row, Config.Plan, Config.Covers, FixedPllWrites, ColdFixedPll, ColdFixedMult, ControlsWritten, StaysOn,
         Strength, KeptControls, FromPllB, Control, CodecDivider;
    PlanFacts(cfg, freq, k.power);
    FixedPllInStep(cfg, c, cache, k, freq, row, band, rdiv, ds, ods);
    FixedPllOutcome(c, cache, cfg, row, k.band != band, freq, freq + cfg.offset, rdiv, ds, ods);
    ColdControlBytes(cfg, freq, k.power);
    if k.band == band { ColdControlBytes(cfg, k.freq, k.power); }
  }

  lemma FixedMultLands(cfg: Config, c: Chip, cache: seq<byte>, k: Caches, freq: nat,
                       row: Strategy, band: nat, rdiv: nat, ds: nat, ods: nat)
    requires cfg.Valid() && cfg.Covers(freq) && |c.ms| == 3 && |c.ctl| == 3 && |cache| == 3
    requires Consistent(cfg, c, cache, k)
    requires 3 <= band <= LAST_BAND && rdiv <= 7 && ds <= 3 && ods <= 3 && 1 <= freq
    requires Planned(cfg, row, freq, k.power, band, rdiv, ds, ods)
    requires 1 <= Times(cfg.xtal, row.mul) && 1 <= Times(cfg.xtal, row.omul) && 1 <= row.mul
    ensures var changed := Row(cfg.board, k.band).div != row.div;
            var r := FixedMultWrites(c, cache, cfg, row, changed, freq, freq + cfg.offset, rdiv, ds, ods);
            Lands(cfg, c, cache, k.band, r.0, r.1, Caches(band, k.power, freq, if changed then band else k.wrote))
  {
    hide Config.Plan, Config.Covers, FixedMultWrites, ColdFixedPll, ColdFixedMult, ControlsWritten, StaysOn,
      LowBandOutputs, SourcesFollow, Strength, Times, FromPllB, Control;
    RowFacts(cfg.board, band);
    PlanFacts(cfg, freq, k.power);
    var changed := Row(cfg.board, k.band).div != row.div;
    FixedMultInStep(cfg, c, cache, k, freq, row, band, rdiv, ds, ods);
    FixedMultOutcome(c, cache, cfg, row, changed, freq, freq + cfg.offset, rdiv, ds, ods);
    ColdControlBytes(cfg, freq, k.power);
    if !changed {
      RowFacts(cfg.board, k.band);
      PlanFacts(cfg, k.freq, k.power);
      ColdControlBytes(cfg, k.freq, k.power);
    }
  }

  /** The arguments of an arm, for a planned band. */
  lemma PlanGives(cfg: Config, freq: nat, power: nat, band: nat, rdiv: nat)
    requires cfg.Valid() && cfg.Covers(freq)
    requires cfg.Plan(freq, power) == (band, rdiv, power)
    ensures 1 <= freq && 1 <= band <= LAST_BAND && rdiv <= 7
    ensures var row := Row(cfg.board, band);
      && Strength(power, row.pow) <= 3 && Strength(power, row.opow) <= 3
      && Planned(cfg, row, freq, power, band, rdiv, Strength(power, row.pow), Strength(power, row.opow))
      && row.mode == (if band <= 2 then FixedPll else FixedMult)
      && (band <= 2 ==> row.mul == 1 && row.omul == 1 &&
                        ((row.div == 8 && rdiv == 7) || (row.div == 32 && 26_000 <= freq && rdiv <= 7)))
      && 1 <= row.mul <= 12 && 1 <= row.omul <= 12 && (3 <= band ==> row.div <= 8)
      && 1 <= Times(cfg.xtal, row.mul) && 1 <= Times(cfg.xtal, row.omul)
  {
    hide Row, Config.Plan, Times;
    PlanFacts(cfg, freq, power);
    PlannedRow(cfg, freq, power);
    RowFacts(cfg.board, band);
  }

  function OffsetFrequency(cfg: Config, freq: nat): (o: nat)
    requires cfg.Covers(freq)
    ensures freq <= o < TWO_32 && o == freq + cfg.offset
  {
    freq + cfg.offset
  }

  /** Planning again with the strength already chosen changes nothing. */
  lemma PlanSettles(cfg: Config, freq: nat, drive: nat)
    requires cfg.Covers(freq)
    ensures var p := cfg.Plan(freq, drive); cfg.Plan(freq, p.2) == p && 1 <= p.0 <= LAST_BAND && 1 <= freq
  {}

  lemma WriteEnable(regs: seq<byte>, data: byte)
    requires |regs| == REGISTER_COUNT
    ensures ReadChip(Written(regs, OUTPUT_ENABLE, [data])) == ReadChip(regs).(disabled := data)
  {
    hide Decode;
    WrittenElsewhere(regs, OUTPUT_ENABLE, [data]);
    assert Written(regs, OUTPUT_ENABLE, [data])[CLK_CONTROL..CLK_CONTROL + 3] == regs[CLK_CONTROL..CLK_CONTROL + 3];
  }

  lemma WriteAllControls(regs: seq<byte>, c: byte)
    requires |regs| == REGISTER_COUNT
    ensures ReadChip(Written(regs, CLK_CONTROL, [c, c, c])) == ReadChip(regs).(ctl := [c, c, c])
  {
    hide Decode;
    WrittenElsewhere(regs, CLK_CONTROL, [c, c, c]);
    assert Written(regs, CLK_CONTROL, [c, c, c])[CLK_CONTROL..CLK_CONTROL + 3] == [c, c, c];
  }

  /** From all clocks off, those come on whose control byte the cache did not hold. */
  lemma BackOn(off: Chip, cache: seq<byte>, after: Chip, cold: Chip)
    requires |cache| == 3 && |after.ctl| == 3 && |cold.ctl| == 3
    requires off.ctl == [CLK_POWERDOWN, CLK_POWERDOWN, CLK_POWERDOWN] && ControlsWritten(off, cache, after, cold)
    requires forall ch :: 0 <= ch < 3 ==> cold.ctl[ch] != CLK_POWERDOWN
    ensures forall ch :: 0 <= ch < 3 ==> (after.ctl[ch] == CLK_POWERDOWN <==> cache[ch] == cold.ctl[ch])
  {}

  // ---- the generator ----

  class Generator {
    var cfg: Config
    var currentBand: nat
    var currentPower: nat
    var currentFreq: nat
    var clkCache: seq<byte>
    var regs: seq<byte>
    ghost var wrote: nat

    /** Start-up (si5351_init), whatever the registers held: clocks powered down, caches zero, then a first
        frequency. */
    constructor (cfg: Config, powerOn: seq<byte>)
      requires cfg.Valid() && |powerOn| == REGISTER_COUNT && cfg.Covers(START_FREQUENCY)
      ensures Valid() && this.cfg == cfg
      ensures Now() == Memory(cfg, Step(cfg, ZERO_CACHES, START_FREQUENCY, DRIVE_2MA))
      ensures State().SameDividers(Cold(cfg, START_FREQUENCY, DRIVE_2MA))
      ensures State().ctl == clkCache == Cold(cfg, START_FREQUENCY, DRIVE_2MA).ctl
      ensures State().disabled == OUTPUTS_ON
    {
      hide Decode, Cold, Config.Covers, Carries, Config.Plan, Row, Step, Chip.SameDividers, SameDrive;
      this.cfg, currentBand, currentPower, currentFreq, clkCache, wrote := cfg, 0, 0, 0, [0, 0, 0], 0;
      regs := powerOn;
      new;
      regs := Written(regs, OUTPUT_ENABLE, [0xFF]);
      WriteAllControls(regs, CLK_POWERDOWN);
      regs := Written(regs, CLK_CONTROL, [CLK_POWERDOWN, CLK_POWERDOWN, CLK_POWERDOWN]);
      WriteEnable(regs, OUTPUTS_ON);
      regs := Written(regs, OUTPUT_ENABLE, [OUTPUTS_ON]);
      ghost var off := State();
      hide ReadChip;
      SetFrequency(START_FREQUENCY, DRIVE_2MA);
      FirstFrequency(cfg);
      AllOn(off, State(), Cold(cfg, START_FREQUENCY, DRIVE_2MA));
    }

    ghost function State(): (c: Chip)
      requires |regs| == REGISTER_COUNT
      reads this
    {
      ReadChip(regs)
    }

    /** A control register is either the one last written, which the cache remembers, or powered down. */
    ghost predicate ControlsCached()
      reads this
    {
      && |clkCache| == 3 && |regs| == REGISTER_COUNT
      && forall ch :: 0 <= ch < 3 ==> State().ctl[ch] == CLK_POWERDOWN || State().ctl[ch] == clkCache[ch]
    }

    method SetupPll(addr: nat, mult: uint32, num: uint32, denom: uint32)
      requires ControlsCached() && (addr == PLL_A || addr == PLL_B)
      modifies `regs
      ensures ControlsCached()
      ensures State() == if addr == PLL_A then old(State()).(pllA := PllSetting(Divider(mult, num, denom)))
                         else old(State()).(pllB := PllSetting(Divider(mult, num, denom)))
    {
      hide Image, Decode;
      var image := Image(Sub32(mult, MIN_DIVIDER), num, denom, 0);
      WritePll(regs, addr, image);
      regs := Written(regs, addr, image);
    }

    method SetupMultisynth(ch: nat, div: uint32, num: uint32, denom: uint32, rdiv: nat, chctrl: nat)
      requires ControlsCached() && ch < 3 && rdiv < 8 && (chctrl < 4 || 32 <= chctrl < 36)
      modifies `regs, `clkCache
      ensures ControlsCached()
      ensures clkCache == old(clkCache)[ch := Control(chctrl, num)]
      ensures State() == Programmed(old(State()), old(clkCache), ch, Divider(div, num, denom), rdiv, chctrl)
    {
      hide Image, Decode;
      var image := Image(Sub32(div, MIN_DIVIDER), num, denom, Top(Divider(div, num, denom), rdiv));
      WriteMultisynth(regs, ch, image);
      regs := Written(regs, MULTISYNTH + 8 * ch, image);
      var c := Control(chctrl, num);
      if clkCache[ch] != c {
        WriteControl(regs, ch, c);
        regs := Written(regs, CLK_CONTROL + ch, [c]);
        clkCache := clkCache[ch := c];
      }
    }

    /** Output divider for a fixed PLL: the closest divider of pllfreq to freq. */
    method SetFrequencyFixedPll(ch: nat, pllfreq: nat, freq: uint32, rdiv: nat, chctrl: nat)
      requires ControlsCached() && ch < 3 && rdiv < 8 && (chctrl < 4 || 32 <= chctrl < 36)
      requires 1 <= freq && Scaled(pllfreq, rdiv) < (TWO_32 - 1) * freq
      modifies `regs, `clkCache
      ensures ControlsCached()
      ensures var v := Split(Scaled(pllfreq, rdiv), freq);
              clkCache == old(clkCache)[ch := Control(chctrl, v.num)] &&
              State() == Programmed(old(State()), old(clkCache), ch, v, rdiv, chctrl)
    {
      hide Answer, Quotient, Remainder, Approximation, Control, MsSetting, ReadChip, Scaled;
      var scaled := Scaled(pllfreq, rdiv);
      QuotientUnder(scaled, freq, TWO_32 - 1);
      SplitInRange(scaled, freq);
      var div: uint32 := Quotient(scaled, freq);
      var num: uint32 := Remainder(scaled, freq);
      var denom: uint32 := freq;
      num, denom := ApproximateFraction(num, denom, MAX_DENOMINATOR);
      if num == denom {
        num := 0;
        div := div + 1;
      }
      SetupMultisynth(ch, div, num, denom, rdiv, chctrl);
    }

    /** PLL multiplier for a fixed output divider: the closest multiple of the crystal to pllfreq / div. */
    method SetupPllFreq(addr: nat, pllfreq: nat, div: nat)
      requires ControlsCached() && (addr == PLL_A || addr == PLL_B)
      requires 1 <= Times(cfg.xtal, div) < TWO_32 && Scaled(pllfreq, 0) < (TWO_32 - 1) * Times(cfg.xtal, div)
      modifies `regs
      ensures ControlsCached()
      ensures var v := PllSetting(Split(Scaled(pllfreq, 0), Times(cfg.xtal, div)));
              State() == if addr == PLL_A then old(State()).(pllA := v) else old(State()).(pllB := v)
    {
      hide Answer, Quotient, Remainder, Approximation, PllSetting, ReadChip, Scaled, Times;
      var scaled := Scaled(pllfreq, 0);
      var xtal: uint32 := Times(cfg.xtal, div);
      QuotientUnder(scaled, xtal, TWO_32 - 1);
      var multi: uint32 := Quotient(scaled, xtal);
      var num: uint32 := Remainder(scaled, xtal);
      var denom: uint32 := xtal;
      num, denom := ApproximateFraction(num, denom, MAX_DENOMINATOR);
      if num == denom {
        num := 0;
        multi := multi + 1;
      }
      SetupPll(addr, multi, num, denom);
    }

    ghost predicate Valid()
      reads this
    {
      ControlsCached() && Consistent(cfg, State(), clkCache, Cached())
    }

    ghost function Cached(): Caches
      reads this
    {
      Caches(currentBand, currentPower, currentFreq, wrote)
    }

    ghost function Now(): Memory
      reads this
    {
      Memory(cfg, Cached())
    }

    /** The chip's dividers are those of a cold start at the cached frequency and power. */
    ghost predicate InTune()
      requires Valid() && currentFreq != 0
      reads this
    {
      State().SameDividers(Cold(cfg, currentFreq, currentPower))
    }

    method ResetCache()
      requires cfg.Valid() && ControlsCached()
      modifies `currentBand, `currentFreq, `wrote
      ensures Valid() && Cached() == old(Cached()).Reset()
    {
      currentBand := 0;
      currentFreq := 0;
      wrote := 0;
    }

    /** The fixed-PLL arm of the mode switch. */
    method FixedPllArm(row: Strategy, changed: bool, freq: uint32, ofreq: uint32, rdiv: nat, ds: nat, ods: nat)
      requires cfg.Valid() && ControlsCached()
      requires 1 <= freq <= ofreq && ds <= 3 && ods <= 3 && row.mul == 1 && row.omul == 1
      requires (row.div == 8 && rdiv == 7) || (row.div == 32 && 26_000 <= freq && rdiv <= 7)
      modifies `regs, `clkCache
      ensures ControlsCached()
      ensures (State(), clkCache) ==
              FixedPllWrites(old(State()), old(clkCache), cfg, row, changed, freq, ofreq, rdiv, ds, ods)
    {
      hide Split, MsSetting, PllSetting, Control, ReadChip, Scaled, PllHz, Programmed;
      FixedPllFits(cfg, row, row.omul, ofreq, rdiv);
      FixedPllFits(cfg, row, row.mul, freq, rdiv);
      if changed {
        SetupPll(PLL_A, row.div * 128, 0, 1);
        SetupPll(PLL_B, PLL_N_2 * 128, 0, 1);
        SetFrequencyFixedPll(CODEC_CHANNEL, cfg.xtal * PLL_N_2, CLK2_FREQUENCY, 0, DRIVE_2MA + CLK_PLL_SELECT_B);
      }
      SetFrequencyFixedPll(OFREQ_CHANNEL, PllHz(cfg, row, row.omul), ofreq, rdiv, ods);
      SetFrequencyFixedPll(FREQ_CHANNEL, PllHz(cfg, row, row.mul), freq, rdiv, ds);
    }

    /** The fixed-divider arm. */
    method FixedMultArm(row: Strategy, changed: bool, freq: uint32, ofreq: uint32, rdiv: nat, ds: nat, ods: nat)
      requires cfg.Valid() && ControlsCached()
      requires 1 <= freq <= ofreq && rdiv <= 7 && ds <= 3 && ods <= 3 && 1 <= row.mul <= 12 && 1 <= row.omul <= 12
      requires row.div <= 8 && 1 <= Times(cfg.xtal, row.mul) && 1 <= Times(cfg.xtal, row.omul)
      modifies `regs, `clkCache
      ensures ControlsCached()
      ensures (State(), clkCache) ==
              FixedMultWrites(old(State()), old(clkCache), cfg, row, changed, freq, ofreq, rdiv, ds, ods)
    {
      hide Split, MsSetting, PllSetting, Control, ReadChip, Scaled, Times, Programmed;
      FixedMultFits(cfg, row, row.omul, ofreq, rdiv);
      FixedMultFits(cfg, row, row.mul, freq, rdiv);
      SetupPllFreq(PLL_A, Times(ofreq, row.div), row.omul);
      SetupPllFreq(PLL_B, Times(freq, row.div), row.mul);
      if changed {
        SetupMultisynth(OFREQ_CHANNEL, row.div * 128, 0, 1, rdiv, ods);
        SetupMultisynth(FREQ_CHANNEL, row.div * 128, 0, 1, rdiv, ds + CLK_PLL_SELECT_B);
      }
      SetFrequencyFixedPll(CODEC_CHANNEL, Times(freq, row.div), CLK2_FREQUENCY * row.mul, rdiv,
                           DRIVE_2MA + CLK_PLL_SELECT_B);
    }

    /** The band choice at the top of si5351_set_frequency. */
    method SelectBand(freq: uint32, driveStrength: nat) returns (band: nat, rdiv: nat, drive: nat)
      requires cfg.Covers(freq)
      ensures (band, rdiv, drive) == cfg.Plan(freq, driveStrength)
    {
      rdiv, drive := 0, driveStrength;
      if freq < Row(cfg.board, 1).freq {
        rdiv, drive, band := 7, DRIVE_2MA, 1;
      } else if freq <= 1_000_000 {
        rdiv, band := 4, 2;
      } else {
        band := GetHarmonicLevel(cfg, freq);
      }
    }

    /** The mode switch: program the dividers of a band, leaving out what the caches say is in place. */
    method ProgramBand(band: nat, rdiv: nat, drive: nat, freq: uint32)
      requires Valid() && currentPower == drive && cfg.Covers(freq) && 1 <= freq
      requires cfg.Plan(freq, drive) == (band, rdiv, drive) && 1 <= band
      modifies `regs, `clkCache, `wrote
      ensures ControlsCached() && wrote == if LeavesOutputs(cfg, old(Cached()), band) then old(wrote) else band
      ensures Consistent(cfg, State(), clkCache, Caches(band, drive, freq, wrote))
      ensures currentBand == 0 ==>
                var cold := Cold(cfg, freq, drive);
                clkCache == cold.ctl && ControlsWritten(old(State()), old(clkCache), State(), cold)
      ensures StaysOn(old(State()), State())
    {
      hide Config.Plan, Config.Covers, Cold, Carries, ReadChip, FixedPllWrites, FixedMultWrites, Times, Planned,
           Strength;
      PlanGives(cfg, freq, drive, band, rdiv);
      var row := Row(cfg.board, band);
      hide Row;
      var ofreq: uint32 := OffsetFrequency(cfg, freq);
      var ds, ods := Strength(drive, row.pow), Strength(drive, row.opow);
      if row.mode == FixedPll {
        FixedPllLands(cfg, State(), clkCache, Cached(), freq, row, band, rdiv, ds, ods);
        FixedPllArm(row, currentBand != band, freq, ofreq, rdiv, ds, ods);
        wrote := band;
      } else {
        FixedMultLands(cfg, State(), clkCache, Cached(), freq, row, band, rdiv, ds, ods);
        FixedMultArm(row, Row(cfg.board, currentBand).div != row.div, freq, ofreq, rdiv, ds, ods);
        if Row(cfg.board, currentBand).div != row.div { wrote := band; }
      }
    }

    /** Tune to freq. Whatever the caches suppress, chip and control cache end as Consistent says; and once the
        caches are empty the controls are rewritten too, except where the control cache already holds the
        byte. */
    method SetFrequency(freq: uint32, driveStrength: nat)
      requires Valid() && (freq == 0 || cfg.Covers(freq))
      modifies `currentBand, `currentPower, `currentFreq, `regs, `clkCache, `wrote
      ensures Valid()
      ensures Cached() == Step(cfg, old(Cached()), freq, driveStrength)
      ensures freq == 0 ==> regs == old(regs) && clkCache == old(clkCache)
      ensures currentFreq != 0 ==> (InTune() <==> !Cached().Stale())
      ensures currentFreq != 0 ==>
                (clkCache == Cold(cfg, currentFreq, currentPower).ctl <==>
                 !Cached().Stale() && SameDrive(cfg, Cached()))
      ensures freq != 0 && old(currentBand) == 0 ==>
                var cold := Cold(cfg, freq, currentPower);
                clkCache == cold.ctl && ControlsWritten(old(State()), old(clkCache), State(), cold)
      ensures StaysOn(old(State()), State())
    {
      hide Row, Config.Plan, Config.Covers, Cold, ReadChip, Carries;
      Tune(freq, driveStrength);
      if currentFreq != 0 {
        InStepIff(cfg, State(), clkCache, Cached());
        ControlsIff(cfg, State(), clkCache, Cached());
      }
    }

    method Tune(freq: uint32, driveStrength: nat)
      requires Valid() && (freq == 0 || cfg.Covers(freq))
      modifies `currentBand, `currentPower, `currentFreq, `regs, `clkCache, `wrote
      ensures Valid()
      ensures Cached() == Step(cfg, old(Cached()), freq, driveStrength)
      ensures freq == 0 ==> regs == old(regs) && clkCache == old(clkCache)
      ensures freq != 0 && old(currentBand) == 0 ==>
                var cold := Cold(cfg, freq, currentPower);
                clkCache == cold.ctl && ControlsWritten(old(State()), old(clkCache), State(), cold)
      ensures StaysOn(old(State()), State())
    {
      hide Row, Config.Plan, Config.Covers, Cold, ReadChip, Carries;
      if freq == 0 {
        return;
      }
      PlanSettles(cfg, freq, driveStrength);
      var band, rdiv, drive := SelectBand(freq, driveStrength);
      if currentPower != drive {
        ResetCache();
        currentPower := drive;
      }
      if freq == currentFreq {
        return;
      }
      ProgramBand(band, rdiv, drive, freq);
      currentBand := band;
      currentFreq := freq;
    }

    /** Change the drive strength of the frequency that is set (si5351_set_power). */
    method SetPower(driveStrength: nat)
      requires Valid()
      modifies `currentBand, `currentPower, `currentFreq, `regs, `clkCache, `wrote
      ensures Valid() && Now() == Apply(old(Now()), Power(driveStrength))
      ensures StaysOn(old(State()), State())
    {
      hide Row, Config.Plan, Config.Covers, Cold, ReadChip, Carries;
      if driveStrength == currentPower {
        return;
      }
      FrequencyFits(cfg, Cached());
      Tune(currentFreq, driveStrength);
    }

    /** Power every clock down behind the control cache's back (si5351_disable_output). */
    method DisableOutput()
      requires Valid()
      modifies `currentBand, `currentFreq, `regs, `wrote
      ensures Valid() && Now() == Apply(old(Now()), Mute)
      ensures State() == old(State()).(ctl := [CLK_POWERDOWN, CLK_POWERDOWN, CLK_POWERDOWN], disabled := OUTPUTS_OFF)
    {
      hide Decode;
      WriteEnable(regs, OUTPUTS_OFF);
      regs := Written(regs, OUTPUT_ENABLE, [OUTPUTS_OFF]);
      WriteAllControls(regs, CLK_POWERDOWN);
      regs := Written(regs, CLK_CONTROL, [CLK_POWERDOWN, CLK_POWERDOWN, CLK_POWERDOWN]);
      ResetCache();
    }

    method EnableOutput()
      requires Valid()
      modifies `currentBand, `currentFreq, `regs, `wrote
      ensures Valid() && Now() == Apply(old(Now()), Unmute)
      ensures State() == old(State()).(disabled := OUTPUTS_ON)
    {
      hide Decode;
      WriteEnable(regs, OUTPUTS_ON);
      regs := Written(regs, OUTPUT_ENABLE, [OUTPUTS_ON]);
      ResetCache();
    }

    /** A new intermediate frequency: the next call programs everything. */
    method SetFrequencyOffset(offset: nat)
      requires Valid() && offset <= MAX_OFFSET
      modifies `currentBand, `currentFreq, `cfg, `wrote
      ensures Valid() && Now() == Apply(old(Now()), Offset(offset))
    {
      ResetCache();
      cfg := cfg.(offset := offset);
    }

    /** A new crystal frequency; one out of range gives the nominal one. */
    method SetTcxo(xtal: uint32)
      requires Valid()
      modifies `currentBand, `currentFreq, `cfg, `wrote
      ensures Valid() && Now() == Apply(old(Now()), Crystal(xtal))
    {
      var hz: nat := xtal;
      if hz < XTALFREQ - 2_000_000 || hz > XTALFREQ + 2_000_000 { hz := XTALFREQ; }
      cfg := cfg.(xtal := hz);
      ResetCache();
    }

    /** The first call on empty caches programs everything. */
    method StartCold(freq: uint32, driveStrength: nat)
      requires Valid() && currentBand == 0 && freq != 0 && cfg.Covers(freq)
      modifies `currentBand, `currentPower, `currentFreq, `regs, `clkCache, `wrote
      ensures Valid() && currentFreq == freq && currentPower == cfg.Plan(freq, driveStrength).2 && InTune()
      ensures var cold := Cold(cfg, freq, currentPower);
              clkCache == cold.ctl && ControlsWritten(old(State()), old(clkCache), State(), cold)
    {
      PlanSettles(cfg, freq, driveStrength);
      FromEmpty(cfg, Cached(), freq, driveStrength);
      hide Cold, Config.Plan, Config.Covers, ReadChip, Consistent, StaysOn, ControlsWritten, Row;
      SetFrequency(freq, driveStrength);
    }

    /** Muting on pause and resuming: a clock comes back exactly when the control byte it now needs differs
        from the one the cache remembers from before the mute. */
    method ResumeAfterMute(freq: uint32, driveStrength: nat)
      requires Valid() && freq != 0 && cfg.Covers(freq)
      modifies `currentBand, `currentPower, `currentFreq, `regs, `clkCache, `wrote
      ensures Valid() && currentFreq == freq && currentPower == cfg.Plan(freq, driveStrength).2 && InTune()
      ensures forall ch :: 0 <= ch < 3 ==>
                (State().ctl[ch] == CLK_POWERDOWN <==> old(clkCache)[ch] == Cold(cfg, freq, currentPower).ctl[ch])
    {
      hide Cold, Config.Plan, Config.Covers, ReadChip, Consistent, Sound, Step, ControlsWritten, StaysOn,
           Chip.SameDividers, Row;
      PlanSettles(cfg, freq, driveStrength);
      CacheIsSound(cfg, State(), clkCache, Cached());
      ColdControlBytes(cfg, freq, cfg.Plan(freq, driveStrength).2);
      ghost var cache := clkCache;
      DisableOutput();
      EnableOutput();
      ghost var off := State();
      StartCold(freq, driveStrength);
      BackOn(off, cache, State(), Cold(cfg, freq, currentPower));
    }

    /** So resuming at the frequency that was cold-started before the mute leaves all three clocks off. */
    method MuteStopsTheGenerator(freq: uint32, driveStrength: nat)
      requires Valid() && currentBand == 0 && freq != 0 && cfg.Covers(freq)
      modifies `currentBand, `currentPower, `currentFreq, `regs, `clkCache, `wrote
      ensures Valid() && currentFreq == freq && InTune()
      ensures forall ch :: 0 <= ch < 3 ==> State().ctl[ch] == CLK_POWERDOWN
    {
      hide Cold, Config.Plan, Config.Covers, ReadChip, Consistent, Sound, Step, ControlsWritten, StaysOn, Row,
           Chip.SameDividers;
      PlanSettles(cfg, freq, driveStrength);
      StartCold(freq, driveStrength);
      ResumeAfterMute(freq, driveStrength);
    }

    /** A whole run of frequency changes, mutes and changes of power, offset and crystal. */
    method Run(ops: seq<Op>)
      requires Valid() && Legal(Now(), ops)
      modifies this
      ensures Valid() && Now() == After(old(Now()), ops)
      ensures Mute !in ops ==> StaysPowered(old(State()), State())
      ensures State().disabled == Disabled(old(State()).disabled, ops)
    {
      hide Config.Covers, Carries, Sound, Apply, Allowed, ReadChip, Legal, After, StaysPowered, Disabled;
      ghost var start, chip := Now(), State();
      NoOps(start, ops);
      OnYet(chip);
      assert Disabled(chip.disabled, ops[..0]) == chip.disabled by { NoneDisabled(chip.disabled, ops); }
      for i := 0 to |ops|
        invariant Valid() && Legal(start, ops[..i]) && Now() == After(start, ops[..i])
        invariant Mute !in ops[..i] ==> StaysPowered(chip, State())
        invariant State().disabled == Disabled(chip.disabled, ops[..i])
      {
        OneMoreOp(start, ops, i);
        ghost var before := State();
        Serve(ops[i]);
        assert ops[..i + 1] == ops[..i] + [ops[i]];
        DisabledStep(chip.disabled, ops, i);
        if ops[i] != Mute && Mute !in ops[..i] { OnStill(chip, before, State()); }
      }
      assert ops[..|ops|] == ops;
    }

    method Serve(op: Op)
      requires Valid() && Allowed(Now(), op)
      modifies this
      ensures Valid() && Now() == Apply(old(Now()), op)
      ensures op != Mute ==> StaysPowered(old(State()), State())
      ensures State().disabled == if op == Mute then OUTPUTS_OFF else if op == Unmute then OUTPUTS_ON
                                  else old(State()).disabled
    {
      hide Config.Covers, Carries, Step, ReadChip, Row, Sound;
      match op {
        case Frequency(freq, drive) => Tune(freq, drive);
        case Power(drive) => SetPower(drive);
        case Mute => DisableOutput();
        case Unmute => EnableOutput();
        case Offset(hz) => SetFrequencyOffset(hz);
        case Crystal(hz) => SetTcxo(hz);
      }
    }
  }

  // ---- properties of whole runs ----

  const XTALFREQ := 26_000_000
  const MAX_OFFSET := 96_000
  const START_FREQUENCY: uint32 := 26_000_000
  const ZERO_CACHES := Caches(0, 0, 0, 0)

  datatype Memory = Memory(cfg: Config, caches: Caches)

  datatype Op =
    | Frequency(freq: uint32, drive: nat)
    | Power(strength: nat)
    | Mute
    | Unmute
    | Offset(hz: nat)
    | Crystal(xtal: uint32)

  ghost predicate Allowed(m: Memory, op: Op) {
    match op
    case Frequency(freq, _) => freq == 0 || m.cfg.Covers(freq)
    case Offset(hz) => hz <= MAX_OFFSET
    case _ => true
  }

  /** What an operation does to configuration and caches. */
  ghost function Apply(m: Memory, op: Op): Memory
    requires Sound(m.cfg, m.caches) && Allowed(m, op)
  {
    match op
    case Frequency(freq, drive) => m.(caches := Step(m.cfg, m.caches, freq, drive))
    case Power(strength) =>
      if strength == m.caches.power then m else m.(caches := Step(m.cfg, m.caches, m.caches.freq, strength))
    case Mute => m.(caches := m.caches.Reset())
    case Unmute => m.(caches := m.caches.Reset())
    case Offset(hz) => Memory(m.cfg.(offset := hz), m.caches.Reset())
    case Crystal(xtal) =>
      var inRange := XTALFREQ - 2_000_000 <= xtal <= XTALFREQ + 2_000_000;
      Memory(m.cfg.(xtal := if inRange then xtal else XTALFREQ), m.caches.Reset())
  }

  lemma ApplyIsSound(m: Memory, op: Op)
    requires Sound(m.cfg, m.caches) && Allowed(m, op)
    ensures Sound(Apply(m, op).cfg, Apply(m, op).caches)
  {
    hide Config.Plan, Config.Covers, Row, Step;
    match op
    case Frequency(freq, drive) => StepIsSound(m.cfg, m.caches, freq, drive);
    case Power(strength) => StepIsSound(m.cfg, m.caches, m.caches.freq, strength);
    case _ =>
  }

  /** Each operation may be asked for in the state it is asked in. */
  ghost predicate Legal(m: Memory, ops: seq<Op>)
    requires Sound(m.cfg, m.caches)
    decreases |ops|, 0
  {
    ops == [] ||
    (Legal(m, ops[..|ops| - 1]) && Allowed(After(m, ops[..|ops| - 1]), ops[|ops| - 1]))
  }

  ghost function After(m: Memory, ops: seq<Op>): (r: Memory)
    requires Sound(m.cfg, m.caches) && Legal(m, ops)
    ensures Sound(r.cfg, r.caches)
    decreases |ops|, 1
  {
    if ops == [] then m
    else
      var before := After(m, ops[..|ops| - 1]);
      ApplyIsSound(before, ops[|ops| - 1]);
      Apply(before, ops[|ops| - 1])
  }

  lemma FrequencyFits(cfg: Config, k: Caches)
    requires Sound(cfg, k)
    ensures k.freq == 0 || (k.freq < TWO_32 && cfg.Covers(k.freq))
  {}

  lemma {:induction false} LegalPrefix(m: Memory, ops: seq<Op>, i: nat)
    requires Sound(m.cfg, m.caches) && Legal(m, ops) && i <= |ops|
    ensures Legal(m, ops[..i])
    decreases |ops|
  {
    if i == |ops| {
      assert ops[..i] == ops;
    } else {
      LegalPrefix(m, ops[..|ops| - 1], i);
      assert ops[..|ops| - 1][..i] == ops[..i];
    }
  }

  lemma NoOps(m: Memory, ops: seq<Op>)
    requires Sound(m.cfg, m.caches)
    ensures ops[..0] == [] && Legal(m, ops[..0]) && After(m, ops[..0]) == m
  {}

  lemma OnYet(c: Chip)
    requires |c.ctl| == 3
    ensures StaysPowered(c, c)
  {}

  lemma OnStill(a: Chip, b: Chip, c: Chip)
    requires |a.ctl| == 3 && |b.ctl| == 3 && |c.ctl| == 3 && StaysPowered(a, b) && StaysPowered(b, c)
    ensures StaysPowered(a, c)
  {}

  /** The output-enable register after a run. */
  function Disabled(start: byte, ops: seq<Op>): byte
  {
    if ops == [] then start
    else match ops[|ops| - 1]
      case Mute => OUTPUTS_OFF
      case Unmute => OUTPUTS_ON
      case _ => Disabled(start, ops[..|ops| - 1])
  }

  lemma NoneDisabled(start: byte, ops: seq<Op>)
    ensures Disabled(start, ops[..0]) == start
  {}

  lemma DisabledStep(start: byte, ops: seq<Op>, i: nat)
    requires i < |ops|
    ensures Disabled(start, ops[..i + 1]) ==
            if ops[i] == Mute then OUTPUTS_OFF else if ops[i] == Unmute then OUTPUTS_ON else Disabled(start, ops[..i])
  {
    assert ops[..i + 1][..i] == ops[..i];
  }

  /** A mute that no restart follows. */
  ghost predicate EndsMuted(ops: seq<Op>) {
    exists i :: 0 <= i < |ops| && ops[i] == Mute && forall j :: i < j < |ops| ==> ops[j] != Unmute
  }

  /** From enabled outputs, all three are disabled exactly after a mute that no restart follows, and enabled else. */
  lemma {:induction false} MutedIff(c: Chip, ops: seq<Op>)
    requires c.disabled == Disabled(OUTPUTS_ON, ops)
    ensures forall ch: nat :: ch < 3 ==> (c.Enabled(ch) <==> !EndsMuted(ops))
  {
    DisabledIff(ops);
    Powers();
    assert Pow2(1) == 2 && Pow2(2) == 4;
    hide Disabled, EndsMuted, Pow2;
    forall ch: nat | ch < 3
      ensures c.Enabled(ch) <==> !EndsMuted(ops)
    {
      if ch == 0 { } else if ch == 1 { } else { assert ch == 2; }
    }
  }

  lemma {:induction false} DisabledIff(ops: seq<Op>)
    ensures Disabled(OUTPUTS_ON, ops) == if EndsMuted(ops) then OUTPUTS_OFF else OUTPUTS_ON
  {
    hide EndsMuted;
    if ops == [] {
      NeverMuted(ops);
    } else {
      DisabledIff(ops[..|ops| - 1]);
      MutedStep(ops, ops[..|ops| - 1]);
    }
  }

  lemma NeverMuted(ops: seq<Op>)
    requires ops == []
    ensures !EndsMuted(ops)
  {}

  lemma MutedStep(ops: seq<Op>, before: seq<Op>)
    requires ops != [] && before == ops[..|ops| - 1]
    ensures EndsMuted(ops) <==> ops[|ops| - 1] == Mute || (ops[|ops| - 1] != Unmute && EndsMuted(before))
  {
    if EndsMuted(ops) && ops[|ops| - 1] != Mute {
      var i :| 0 <= i < |ops| && ops[i] == Mute && forall j :: i < j < |ops| ==> ops[j] != Unmute;
      assert before[i] == Mute;
    }
    if ops[|ops| - 1] != Unmute && EndsMuted(before) {
      var i :| 0 <= i < |before| && before[i] == Mute && forall j :: i < j < |before| ==> before[j] != Unmute;
      assert ops[i] == Mute;
    }
  }

  /** The configuration after a run: the last offset asked for, and the last crystal, or the nominal one for a crystal
      more than 2 MHz off. Board and threshold stay. */
  lemma {:induction false} ConfigIs(m: Memory, ops: seq<Op>)
    requires Sound(m.cfg, m.caches) && Legal(m, ops)
    ensures Configured(m.cfg, After(m, ops).cfg, ops)
    decreases |ops|
  {
    hide Sound, Allowed, Step;
    if ops != [] {
      var before, last := ops[..|ops| - 1], ops[|ops| - 1];
      ConfigIs(m, before);
      var t := After(m, before);
      ConfigStep(m.cfg, t, ops, last);
    }
  }

  ghost predicate LastOffset(ops: seq<Op>, i: nat) {
    i < |ops| && ops[i].Offset? && forall j :: i < j < |ops| ==> !ops[j].Offset?
  }

  ghost predicate LastCrystal(ops: seq<Op>, i: nat) {
    i < |ops| && ops[i].Crystal? && forall j :: i < j < |ops| ==> !ops[j].Crystal?
  }

  ghost predicate OffsetIs(start: nat, end: nat, ops: seq<Op>) {
    && (forall i: nat :: LastOffset(ops, i) ==> end == ops[i].hz)
    && ((forall i :: 0 <= i < |ops| ==> !ops[i].Offset?) ==> end == start)
  }

  ghost predicate CrystalIs(start: nat, end: nat, ops: seq<Op>) {
    && (forall i: nat :: LastCrystal(ops, i) ==>
          end == if 24_000_000 <= ops[i].xtal <= 28_000_000 then ops[i].xtal else 26_000_000)
    && ((forall i :: 0 <= i < |ops| ==> !ops[i].Crystal?) ==> end == start)
  }

  ghost predicate Configured(start: Config, end: Config, ops: seq<Op>) {
    && end.board == start.board && end.threshold == start.threshold
    && OffsetIs(start.offset, end.offset, ops) && CrystalIs(start.xtal, end.xtal, ops)
  }

  lemma OffsetStep(start: nat, end: nat, ops: seq<Op>, before: seq<Op>, next: nat)
    requires ops != [] && before == ops[..|ops| - 1] && OffsetIs(start, end, before)
    requires next == if ops[|ops| - 1].Offset? then ops[|ops| - 1].hz else end
    ensures OffsetIs(start, next, ops)
  {
    var n := |before|;
    forall i: nat | LastOffset(ops, i)
      ensures next == ops[i].hz
    {
      if i < n { assert LastOffset(before, i); }
    }
    if forall i :: 0 <= i < |ops| ==> !ops[i].Offset? { assert !ops[n].Offset?; }
  }

  lemma CrystalStep(start: nat, end: nat, ops: seq<Op>, before: seq<Op>, next: nat)
    requires ops != [] && before == ops[..|ops| - 1] && CrystalIs(start, end, before)
    requires var last := ops[|ops| - 1];
      next == if last.Crystal? then (if 24_000_000 <= last.xtal <= 28_000_000 then last.xtal else 26_000_000) else end
    ensures CrystalIs(start, next, ops)
  {
    var n := |before|;
    forall i: nat | LastCrystal(ops, i)
      ensures next == if 24_000_000 <= ops[i].xtal <= 28_000_000 then ops[i].xtal else 26_000_000
    {
      if i < n { assert LastCrystal(before, i); }
    }
    if forall i :: 0 <= i < |ops| ==> !ops[i].Crystal? { assert !ops[n].Crystal?; }
  }

  lemma ConfigStep(start: Config, t: Memory, ops: seq<Op>, last: Op)
    requires ops != [] && last == ops[|ops| - 1] && Configured(start, t.cfg, ops[..|ops| - 1])
    requires Sound(t.cfg, t.caches) && Allowed(t, last)
    ensures Configured(start, Apply(t, last).cfg, ops)
  {
    hide Sound, Allowed, Step, OffsetIs, CrystalIs;
    var before, end := ops[..|ops| - 1], Apply(t, last).cfg;
    OffsetStep(start.offset, t.cfg.offset, ops, before, end.offset);
    CrystalStep(start.xtal, t.cfg.xtal, ops, before, end.xtal);
  }

  lemma OneMoreOp(m: Memory, ops: seq<Op>, i: nat)
    requires Sound(m.cfg, m.caches) && Legal(m, ops) && i < |ops|
    ensures Legal(m, ops[..i]) && Legal(m, ops[..i + 1]) && Allowed(After(m, ops[..i]), ops[i])
    ensures After(m, ops[..i + 1]) == Apply(After(m, ops[..i]), ops[i])
  {
    LegalPrefix(m, ops, i + 1);
    assert ops[..i + 1][..i] == ops[..i];
  }

  /** The generator is left tuned below 26 kHz. */
  predicate EndsLow(ops: seq<Op>)
  {
    ops != [] &&
    var before := ops[..|ops| - 1];
    match ops[|ops| - 1]
    case Frequency(freq, _) => if freq == 0 then EndsLow(before) else freq < 26_000
    case Power(_) => EndsLow(before)
    case _ => false
  }

  /** A run leaves stale dividers: its last frequency is in 100 to 130 MHz at 2 mA, and the run before it ended
      below 26 kHz or was stale already; nothing after it changed the strength or emptied the caches. */
  predicate EndsStale(ops: seq<Op>)
  {
    ops != [] &&
    var before := ops[..|ops| - 1];
    match ops[|ops| - 1]
    case Frequency(freq, drive) =>
      if freq == 0 then EndsStale(before)
      else 100_000_000 < freq <= 130_000_000 && drive == DRIVE_2MA && (EndsLow(before) || EndsStale(before))
    case Power(strength) => strength == DRIVE_2MA && EndsStale(before)
    case _ => false
  }

  /** From the caches alone: what a call leaves. */
  lemma StepStale(cfg: Config, k: Caches, freq: nat, drive: nat)
    requires Sound(cfg, k) && freq != 0 && cfg.Covers(freq)
    ensures var next := Step(cfg, k, freq, drive);
      && (next.band == 1 <==> freq < 26_000)
      && (next.Stale() <==> 100_000_000 < freq <= 130_000_000 && drive == DRIVE_2MA && (k.band == 1 || k.Stale()))
      && next.power == cfg.Plan(freq, drive).2 && next.freq == freq
  {
    hide Config.Plan, Config.Covers;
    PlanFacts(cfg, freq, drive);
    if k.freq != 0 { PlanFacts(cfg, k.freq, k.power); }
  }

  /** A call on caches that are not stale leaves the dividers out of step if and only if it goes from the lowest
      band to 100 to 130 MHz at 2 mA. */
  lemma StaleJump(cfg: Config, k: Caches, freq: uint32, drive: nat)
    requires Sound(cfg, k) && freq != 0 && cfg.Covers(freq) && !k.Stale()
    ensures Step(cfg, k, freq, drive).Stale() <==>
            0 < k.freq < 26_000 && 100_000_000 < freq <= 130_000_000 && drive == DRIVE_2MA
  {
    hide Config.Plan, Config.Covers, Step;
    StepStale(cfg, k, freq, drive);
    if k.freq != 0 { PlanFacts(cfg, k.freq, k.power); }
  }

  /** A run that starts neither stale nor in the lowest band, as after start-up or an emptied cache, leaves stale
      dividers if and only if its operations say so. */
  lemma {:induction false} StaleIff(m: Memory, ops: seq<Op>)
    requires Sound(m.cfg, m.caches) && m.caches.band != 1 && !m.caches.Stale() && Legal(m, ops)
    ensures var k := After(m, ops).caches; (k.Stale() <==> EndsStale(ops)) && (k.band == 1 <==> EndsLow(ops))
    decreases |ops|
  {
    hide Config.Plan, Config.Covers, Step, Row;
    if ops != [] {
      var before, last := ops[..|ops| - 1], ops[|ops| - 1];
      StaleIff(m, before);
      var t := After(m, before);
      match last
      case Frequency(freq, drive) =>
        if freq != 0 { StepStale(t.cfg, t.caches, freq, drive); } else { ZeroStep(t.cfg, t.caches, drive); }
      case Power(strength) =>
        StalePower(t.cfg, t.caches);
        if t.caches.power != strength { PowerStale(t.cfg, t.caches, strength); }
      case _ =>
    }
  }

  lemma ZeroStep(cfg: Config, k: Caches, drive: nat)
    requires k.band <= LAST_BAND
    ensures Step(cfg, k, 0, drive) == k
  {}

  lemma StalePower(cfg: Config, k: Caches)
    requires Sound(cfg, k)
    ensures k.Stale() ==> k.power == DRIVE_2MA
  {}

  /** Another strength ends staleness, and keeps the band. */
  lemma PowerStale(cfg: Config, k: Caches, strength: nat)
    requires Sound(cfg, k) && k.power != strength
    ensures var next := Step(cfg, k, k.freq, strength); !next.Stale() && (next.band == 1 <==> k.band == 1)
    ensures k.Stale() ==> strength != DRIVE_2MA
  {
    hide Config.Plan, Config.Covers;
    if k.freq != 0 {
      PlanFacts(cfg, k.freq, k.power);
      PlanFacts(cfg, k.freq, strength);
    }
  }

  /** So no run without a frequency of 100 to 130 MHz at 2 mA is ever stale ... */
  lemma NeverStale(m: Memory, ops: seq<Op>)
    requires Sound(m.cfg, m.caches) && m.caches.band != 1 && !m.caches.Stale() && Legal(m, ops)
    requires forall op :: op in ops && op.Frequency? ==>
             !(100_000_000 < op.freq <= 130_000_000 && op.drive == DRIVE_2MA)
    ensures !After(m, ops).caches.Stale()
  {
    StaleIff(m, ops);
    NeedsJump(ops);
  }

  lemma {:induction false} NeedsJump(ops: seq<Op>)
    ensures EndsStale(ops) ==>
              exists op :: op in ops && op.Frequency? && 100_000_000 < op.freq <= 130_000_000 && op.drive == DRIVE_2MA
  {
    if ops != [] {
      assert ops[|ops| - 1] in ops;
      NeedsJump(ops[..|ops| - 1]);
    }
  }

  /** ... and this one is: 10 kHz, then 110 MHz. */
  lemma StaleRun(m: Memory)
    requires Sound(m.cfg, m.caches) && m.caches.band != 1 && !m.caches.Stale() && m.cfg.Covers(10_000) &&
             m.cfg.Covers(110_000_000)
    ensures var ops := [Frequency(10_000, DRIVE_2MA), Frequency(110_000_000, DRIVE_2MA)];
            Legal(m, ops) && After(m, ops).caches.Stale()
  {
    hide Config.Covers, Config.Plan, Step, Sound;
    var first, second := Frequency(10_000, DRIVE_2MA), Frequency(110_000_000, DRIVE_2MA);
    var ops := [first, second];
    assert ops[..1] == [first] && [first][..0] == [];
    assert Legal(m, []) && Legal(m, [first]);
    assert After(m, [first]).cfg == m.cfg;
    StaleIff(m, ops);
  }

  // ---- drive strength ----

  /** The row the outputs were set up for asks for the drive strengths of the band that is set. */
  predicate SameDrive(cfg: Config, k: Caches)
    requires 1 <= k.band <= LAST_BAND && 1 <= k.wrote <= LAST_BAND
  {
    var row, kept := Row(cfg.board, k.band), Row(cfg.board, k.wrote);
    && Strength(k.power, row.pow) == Strength(k.power, kept.pow)
    && Strength(k.power, row.opow) == Strength(k.power, kept.opow)
  }

  /** The control bytes are those of a cold start exactly when the caches are not stale and the drive strengths
      agree. */
  lemma ControlsIff(cfg: Config, c: Chip, cache: seq<byte>, k: Caches)
    requires |c.ms| == 3 && |cache| == 3 && Consistent(cfg, c, cache, k) && k.freq != 0
    ensures 1 <= k.band <= LAST_BAND && 1 <= k.wrote <= LAST_BAND
    ensures cache == Cold(cfg, k.freq, k.power).ctl <==> !k.Stale() && SameDrive(cfg, k)
  {
    hide Config.Plan, Config.Covers, Cold, Control, FromPllB, SourcesFollow, LowBandOutputs, Strength;
    PlanFacts(cfg, k.freq, k.power);
    ColdControlBytes(cfg, k.freq, k.power);
    RowFacts(cfg.board, k.wrote);
    var row, kept := Row(cfg.board, k.band), Row(cfg.board, k.wrote);
    StrengthBound(k.power, row.pow);
    StrengthBound(k.power, row.opow);
    StrengthBound(k.power, kept.pow);
    StrengthBound(k.power, kept.opow);
    hide Row;
    ControlDrive(Strength(k.power, row.pow), Strength(k.power, kept.pow));
    ControlDrive(Strength(k.power, row.opow), Strength(k.power, kept.opow));
  }

  lemma StrengthBound(power: nat, ofBand: nat)
    requires ofBand <= 3
    ensures Strength(power, ofBand) <= 3
  {}

  /** A clock that is not stale is routed as after a cold start: only the drive strength may differ. */
  lemma SourcesKept(cfg: Config, c: Chip, cache: seq<byte>, k: Caches)
    requires |c.ms| == 3 && |cache| == 3 && Consistent(cfg, c, cache, k) && k.freq != 0 && !k.Stale()
    ensures forall ch :: 0 <= ch < 3 ==> SameRoute(cache[ch], Cold(cfg, k.freq, k.power).ctl[ch])
  {
    hide Config.Plan, Config.Covers, Cold, Control, FromPllB, SourcesFollow, LowBandOutputs, Strength;
    PlanFacts(cfg, k.freq, k.power);
    ColdControlBytes(cfg, k.freq, k.power);
    RowFacts(cfg.board, k.wrote);
    var row, kept := Row(cfg.board, k.band), Row(cfg.board, k.wrote);
    StrengthBound(k.power, kept.pow);
    StrengthBound(k.power, kept.opow);
    StrengthBound(k.power, row.pow);
    StrengthBound(k.power, row.opow);
    StrengthBits(Strength(k.power, kept.opow), Strength(k.power, row.opow));
    StrengthBits(Strength(k.power, kept.pow), Strength(k.power, row.pow));
    hide Row;
  }

  /** A fixed strength is the one the clocks are driven at, as long as nothing is stale; the codec always gets 2 mA. */
  lemma FixedDrive(cfg: Config, c: Chip, cache: seq<byte>, k: Caches)
    requires |c.ms| == 3 && |cache| == 3 && Consistent(cfg, c, cache, k) && k.freq != 0
    ensures cache[CODEC_CHANNEL] as int % 4 == DRIVE_2MA
    ensures k.power <= DRIVE_8MA && !k.Stale() ==>
              cache[FREQ_CHANNEL] as int % 4 == k.power && cache[OFREQ_CHANNEL] as int % 4 == k.power
  {
    hide Config.Plan, Config.Covers, Cold, Control, FromPllB, SourcesFollow, LowBandOutputs, Row;
    PlanFacts(cfg, k.freq, k.power);
    ColdDrive(cfg, k.freq, k.power);
    if 3 <= k.band {
      RowFacts(cfg.board, k.wrote);
      var kept := Row(cfg.board, k.wrote);
      StrengthBound(k.power, kept.pow);
      StrengthBound(k.power, kept.opow);
      ControlBits(Strength(k.power, kept.opow), 0);
      ControlBits(Strength(k.power, kept.pow) + CLK_PLL_SELECT_B, 0);
    }
  }

  lemma ColdDrive(cfg: Config, freq: nat, power: nat)
    requires cfg.Valid() && cfg.Covers(freq) && cfg.Plan(freq, power).2 == power
    ensures var cold := Cold(cfg, freq, power);
      && cold.ctl[CODEC_CHANNEL] as int % 4 == DRIVE_2MA
      && (power <= DRIVE_8MA ==>
            cold.ctl[FREQ_CHANNEL] as int % 4 == power && cold.ctl[OFREQ_CHANNEL] as int % 4 == power)
  {
    hide Row, Config.Plan, ColdFixedPll, ColdFixedMult, Times, Config.Valid;
    PlannedRow(cfg, freq, power);
    var (band, rdiv, strength) := cfg.Plan(freq, power);
    var row := Row(cfg.board, band);
    var ds, ods, ofreq := Strength(strength, row.pow), Strength(strength, row.opow), freq + cfg.offset;
    if row.mode == FixedPll {
      ColdPllDrive(cfg, row, freq, ofreq, rdiv, ds, ods);
    } else {
      ColdMultDrive(cfg, row, freq, ofreq, rdiv, ds, ods);
    }
  }

  lemma ColdPllDrive(cfg: Config, row: Strategy, freq: nat, ofreq: nat, rdiv: nat, ds: nat, ods: nat)
    requires 1 <= freq && 1 <= ofreq && rdiv <= 7 && ds <= 3 && ods <= 3
    ensures var ctl := ColdFixedPll(cfg, row, freq, ofreq, rdiv, ds, ods).ctl;
            ctl[0] as int % 4 == ods && ctl[1] as int % 4 == ds && ctl[2] as int % 4 == DRIVE_2MA
  {
    hide MsSetting, PllSetting, Control, OutputDivider, CodecDivider, OwnDivider, IntegerMode, FromPllB;
    ControlBits(ods, OutputDivider(cfg, row, row.omul, ofreq, rdiv).num);
    ControlBits(ds, OutputDivider(cfg, row, row.mul, freq, rdiv).num);
    ControlBits(DRIVE_2MA + CLK_PLL_SELECT_B, CodecDivider(cfg).num);
  }

  lemma ColdMultDrive(cfg: Config, row: Strategy, freq: nat, ofreq: nat, rdiv: nat, ds: nat, ods: nat)
    requires 1 <= Times(cfg.xtal, row.mul) && 1 <= Times(cfg.xtal, row.omul) && 1 <= row.mul
    requires rdiv <= 7 && ds <= 3 && ods <= 3
    ensures var ctl := ColdFixedMult(cfg, row, freq, ofreq, rdiv, ds, ods).ctl;
            ctl[0] as int % 4 == ods && ctl[1] as int % 4 == ds && ctl[2] as int % 4 == DRIVE_2MA
  {
    hide MsSetting, PllSetting, Control, PllDivider, CodecFromPllB, Times, OwnDivider, IntegerMode, FromPllB;
    ControlBits(ods, 0);
    ControlBits(ds + CLK_PLL_SELECT_B, 0);
    ControlBits(DRIVE_2MA + CLK_PLL_SELECT_B, CodecFromPllB(row, freq, rdiv).num);
  }

  /** A run that keeps the wrong strength: 590 MHz, then 610 MHz at the strength of the band, on an H4. CLK1 stays
      at 4 mA where a cold start sets 8 mA. */
  lemma DriveKept(cfg: Config, k: Caches)
    requires cfg.Valid() && cfg.board == H4 && 3 * cfg.threshold >= 610_000_000 && cfg.threshold < 590_000_000
    requires cfg.Covers(590_000_000) && cfg.Covers(610_000_000) && Sound(cfg, k) && k.freq == 0
    ensures var next := Step(cfg, Step(cfg, k, 590_000_000, 255), 610_000_000, 255);
      && !next.Stale() && next.band == 8 && next.wrote == 7 && !SameDrive(cfg, next)
      && Strength(255, Row(H4, 8).pow) == DRIVE_8MA && Strength(255, Row(H4, 7).pow) == DRIVE_4MA
  {
    assert cfg.Plan(590_000_000, 255) == (7, 0, 255) by { LevelIs(cfg, 590_000_000, 7); }
    assert cfg.Plan(610_000_000, 255) == (8, 0, 255) by { LevelIs(cfg, 610_000_000, 8); }
    hide Config.Plan;
  }

  lemma LevelIs(cfg: Config, freq: nat, i: nat)
    requires i <= LAST_BAND && freq <= cfg.Limit(LAST_BAND) && cfg.IsLevel(freq, i)
    ensures cfg.Level(freq) == i
  {
    var l := cfg.Level(freq);
    hide Config.Level, Config.Limit;
    if l < i { assert false; }
    if i < l { assert false; }
  }

  // ---- starting ----

  /** From empty caches nothing is left out. */
  lemma FromEmpty(cfg: Config, k: Caches, freq: nat, drive: nat)
    requires Sound(cfg, k) && k.freq == 0 && freq != 0 && cfg.Covers(freq)
    ensures var next := Step(cfg, k, freq, drive);
            && next == Caches(cfg.Plan(freq, drive).0, cfg.Plan(freq, drive).2, freq, cfg.Plan(freq, drive).0)
            && !next.Stale()
  {
    hide Config.Plan, Config.Covers;
    PlanFacts(cfg, freq, drive);
  }

  lemma FirstFrequency(cfg: Config)
    requires cfg.Valid() && cfg.Covers(START_FREQUENCY)
    ensures var k := Step(cfg, ZERO_CACHES, START_FREQUENCY, DRIVE_2MA);
            k == Caches(2, DRIVE_2MA, START_FREQUENCY, 2) && !k.Stale()
    ensures forall ch :: 0 <= ch < 3 ==> Cold(cfg, START_FREQUENCY, DRIVE_2MA).ctl[ch] != 0
  {
    hide Config.Plan, Config.Covers, Cold;
    PlanFacts(cfg, START_FREQUENCY, DRIVE_2MA);
    FromEmpty(cfg, ZERO_CACHES, START_FREQUENCY, DRIVE_2MA);
    ColdControlBytes(cfg, START_FREQUENCY, DRIVE_2MA);
  }

  /** With a zeroed control cache every control byte is written. */
  lemma AllOn(off: Chip, after: Chip, cold: Chip)
    requires |off.ctl| == 3 && |after.ctl| == 3 && |cold.ctl| == 3 && ControlsWritten(off, [0, 0, 0], after, cold)
    requires forall ch :: 0 <= ch < 3 ==> cold.ctl[ch] != 0
    ensures after.ctl == cold.ctl
  {}
}
