/** The band tables of the clock generator and the choice of a band for a frequency
    (si5351.c, band_strategy_33H_SI5351, band_strategy_H4_SI5351 and si5351_get_harmonic_lvl). */
module Bands {
  import opened Arithmetic

  datatype Mode = Idle | FixedPll | FixedMult

  /** `div` doubles as the PLL multiplier in the FixedPll rows: the two share one byte of the table. */
  datatype Strategy = Strategy(freq: nat, mode: Mode, div: nat, mul: nat, omul: nat, pow: nat, opow: nat)

  datatype Board = H | H4

  /** Limits below this are multiples of the harmonic threshold. */
  const THRESHOLD_ROWS := 20
  const LAST_BAND := 15

  const DRIVE_2MA := 0
  const DRIVE_4MA := 1
  const DRIVE_6MA := 2
  const DRIVE_8MA := 3

  function Row(board: Board, i: nat): Strategy
    requires i <= LAST_BAND
  {
    var low := if board == H then DRIVE_8MA else DRIVE_4MA;
    var olow := if board == H then DRIVE_6MA else DRIVE_4MA;
    match i
    case 0 => Strategy(0, Idle, 0, 0, 0, 15, 15)
    case 1 => Strategy(26_000, FixedPll, 8, 1, 1, DRIVE_2MA, DRIVE_2MA)
    case 2 => Strategy(100_000_000, FixedPll, 32, 1, 1, DRIVE_2MA, DRIVE_2MA)
    case 3 => Strategy(130_000_000, FixedMult, 8, 1, 1, low, olow)
    case 4 => Strategy(180_000_000, FixedMult, 6, 1, 1, low, olow)
    case 5 => Strategy(1, FixedMult, 4, 1, 1, low, olow)
    case 6 => Strategy(460_000_000, FixedMult, 6, 3, 5, low, olow)
    case 7 => Strategy(600_000_000, FixedMult, 4, 3, 5, low, olow)
    case 8 => Strategy(3, FixedMult, 4, 3, 5, DRIVE_8MA, olow)
    case 9 => Strategy(1_200_000_000, FixedMult, 4, 5, 7, DRIVE_8MA, DRIVE_6MA)
    case 10 => Strategy(5, FixedMult, 4, 5, 7, DRIVE_8MA, DRIVE_6MA)
    case 11 => Strategy(1_800_000_000, FixedMult, 4, 7, 9, DRIVE_8MA, DRIVE_8MA)
    case 12 => Strategy(7, FixedMult, 4, 7, 9, DRIVE_8MA, DRIVE_8MA)
    case 13 => Strategy(2_400_000_000, FixedMult, 4, 9, 11, DRIVE_8MA, DRIVE_8MA)
    case 14 => Strategy(9, FixedMult, 4, 9, 11, DRIVE_8MA, DRIVE_8MA)
    case _ => Strategy(11, FixedMult, 4, 11, 12, DRIVE_8MA, DRIVE_8MA)
  }

  /** The settings the generator reads from the configuration: crystal, IF offset, harmonic threshold. */
  datatype Config = Config(board: Board, xtal: nat, offset: nat, threshold: nat) {
    /** si5351_set_tcxo keeps the crystal within 2 MHz of 26 MHz; the IF stays below half the fastest
        codec rate; every multiple of the threshold is a 32-bit frequency. */
    ghost predicate Valid() {
      && 24_000_000 <= xtal <= 28_000_000
      && offset <= 96_000
      && 11 * threshold < TWO_32
    }

    function Limit(i: nat): nat
      requires i <= LAST_BAND
    {
      var f := Row(board, i).freq;
      if f < THRESHOLD_ROWS then f * threshold else f
    }

    /** The frequencies the tables cover. */
    ghost predicate Covers(freq: nat) {
      && 1 <= freq && freq + offset < TWO_32
      && freq <= Limit(LAST_BAND)
    }

    /** i is the band of freq: the first row whose limit is not below it. */
    ghost predicate IsLevel(freq: nat, i: nat) {
      && i <= LAST_BAND
      && freq <= Limit(i)
      && forall k: nat :: k < i ==> Limit(k) < freq
    }

    function LevelFrom(freq: nat, i: nat): (level: nat)
      requires i <= LAST_BAND && freq <= Limit(LAST_BAND)
      requires forall k: nat :: k < i ==> Limit(k) < freq
      ensures IsLevel(freq, level)
      decreases LAST_BAND - i
    {
      if freq <= Limit(i) then i else LevelFrom(freq, i + 1)
    }

    function Level(freq: nat): (level: nat)
      requires freq <= Limit(LAST_BAND)
      ensures IsLevel(freq, level)
    {
      LevelFrom(freq, 0)
    }

    /** The largest limit of an earlier row: where band i begins, whatever the harmonic threshold. */
    function Floor(i: nat): nat
      requires i <= LAST_BAND + 1
    {
      if i == 0 then 0 else Max(Floor(i - 1), Limit(i - 1))
    }

    /** Band, output divider exponent and drive strength that si5351_set_frequency selects. */
    function Plan(freq: nat, drive: nat): (p: (nat, nat, nat))
      requires Covers(freq)
      ensures 1 <= p.0 <= LAST_BAND
    {
      if freq < Row(board, 1).freq then (1, 7, DRIVE_2MA)
      else if freq <= 1_000_000 then (2, 4, drive)
      else (Level(freq), 0, drive)
    }
  }

  lemma {:induction false} BelowFloor(cfg: Config, freq: nat, i: nat)
    requires 1 <= freq && i <= LAST_BAND + 1
    ensures cfg.Floor(i) < freq <==> forall k: nat :: k < i ==> cfg.Limit(k) < freq
  {
    hide Config.Limit;
    if i > 0 { BelowFloor(cfg, freq, i - 1); }
  }

  /** A band is the interval from its floor to its limit. */
  lemma LevelIff(cfg: Config, freq: nat, i: nat)
    requires 1 <= freq <= cfg.Limit(LAST_BAND) && i <= LAST_BAND
    ensures cfg.Level(freq) == i <==> cfg.Floor(i) < freq <= cfg.Limit(i)
  {
    hide Config.Level, Config.Limit, Config.Floor;
    BelowFloor(cfg, freq, i);
    BelowFloor(cfg, freq, cfg.Level(freq));
  }

  /** The row search: first row whose limit reaches freq. */
  method GetHarmonicLevel(cfg: Config, freq: nat) returns (i: nat)
    requires freq <= cfg.Limit(LAST_BAND)
    ensures i == cfg.Level(freq)
  {
    i := 0;
    while true
      invariant i <= LAST_BAND
      invariant forall k: nat :: k < i ==> cfg.Limit(k) < freq
      decreases LAST_BAND - i
    {
      if freq <= cfg.Limit(i) {
        return;
      }
      i := i + 1;
    }
  }

  /** A band holds the frequencies above every earlier limit; the lowest one comes with the largest output divider
      exponent and with 2 mA. */
  lemma PlanFacts(cfg: Config, freq: nat, drive: nat)
    requires cfg.Valid() && cfg.Covers(freq)
    ensures var p := cfg.Plan(freq, drive);
      && (p.0 == 1 <==> freq < 26_000)
      && (p.0 == 2 <==> 26_000 <= freq <= 100_000_000)
      && (p.0 >= 3 <==> 100_000_000 < freq)
      && (p.0 == 3 ==> freq <= 130_000_000)
      && (p.0 == 4 ==> 130_000_000 < freq <= 180_000_000)
      && (p.0 == 5 ==> 180_000_000 < freq <= cfg.threshold)
      && (p.0 >= 6 ==> 180_000_000 < freq)
      && (p.0 >= 8 ==> 600_000_000 < freq)
      && (p.0 >= 10 ==> 1_200_000_000 < freq)
      && (p.0 >= 12 ==> 1_800_000_000 < freq)
      && (p.0 >= 14 ==> 2_400_000_000 < freq)
      && (p.1 == if p.0 == 1 then 7 else if freq <= 1_000_000 then 4 else 0)
      && p.2 == if p.0 == 1 then DRIVE_2MA else drive
  {
    var p := cfg.Plan(freq, drive);
    if 1_000_000 < freq {
      assert cfg.IsLevel(freq, p.0);
      assert cfg.Limit(0) == 0 && cfg.Limit(1) == 26_000 && cfg.Limit(2) == 100_000_000;
      assert cfg.Limit(3) == 130_000_000 && cfg.Limit(4) == 180_000_000 && cfg.Limit(5) == cfg.threshold;
      assert cfg.Limit(7) == 600_000_000 && cfg.Limit(9) == 1_200_000_000;
      assert cfg.Limit(11) == 1_800_000_000 && cfg.Limit(13) == 2_400_000_000;
    }
  }

  /** With the default threshold the harmonics keep both PLLs within what the chip is driven at: 600 MHz to 1.2 GHz for
      CLK1 and 360 MHz to 1.2 GHz for CLK0, up to 2.7 GHz. CLK1 uses odd harmonics, and above the threshold CLK0
      higher ones, so that the two never meet. */
  lemma PllsInRange(cfg: Config, freq: nat, drive: nat)
    requires cfg.threshold == 300_000_100 && cfg.Covers(freq) && 100_000_000 < freq <= 2_700_000_000
    ensures var row := Row(cfg.board, cfg.Plan(freq, drive).0);
      && 600_000_000 * row.mul <= freq * row.div <= 1_200_000_400 * row.mul
      && 360_000_000 * row.omul <= freq * row.div <= 1_200_000_400 * row.omul
      && row.mul % 2 == 1 && (freq > cfg.threshold ==> row.mul < row.omul)
  {
    hide Config.Level, Config.Limit;
    var band := cfg.Level(freq);
    BandEdges(cfg, freq, band);
    if band == 3 {
      assert freq * Row(cfg.board, band).div == 8 * freq;
    } else if band == 4 || band == 6 {
      assert freq * Row(cfg.board, band).div == 6 * freq;
    } else {
      assert freq * Row(cfg.board, band).div == 4 * freq;
    }
  }

  /** The bands at the default threshold. */
  lemma BandEdges(cfg: Config, freq: nat, band: nat)
    requires cfg.threshold == 300_000_100 && cfg.IsLevel(freq, band) && 100_000_000 < freq <= 2_700_000_000
    ensures 3 <= band <= 14
    ensures var edges := [100_000_000, 130_000_000, 180_000_000, 300_000_100, 460_000_000, 600_000_000, 900_000_300,
                          1_200_000_000, 1_500_000_500, 1_800_000_000, 2_100_000_700, 2_400_000_000, 2_700_000_900];
            edges[band - 3] < freq <= edges[band - 2]
  {
    hide Row;
    LimitValues(cfg);
    hide Config.Limit;
  }

  lemma LimitValues(cfg: Config)
    requires cfg.threshold == 300_000_100
    ensures cfg.Limit(2) == 100_000_000 && cfg.Limit(3) == 130_000_000 && cfg.Limit(4) == 180_000_000
    ensures cfg.Limit(5) == 300_000_100 && cfg.Limit(6) == 460_000_000 && cfg.Limit(7) == 600_000_000
    ensures cfg.Limit(8) == 900_000_300 && cfg.Limit(9) == 1_200_000_000 && cfg.Limit(10) == 1_500_000_500
    ensures cfg.Limit(11) == 1_800_000_000 && cfg.Limit(12) == 2_100_000_700 && cfg.Limit(13) == 2_400_000_000
    ensures cfg.Limit(14) == 2_700_000_900 && cfg.Limit(0) == 0 && cfg.Limit(1) == 26_000
  {}
}
