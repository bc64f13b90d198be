/** Looking calibration terms up between the frequencies they were measured at (main.c, cal_interpolate). */
module Interpolation {
  import opened Arithmetic
  import opened Fraction
  import opened SweepGrid
  import opened Bands
  import opened ComplexNumbers

  /** The calibrated sweep: its ends and number of points. */
  datatype Range = Range(first: nat, last: nat, points: nat) {
    ghost predicate Valid() { first <= last < TWO_32 && 2 <= points <= 0xFFFF }

    function At(idx: nat): nat
      requires first <= last && 2 <= points
    {
      Grid(first, last, points, idx)
    }
  }

  /** Where a term comes from: one stored point, or the line through two neighbours. */
  datatype Source = Copy(idx: nat) | Blend(idx: nat, k: real)

  lemma BelowLast(a: nat, n: nat, span: nat, idx: nat)
    requires 1 <= n && a < span && idx * span <= a * n
    ensures idx < n
  {
    MulMono(a + 1, span, n);
    if n <= idx { MulMono(n, idx, span); }
  }

  lemma LowerEnd(a: nat, n: nat, at: nat, r0: nat)
    requires 1 <= n && at <= a * n && r0 * n <= at + n / 2
    ensures r0 <= a
  {
    if a + 1 <= r0 { MulMono(a + 1, r0, n); }
  }

  lemma UpperEnd(a: nat, n: nat, at: nat, r1: nat)
    requires 1 <= n && a * n < at && at + n / 2 < r1 * n + n
    ensures a <= r1
  {
    if r1 + 1 <= a { MulMono(r1 + 1, a, n); }
  }

  /** The stored point at or below f: inside the calibrated range f lies between it and the next. */
  function Index(r: Range, f: nat): (idx: nat)
    requires r.Valid() && r.first < f < r.last
    ensures idx < r.points - 1
    ensures r.first <= r.At(idx) <= f <= r.At(idx + 1) <= r.last
  {
    IndexBrackets(r, f);
    Quotient(Times(f - r.first, r.points - 1), r.last - r.first)
  }

  lemma IndexBrackets(r: Range, f: nat)
    requires r.Valid() && r.first < f < r.last
    ensures var idx := Quotient(Times(f - r.first, r.points - 1), r.last - r.first);
      && idx < r.points - 1
      && r.first <= r.At(idx) <= f <= r.At(idx + 1) <= r.last
  {
    var n, span := r.points - 1, r.last - r.first;
    hide Rounded, Quotient, Times;
    var idx := Quotient(Times(f - r.first, n), span);
    IndexBounds(f - r.first, n, span);
    RoundedBounds(span, idx, n);
    BelowLast(f - r.first, n, span, idx);
    LowerEnd(f - r.first, n, span * idx, Rounded(span, idx, n));
    RoundedBounds(span, idx + 1, n);
    UpperEnd(f - r.first, n, span * (idx + 1), Rounded(span, idx + 1, n));
    Nondecreasing(r.first, r.last, r.points, idx, idx + 1);
  }

  lemma IndexBounds(a: nat, n: nat, span: nat)
    requires 1 <= span
    ensures var idx := Quotient(Times(a, n), span);
            idx * span <= a * n < span * (idx + 1) && span * idx == idx * span
  {
    var idx := Quotient(Times(a, n), span);
    assert span * (idx + 1) == idx * span + span;
  }

  /** The choice cal_interpolate makes for f. A change of harmonic band between the two neighbours makes it
      extrapolate from the two points on f's own side. */
  function Select(cfg: Config, r: Range, f: nat): Source
    requires r.Valid() && r.last <= cfg.Limit(LAST_BAND)
  {
    var n := r.points - 1;
    if f <= r.first then Copy(0)
    else if f >= r.last then Copy(n)
    else
      var idx := Index(r, f);
      var f0, f1 := r.At(idx), r.At(idx + 1);
      if f == f0 then Copy(idx) else
      var k := (f - f0) as real / (f1 - f0) as real;
      var level := cfg.Level(f0);
      if level != cfg.Level(f1) then
        if level == cfg.Level(f) then
          if idx < 1 then Copy(idx) else Blend(idx - 1, k + 1.0)
        else
          Blend(idx + 1, k - 1.0)
      else Blend(idx, k)
  }

  /** The term a source gives, from the stored row of one error term. */
  function Value(row: seq<Complex>, s: Source): Complex
    requires s.idx + (if s.Blend? then 1 else 0) < |row|
  {
    match s
    case Copy(idx) => row[idx]
    case Blend(idx, k) => row[idx].Add(row[idx + 1].Sub(row[idx]).Scale(k))
  }

  /** f is in the last interval, on the far side of a band change inside it. */
  ghost predicate PastTheEnd(cfg: Config, r: Range, f: nat)
    requires r.Valid() && r.last <= cfg.Limit(LAST_BAND)
  {
    && r.first < f < r.last
    && Index(r, f) == r.points - 2
    && r.At(r.points - 2) < f
    && cfg.Level(r.At(r.points - 2)) != cfg.Level(r.At(r.points - 1))
    && cfg.Level(f) != cfg.Level(r.At(r.points - 2))
  }

  /** Both points the choice names were measured, except past a band change in the last interval. */
  lemma MeasuredIff(cfg: Config, r: Range, f: nat)
    requires r.Valid() && r.last <= cfg.Limit(LAST_BAND)
    ensures var s := Select(cfg, r, f);
      s.idx + (if s.Blend? then 1 else 0) < r.points <==> !PastTheEnd(cfg, r, f)
  {
    hide Config.Level, Index, Grid;
  }

  /** Such a request: 101 points from 1 to 101 MHz on an H4 board, and 100.5 MHz just past the band change. */
  lemma PastTheLastPoint(cfg: Config)
    requires cfg.Valid() && cfg.board == H4 && cfg.threshold >= 101_000_000
    ensures var r := Range(1_000_000, 101_000_000, 101);
      && r.Valid() && r.last <= cfg.Limit(LAST_BAND)
      && PastTheEnd(cfg, r, 100_500_000) && Select(cfg, r, 100_500_000) == Blend(100, -0.5)
  {
    hide Grid, Index, Config.Level, Config.Limit;
    BandEdge(cfg);
    LastStep(Range(1_000_000, 101_000_000, 101));
  }

  lemma BandEdge(cfg: Config)
    requires cfg.Valid() && cfg.board == H4 && cfg.threshold >= 101_000_000
    ensures 101_000_000 <= cfg.Limit(LAST_BAND)
    ensures cfg.Level(100_000_000) == 2 && cfg.Level(100_500_000) == cfg.Level(101_000_000) == 3
  {
    hide Config.Level;
    assert cfg.Limit(0) == 0 && cfg.Limit(1) == 26_000 && cfg.Limit(2) == 100_000_000 && cfg.Limit(3) == 130_000_000;
  }

  lemma LastStep(r: Range)
    requires r == Range(1_000_000, 101_000_000, 101)
    ensures r.At(99) == 100_000_000 && r.At(100) == 101_000_000 && Index(r, 100_500_000) == 99
  {
    hide Index, Rounded;
    RoundedIs(100_000_000, 99, 100, 99_000_000);
    RoundedIs(100_000_000, 100, 100, 100_000_000);
    hide Grid;
    var idx := Index(r, 100_500_000);
    if idx < 99 { Nondecreasing(r.first, r.last, r.points, idx + 1, 99); }
  }

  // ---- the value that comes out ----

  /** How far f is into its interval, from 0 at its left end to 1 at the right one. */
  function Part(r: Range, f: nat): real
    requires r.Valid() && r.first < f < r.last
  {
    var f0, f1 := r.At(Index(r, f)), r.At(Index(r, f) + 1);
    if f == f0 then 0.0 else (f - f0) as real / (f1 - f0) as real
  }

  /** In front of the first band change there is no second point on f's side, and the first one is taken. */
  ghost predicate Clamped(cfg: Config, r: Range, f: nat)
    requires r.Valid() && r.last <= cfg.Limit(LAST_BAND) && r.first < f < r.last
  {
    && Index(r, f) == 0 && r.At(0) < f
    && cfg.Level(r.At(0)) == cfg.Level(f) != cfg.Level(r.At(1))
  }

  /** The place of a source among the points: its number, or as far beyond point idx as k says. */
  function Place(s: Source): real {
    match s
    case Copy(idx) => idx as real
    case Blend(idx, k) => idx as real + k
  }

  /** Whichever points are used, forward, backward or between, they are used for the place of f. */
  lemma PlaceIff(cfg: Config, r: Range, f: nat)
    requires r.Valid() && r.last <= cfg.Limit(LAST_BAND) && r.first < f < r.last
    ensures Place(Select(cfg, r, f)) == Index(r, f) as real + Part(r, f) <==> !Clamped(cfg, r, f)
    ensures Clamped(cfg, r, f) ==> Select(cfg, r, f) == Copy(0)
  {
    hide Config.Level, Config.Limit, Index, Grid;
    var f0, f1 := r.At(Index(r, f)), r.At(Index(r, f) + 1);
    if f0 < f { Fraction01(f - f0, f1 - f0); }
    Ends(r.first, r.last, r.points);
  }

  /** So a term that runs along a line a + b i in the number i of the point is continued along that line, inside a
      band and on both sides of a band change; only a clamped request reads the first point instead. */
  lemma Linear(cfg: Config, r: Range, f: nat, row: seq<Complex>, a: Complex, b: Complex)
    requires r.Valid() && r.last <= cfg.Limit(LAST_BAND) && r.first < f < r.last && |row| == r.points
    requires !PastTheEnd(cfg, r, f) && forall i :: 0 <= i < |row| ==> row[i] == OnLine(a, b, i as real)
    ensures var s := Select(cfg, r, f);
      && s.idx + (if s.Blend? then 1 else 0) < |row|
      && Value(row, s) ==
         if Clamped(cfg, r, f) then row[0] else OnLine(a, b, Index(r, f) as real + Part(r, f))
  {
    hide Config.Level, Config.Limit, Index, Grid, Select, Part, PastTheEnd, Clamped, OnLine, Value;
    MeasuredIff(cfg, r, f);
    PlaceIff(cfg, r, f);
    var s := Select(cfg, r, f);
    LineValue(row, s, a, b);
    if s.Copy? { assert row[s.idx] == OnLine(a, b, s.idx as real); }
  }

  function OnLine(a: Complex, b: Complex, x: real): Complex { a.Add(b.Scale(x)) }

  lemma LineValue(row: seq<Complex>, s: Source, a: Complex, b: Complex)
    requires s.idx + (if s.Blend? then 1 else 0) < |row|
    requires forall i :: 0 <= i < |row| ==> row[i] == OnLine(a, b, i as real)
    ensures Value(row, s) == OnLine(a, b, Place(s))
    ensures s.Copy? ==> Value(row, s) == row[s.idx]
  {
    if s.Blend? {
      assert row[s.idx] == OnLine(a, b, s.idx as real) && row[s.idx + 1] == OnLine(a, b, (s.idx + 1) as real);
      assert (s.idx + 1) as real == s.idx as real + 1.0;
      AlongLine(a.re, b.re, s.idx as real, s.k);
      AlongLine(a.im, b.im, s.idx as real, s.k);
    } else {
      assert row[s.idx] == OnLine(a, b, s.idx as real);
    }
  }

  lemma AlongLine(a: real, b: real, i: real, k: real)
    ensures (a + i * b) + k * ((a + (i + 1.0) * b) - (a + i * b)) == a + (i + k) * b
  {}

  // ---- the band of the points used ----

  /** Point i was measured, in the harmonic band of f. */
  ghost predicate InBand(cfg: Config, r: Range, f: nat, i: nat)
    requires r.Valid() && r.last <= cfg.Limit(LAST_BAND) && f <= cfg.Limit(LAST_BAND)
  {
    i < r.points && r.At(i) <= r.last && cfg.Level(r.At(i)) == cfg.Level(f)
  }

  /** Every point the choice names is. */
  ghost predicate StaysInBand(cfg: Config, r: Range, f: nat)
    requires r.Valid() && r.last <= cfg.Limit(LAST_BAND) && f <= cfg.Limit(LAST_BAND)
  {
    var s := Select(cfg, r, f);
    InBand(cfg, r, f, s.idx) && (s.Blend? ==> InBand(cfg, r, f, s.idx + 1))
  }

  /** f is a stored frequency, or has two neighbours of its band: on both sides, or the two next on the only side
      where there are any. In front of the first interval one is enough. */
  ghost predicate Served(cfg: Config, r: Range, f: nat)
    requires r.Valid() && r.last <= cfg.Limit(LAST_BAND) && r.first < f < r.last
  {
    var idx := Index(r, f);
    || r.At(idx) == f
    || (InBand(cfg, r, f, idx) && (InBand(cfg, r, f, idx + 1) || idx == 0 || InBand(cfg, r, f, idx - 1)))
    || (!InBand(cfg, r, f, idx) && InBand(cfg, r, f, idx + 1) && InBand(cfg, r, f, idx + 2))
  }

  lemma LevelMono(cfg: Config, f: nat, g: nat)
    requires f <= g <= cfg.Limit(LAST_BAND)
    ensures cfg.Level(f) <= cfg.Level(g)
  {
    var l := cfg.Level(g);
    assert f <= cfg.Limit(l);
  }

  /** The points used are all of f's band exactly when f is served; outside the calibrated range, when the end that
      is used is of f's band. */
  lemma StaysInBandIff(cfg: Config, r: Range, f: nat)
    requires r.Valid() && r.last <= cfg.Limit(LAST_BAND) && f <= cfg.Limit(LAST_BAND)
    ensures StaysInBand(cfg, r, f) <==>
            if f <= r.first then cfg.Level(f) == cfg.Level(r.first)
            else if f >= r.last then cfg.Level(f) == cfg.Level(r.last)
            else Served(cfg, r, f)
  {
    hide Config.Level, Index, Grid, Config.Limit, Select;
    Ends(r.first, r.last, r.points);
    SelectEnds(cfg, r, f);
    if r.first < f < r.last {
      var idx := Index(r, f);
      SelectPoints(cfg, r, f, idx);
      LevelMono(cfg, r.At(idx), f);
      LevelMono(cfg, f, r.At(idx + 1));
    }
  }

  /** Which points the choice names. */
  lemma SelectPoints(cfg: Config, r: Range, f: nat, idx: nat)
    requires r.Valid() && r.last <= cfg.Limit(LAST_BAND) && r.first < f < r.last && idx == Index(r, f)
    ensures idx + 1 < r.points && r.At(idx) <= f <= r.At(idx + 1) <= cfg.Limit(LAST_BAND)
    ensures var s := Select(cfg, r, f);
            var l0, l1 := cfg.Level(r.At(idx)), cfg.Level(r.At(idx + 1));
            if f == r.At(idx) then s == Copy(idx)
            else if l0 == l1 then s.Blend? && s.idx == idx
            else if l0 != cfg.Level(f) then s.Blend? && s.idx == idx + 1
            else if idx == 0 then s == Copy(0)
            else s.Blend? && s.idx == idx - 1
  {
    hide Config.Level, Index, Grid, Config.Limit;
  }

  lemma SelectEnds(cfg: Config, r: Range, f: nat)
    requires r.Valid() && r.last <= cfg.Limit(LAST_BAND)
    ensures f <= r.first ==> Select(cfg, r, f) == Copy(0)
    ensures r.first < f && r.last <= f ==> Select(cfg, r, f) == Copy(r.points - 1)
  {
    hide Config.Level, Index, Grid, Config.Limit;
  }

  /** Consecutive points are at most a step and a hertz apart. */
  lemma Apart(r: Range, i: nat, j: nat)
    requires r.Valid() && r.first < r.last && i <= j < r.points
    ensures r.At(i) <= r.At(j) <= r.last
    ensures Times(r.At(j) - r.At(i), r.points - 1) < Times(j - i, r.last - r.first) + (r.points - 1)
  {
    var n, span := r.points - 1, r.last - r.first;
    hide Rounded;
    Nondecreasing(r.first, r.last, r.points, i, j);
    RoundedBounds(span, i, n);
    RoundedBounds(span, j, n);
    Difference(Rounded(span, i, n), Rounded(span, j, n), n);
    Difference(i, j, span);
  }

  lemma Difference(a: nat, b: nat, n: nat)
    requires a <= b
    ensures Times(b - a, n) == b * n - a * n
  {}

  /** f's band, as far as it lies in the range, is two steps and a hertz wide, or begins below the range. */
  ghost predicate Wide(cfg: Config, r: Range, f: nat)
    requires r.Valid() && r.last <= cfg.Limit(LAST_BAND) && f <= cfg.Limit(LAST_BAND)
  {
    var low, high := cfg.Floor(cfg.Level(f)), Min(cfg.Limit(cfg.Level(f)), r.last);
    low < r.first || (low <= high && 2 * (r.last - r.first) + (r.points - 1) <= Times(high - low, r.points - 1))
  }

  /** In a wide band every point used was measured there. */
  lemma WideIsServed(cfg: Config, r: Range, f: nat)
    requires r.Valid() && r.last <= cfg.Limit(LAST_BAND) && r.first < f < r.last && Wide(cfg, r, f)
    ensures StaysInBand(cfg, r, f)
  {
    hide Config.Level, Config.Limit, Config.Floor, Index, Grid, Select, Times, Min;
    var idx, b, n, span := Index(r, f), cfg.Level(f), r.points - 1, r.last - r.first;
    StaysInBandIff(cfg, r, f);
    LevelIff(cfg, f, b);
    BandPoint(cfg, r, f, idx);
    BandPoint(cfg, r, f, idx + 1);
    if r.At(idx) <= cfg.Floor(b) {
      RoomAbove(cfg, r, f);
      BandPoint(cfg, r, f, idx + 2);
    } else if cfg.Limit(b) < r.At(idx + 1) && 0 < idx {
      RoomBelow(cfg, r, f);
      BandPoint(cfg, r, f, idx - 1);
    }
  }

  lemma BandPoint(cfg: Config, r: Range, f: nat, i: nat)
    requires r.Valid() && r.last <= cfg.Limit(LAST_BAND) && r.first < f < r.last && i < r.points
    ensures r.At(i) <= r.last
    ensures InBand(cfg, r, f, i) <==> cfg.Floor(cfg.Level(f)) < r.At(i) <= cfg.Limit(cfg.Level(f))
  {
    hide Config.Level, Config.Limit, Config.Floor, Grid;
    Nondecreasing(r.first, r.last, r.points, i, i);
    if r.At(i) > 0 { LevelIff(cfg, r.At(i), cfg.Level(f)); } else { LevelZero(cfg, f); }
  }

  lemma LevelZero(cfg: Config, f: nat)
    requires 1 <= f <= cfg.Limit(LAST_BAND)
    ensures cfg.Level(0) == 0 && cfg.Level(f) != 0
  {
    assert cfg.Limit(0) == 0;
    hide Config.Level;
  }

  /** Past the floor of a wide band there are two points below its limit ... */
  lemma RoomAbove(cfg: Config, r: Range, f: nat)
    requires r.Valid() && r.last <= cfg.Limit(LAST_BAND) && r.first < f < r.last && Wide(cfg, r, f)
    requires r.At(Index(r, f)) <= cfg.Floor(cfg.Level(f))
    ensures Index(r, f) + 2 < r.points && r.At(Index(r, f) + 1) <= r.At(Index(r, f) + 2) <= cfg.Limit(cfg.Level(f))
  {
    hide Config.Level, Config.Limit, Config.Floor, Index, Grid, Times;
    var idx, n := Index(r, f), r.points - 1;
    var low, high := cfg.Floor(cfg.Level(f)), Min(cfg.Limit(cfg.Level(f)), r.last);
    Ends(r.first, r.last, r.points);
    if idx + 2 < r.points {
      Apart(r, idx, idx + 2);
      Nondecreasing(r.first, r.last, r.points, idx + 1, idx + 2);
      Doubled(r.last - r.first);
      MulLess(r.At(idx + 2) - r.At(idx), high - low, n);
    } else {
      Apart(r, idx, idx + 1);
      Doubled(r.last - r.first);
      MulLess(r.At(idx + 1) - r.At(idx), high - low, n);
      assert false;
    }
  }

  /** ... and below its limit two points above its floor. */
  lemma RoomBelow(cfg: Config, r: Range, f: nat)
    requires r.Valid() && r.last <= cfg.Limit(LAST_BAND) && r.first < f < r.last && Wide(cfg, r, f)
    requires 0 < Index(r, f) && cfg.Limit(cfg.Level(f)) < r.At(Index(r, f) + 1)
    ensures cfg.Floor(cfg.Level(f)) < r.At(Index(r, f) - 1) <= f
  {
    hide Config.Level, Config.Limit, Config.Floor, Index, Grid, Times;
    var idx, n := Index(r, f), r.points - 1;
    var low, high := cfg.Floor(cfg.Level(f)), Min(cfg.Limit(cfg.Level(f)), r.last);
    Nondecreasing(r.first, r.last, r.points, idx - 1, idx);
    Apart(r, idx - 1, idx + 1);
    Doubled(r.last - r.first);
    if r.first <= low { MulLess(r.At(idx + 1) - r.At(idx - 1), high - low, n); }
  }

  lemma Doubled(span: nat)
    ensures Times(2, span) == 2 * span && Times(1, span) == span
  {}

  lemma MulLess(a: nat, b: nat, n: nat)
    requires Times(a, n) < Times(b, n)
    ensures a < b
  {
    if b <= a { MulMono(b, a, n); }
  }

  /** A band that is not wide: 21 points from 50 kHz to 900 MHz on an H4 board leave band 3 without a point, and
      120 MHz is extrapolated from a point of band 4 and one of band 5. */
  lemma BandsMixed(cfg: Config)
    requires cfg.Valid() && cfg.board == H4 && cfg.threshold >= 181_000_000
    ensures var r, f := Range(50_000, 900_000_000, 21), 120_000_000;
      && r.Valid() && r.last <= cfg.Limit(LAST_BAND) && !StaysInBand(cfg, r, f)
      && Select(cfg, r, f).Blend? && Select(cfg, r, f).idx == 3
      && cfg.Level(f) == 3 && cfg.Level(r.At(3)) == 4 && cfg.Level(r.At(4)) == 5
  {
    hide Grid, Index, Config.Level, Config.Limit, Select;
    MixedLevels(cfg);
    MixedPoints(Range(50_000, 900_000_000, 21));
    SelectPoints(cfg, Range(50_000, 900_000_000, 21), 120_000_000, 2);
  }

  lemma MixedLevels(cfg: Config)
    requires cfg.Valid() && cfg.board == H4 && cfg.threshold >= 181_000_000
    ensures 900_000_000 <= cfg.Limit(LAST_BAND)
    ensures cfg.Level(90_045_000) == 2 && cfg.Level(120_000_000) == 3
    ensures cfg.Level(135_042_500) == 4 && cfg.Level(180_040_000) == 5
  {
    hide Config.Level;
    assert cfg.Limit(0) == 0 && cfg.Limit(1) == 26_000 && cfg.Limit(2) == 100_000_000 && cfg.Limit(3) == 130_000_000;
    assert cfg.Limit(4) == 180_000_000 && cfg.Limit(5) == cfg.threshold;
  }

  lemma MixedPoints(r: Range)
    requires r == Range(50_000, 900_000_000, 21)
    ensures r.At(2) == 90_045_000 && r.At(3) == 135_042_500 && r.At(4) == 180_040_000
    ensures Index(r, 120_000_000) == 2
  {
    hide Index, Rounded;
    RoundedIs(899_950_000, 2, 20, 89_995_000);
    RoundedIs(899_950_000, 3, 20, 134_992_500);
    RoundedIs(899_950_000, 4, 20, 179_990_000);
    hide Grid;
    var idx := Index(r, 120_000_000);
    if idx < 2 { Nondecreasing(r.first, r.last, r.points, idx + 1, 2); }
    if 2 < idx { Nondecreasing(r.first, r.last, r.points, 3, idx); }
  }

  /** Between two stored points of one harmonic band the term is the convex combination that lies on the
      straight line through both. */
  lemma Convex(cfg: Config, r: Range, f: nat)
    requires r.Valid() && r.last <= cfg.Limit(LAST_BAND) && r.first < f < r.last
    requires f != r.At(Index(r, f)) && cfg.Level(r.At(Index(r, f))) == cfg.Level(r.At(Index(r, f) + 1))
    ensures var s := Select(cfg, r, f);
      && s.Blend? && s.idx == Index(r, f) && 0.0 < s.k <= 1.0
      && s.k * (r.At(s.idx + 1) - r.At(s.idx)) as real == (f - r.At(s.idx)) as real
  {
    hide Config.Level, Config.Limit, Index, Grid;
    var f0, f1 := r.At(Index(r, f)), r.At(Index(r, f) + 1);
    Fraction01(f - f0, f1 - f0);
  }

  lemma Fraction01(a: nat, b: nat)
    requires 0 < a <= b
    ensures var k := a as real / b as real; 0.0 < k <= 1.0 && k * b as real == a as real && (a == b ==> k == 1.0)
  {}

  /** Strictly inside the range, at a stored frequency: the left neighbour, or the right one with k = 1, or
      past a band change the right one with k = 0. */
  lemma AtStored(cfg: Config, r: Range, j: nat) returns (i: nat)
    requires r.Valid() && r.last <= cfg.Limit(LAST_BAND) && j < r.points && r.first < r.At(j) < r.last
    ensures i < r.points && r.At(i) == r.At(j)
    ensures var s := Select(cfg, r, r.At(j));
      s == Copy(i) || (i > 0 && s == Blend(i - 1, 1.0)) || (i + 1 < r.points && s == Blend(i, 0.0))
  {
    hide Config.Level, Config.Limit, Index, Grid;
    var f := r.At(j);
    Ends(r.first, r.last, r.points);
    var idx := Index(r, f);
    var f0, f1 := r.At(idx), r.At(idx + 1);
    if f == f0 {
      i := idx;
    } else {
      i := idx + 1;
      NextStored(r, j);
      Fraction01(f - f0, f1 - f0);
    }
  }

  /** No stored frequency lies strictly between two neighbours. */
  lemma NextStored(r: Range, j: nat)
    requires r.Valid() && j < r.points && r.first < r.At(j) < r.last
    ensures r.At(j) == r.At(Index(r, r.At(j))) || r.At(j) == r.At(Index(r, r.At(j)) + 1)
  {
    var f := r.At(j);
    var idx := Index(r, f);
    hide Index, Grid;
    if j <= idx {
      Nondecreasing(r.first, r.last, r.points, j, idx);
    } else {
      Nondecreasing(r.first, r.last, r.points, idx + 1, j);
    }
  }

  /** At a calibration frequency the term is one stored at that frequency, on whichever side of f rounding
      put the neighbours and wherever the bands change. */
  lemma Reproduces(cfg: Config, r: Range, j: nat, row: seq<Complex>) returns (i: nat)
    requires r.Valid() && r.last <= cfg.Limit(LAST_BAND) && j < r.points == |row|
    ensures i < r.points && r.At(i) == r.At(j)
    ensures var s := Select(cfg, r, r.At(j));
      s.idx + (if s.Blend? then 1 else 0) < |row| && Value(row, s) == row[i]
  {
    hide Grid, Index, Select, Value, Config.Limit;
    Ends(r.first, r.last, r.points);
    Nondecreasing(r.first, r.last, r.points, j, j);
    SelectEnds(cfg, r, r.At(j));
    if r.At(j) <= r.first {
      i := 0;
    } else if r.At(j) >= r.last {
      i := r.points - 1;
    } else {
      i := AtStored(cfg, r, j);
    }
    StoredValue(row, Select(cfg, r, r.At(j)), i);
  }

  lemma StoredValue(row: seq<Complex>, s: Source, i: nat)
    requires i < |row|
    requires s == Copy(i) || (i > 0 && s == Blend(i - 1, 1.0)) || (i + 1 < |row| && s == Blend(i, 0.0))
    ensures s.idx + (if s.Blend? then 1 else 0) < |row| && Value(row, s) == row[i]
  {}

  /** With a hertz for every step that is the very point: interpolation leaves the stored terms alone. */
  lemma ReproducesPoint(cfg: Config, r: Range, j: nat, row: seq<Complex>)
    requires r.Valid() && r.last <= cfg.Limit(LAST_BAND) && j < r.points == |row|
    requires r.points - 1 <= r.last - r.first
    ensures var s := Select(cfg, r, r.At(j));
      s.idx + (if s.Blend? then 1 else 0) < |row| && Value(row, s) == row[j]
  {
    var i := Reproduces(cfg, r, j, row);
    DistinctIff(r.first, r.last, r.points);
    hide Select, Grid;
    if i < j {
      Nondecreasing(r.first, r.last, r.points, i + 1, j);
    } else if j < i {
      Nondecreasing(r.first, r.last, r.points, j + 1, i);
    }
  }
}
