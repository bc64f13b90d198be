/** Which drive strengths a run leaves on the outputs (si5351.c, si5351_set_frequency): a closed form over the
    operations of the run. */
module Drive {
  import opened Bands
  import opened Synth

  /** The frequencies set since the caches were last empty, all at one strength. */
  datatype Tuned = Tuned(drive: nat, freqs: seq<nat>) {
    /** Below 26 kHz the strength is always 2 mA; another strength starts over. */
    function Add(freq: nat, wanted: nat): Tuned {
      var d := if freq < 26_000 then DRIVE_2MA else wanted;
      if d == drive then Tuned(d, freqs + [freq]) else Tuned(d, [freq])
    }

    function Last(): nat
      requires freqs != []
    {
      freqs[|freqs| - 1]
    }

    /** A new strength retunes; a mute, a restart, a new offset or crystal empties the caches. */
    function Then(op: Op): Tuned {
      match op
      case Frequency(freq, wanted) => if freq == 0 then this else Add(freq, wanted)
      case Power(strength) => if freqs == [] then this else Add(Last(), strength)
      case _ => Tuned(drive, [])
    }
  }

  function Start(k: Caches): Tuned { Tuned(k.power, if k.freq == 0 then [] else [k.freq]) }

  function Since(start: Tuned, ops: seq<Op>): Tuned
  {
    if ops == [] then start
    else Since(start, ops[..|ops| - 1]).Then(ops[|ops| - 1])
  }

  /** The band of a frequency, 0 behind the last band. */
  function Band(cfg: Config, freq: nat): (b: nat)
    ensures b <= LAST_BAND
  {
    if freq < 26_000 then 1 else if freq <= 1_000_000 then 2
    else if freq <= cfg.Limit(LAST_BAND) then cfg.Level(freq) else 0
  }

  function Divider(cfg: Config, freq: nat): nat { Row(cfg.board, Band(cfg, freq)).div }

  /** fs[i] begins the last frequencies of the list that share one divider. */
  ghost predicate Begins(cfg: Config, fs: seq<nat>, i: nat) {
    && i < |fs|
    && (forall j :: i <= j < |fs| ==> Divider(cfg, fs[j]) == Divider(cfg, fs[|fs| - 1]))
    && (i > 0 ==> Divider(cfg, fs[i - 1]) != Divider(cfg, fs[|fs| - 1]))
  }

  predicate SameStrengths(cfg: Config, f: nat, g: nat) {
    var a, b := Row(cfg.board, Band(cfg, f)), Row(cfg.board, Band(cfg, g));
    a.pow == b.pow && a.opow == b.opow
  }

  /** The outputs keep strengths of an earlier band: the strength is automatic, and the first of the last frequencies
      that share one divider is in a band of other strengths. */
  ghost predicate KeepsStrengths(cfg: Config, t: Tuned) {
    t.drive > DRIVE_8MA &&
    exists i: nat :: Begins(cfg, t.freqs, i) && !SameStrengths(cfg, t.freqs[i], t.Last())
  }

  // ---- the caches follow ----

  /** The band whose row the outputs carry after these frequencies on empty caches. */
  function Wrote(cfg: Config, fs: seq<nat>): nat
    requires fs != []
  {
    var n := |fs| - 1;
    var b := Band(cfg, fs[n]);
    if 3 <= b && n > 0 && Divider(cfg, fs[n - 1]) == Divider(cfg, fs[n]) then Wrote(cfg, fs[..n]) else b
  }

  ghost predicate Tracks(cfg: Config, k: Caches, t: Tuned) {
    && k.power == t.drive && (k.freq == 0 <==> t.freqs == [])
    && (forall f :: f in t.freqs && f < 26_000 ==> t.drive == DRIVE_2MA)
    && (t.freqs != [] ==> k.freq == t.Last() && k.wrote == Wrote(cfg, t.freqs))
  }

  /** Crystal and offset do not move the bands. */
  predicate SameBands(cfg: Config, base: Config) { cfg.board == base.board && cfg.threshold == base.threshold }

  /** The plan asks for the frequency's band, and for 2 mA below 26 kHz. */
  lemma BandIsPlanned(cfg: Config, base: Config, freq: nat, drive: nat)
    requires cfg.Covers(freq) && SameBands(cfg, base)
    ensures var p := cfg.Plan(freq, drive);
            p.0 == Band(base, freq) && p.2 == if freq < 26_000 then DRIVE_2MA else drive
  {
    hide Config.Level;
    assert forall i: nat :: i <= LAST_BAND ==> cfg.Limit(i) == base.Limit(i);
    hide Config.Limit;
    LevelIs(base, freq, cfg.Level(freq));
  }

  /** The caches after a call, by the bands of the two frequencies. */
  lemma StepWrites(cfg: Config, base: Config, k: Caches, freq: nat, drive: nat)
    requires Sound(cfg, k) && freq != 0 && cfg.Covers(freq) && SameBands(cfg, base)
    ensures var next, b := Step(cfg, k, freq, drive), Band(base, freq);
      && next.freq == freq && next.power == (if freq < 26_000 then DRIVE_2MA else drive)
      && next.wrote == if k.power == next.power && k.freq != 0 && 3 <= b && Divider(base, k.freq) == Divider(base, freq)
                       then k.wrote else b
  {
    hide Config.Plan, Config.Covers, Row, Band;
    BandIsPlanned(cfg, base, freq, drive);
    PlanSettles(cfg, freq, drive);
    if k.freq != 0 { BandIsPlanned(cfg, base, k.freq, k.power); }
    RowFacts(cfg.board, Band(base, freq));
  }

  lemma WroteStep(cfg: Config, fs: seq<nat>, freq: nat)
    ensures var b := Band(cfg, freq);
            Wrote(cfg, fs + [freq]) ==
            if 3 <= b && fs != [] && Divider(cfg, fs[|fs| - 1]) == Divider(cfg, freq) then Wrote(cfg, fs) else b
  {
    assert (fs + [freq])[..|fs|] == fs;
  }

  lemma TracksStep(cfg: Config, base: Config, k: Caches, t: Tuned, freq: nat, drive: nat)
    requires Sound(cfg, k) && Tracks(base, k, t) && freq != 0 && cfg.Covers(freq) && SameBands(cfg, base)
    ensures Tracks(base, Step(cfg, k, freq, drive), t.Add(freq, drive))
  {
    hide Config.Covers, Row, Band, Divider, Step, Sound, Wrote;
    StepWrites(cfg, base, k, freq, drive);
    WroteStep(base, t.freqs, freq);
    WroteStep(base, [], freq);
    assert [] + [freq] == [freq];
  }

  lemma TracksStart(m: Memory)
    requires Sound(m.cfg, m.caches) && m.caches.wrote == m.caches.band
    ensures Tracks(m.cfg, m.caches, Start(m.caches))
  {
    hide Row, Band, Config.Plan, Config.Covers;
    if m.caches.freq != 0 { BandIsPlanned(m.cfg, m.cfg, m.caches.freq, m.caches.power); }
  }

  /** The operations alone tell which band the outputs carry. */
  lemma {:induction false} TracksRun(m: Memory, ops: seq<Op>)
    requires Sound(m.cfg, m.caches) && m.caches.wrote == m.caches.band && Legal(m, ops)
    ensures SameBands(After(m, ops).cfg, m.cfg)
    ensures Tracks(m.cfg, After(m, ops).caches, Since(Start(m.caches), ops))
    decreases |ops|
  {
    hide Tracks, Sound, Config.Covers, Step, Start;
    if ops == [] {
      TracksStart(m);
    } else {
      var before, last := ops[..|ops| - 1], ops[|ops| - 1];
      TracksRun(m, before);
      TracksApply(After(m, before), m.cfg, Since(Start(m.caches), before), last);
    }
  }

  lemma TracksApply(m: Memory, base: Config, t: Tuned, op: Op)
    requires Sound(m.cfg, m.caches) && Tracks(base, m.caches, t) && SameBands(m.cfg, base) && Allowed(m, op)
    ensures SameBands(Apply(m, op).cfg, base) && Tracks(base, Apply(m, op).caches, t.Then(op))
  {
    hide Config.Covers, Wrote, Tuned.Add;
    match op
    case Frequency(freq, drive) =>
      if freq != 0 { TracksStep(m.cfg, base, m.caches, t, freq, drive); } else { ZeroStep(m.cfg, m.caches, drive); }
    case Power(strength) => TracksPower(m, base, t, strength);
    case _ =>
  }

  lemma TracksPower(m: Memory, base: Config, t: Tuned, strength: nat)
    requires Sound(m.cfg, m.caches) && Tracks(base, m.caches, t) && SameBands(m.cfg, base)
    ensures Tracks(base, Apply(m, Power(strength)).caches, t.Then(Power(strength)))
  {
    if t.freqs == [] {
      ZeroStep(m.cfg, m.caches, strength);
    } else {
      TracksStep(m.cfg, base, m.caches, t, m.caches.freq, strength);
      if strength == m.caches.power { SameAgain(m.cfg, m.caches); }
    }
  }

  lemma SameAgain(cfg: Config, k: Caches)
    requires Sound(cfg, k) && k.freq != 0
    ensures Step(cfg, k, k.freq, k.power) == k
  {
    hide Config.Plan, Config.Covers;
  }

  // ---- the strengths kept ----

  lemma {:induction false} WroteBegins(cfg: Config, fs: seq<nat>) returns (i: nat)
    requires fs != [] && forall j :: 0 <= j < |fs| ==> 26_000 <= fs[j]
    ensures Begins(cfg, fs, i) && Wrote(cfg, fs) == Band(cfg, fs[i])
  {
    hide Row, Band, Divider;
    var n := |fs| - 1;
    if n > 0 && Divider(cfg, fs[n - 1]) == Divider(cfg, fs[n]) {
      i := WroteBegins(cfg, fs[..n]);
      LowDivider(cfg, fs[n], fs[i]);
    } else {
      i := n;
    }
  }

  /** From 26 kHz on the divider byte of a band below 100 MHz names the band. */
  lemma LowDivider(cfg: Config, f: nat, g: nat)
    requires 26_000 <= f && 26_000 <= g && Divider(cfg, f) == Divider(cfg, g)
    ensures Band(cfg, f) < 3 ==> Band(cfg, f) == Band(cfg, g)
  {
    hide Config.Level;
    var a, b := Band(cfg, f), Band(cfg, g);
    if a != 0 { RowFacts(cfg.board, a); }
    if b != 0 { RowFacts(cfg.board, b); }
    if 1_000_000 < f && a != 0 { NotLowest(cfg, f); }
    if 1_000_000 < g && b != 0 { NotLowest(cfg, g); }
  }

  lemma NotLowest(cfg: Config, f: nat)
    requires 26_000 < f <= cfg.Limit(LAST_BAND)
    ensures cfg.Level(f) >= 2
  {
    assert cfg.Limit(0) == 0 && cfg.Limit(1) == 26_000;
    hide Config.Level;
  }

  lemma BeginsOnce(cfg: Config, fs: seq<nat>, i: nat, j: nat)
    requires Begins(cfg, fs, i) && Begins(cfg, fs, j)
    ensures i == j
  {
    hide Divider;
  }

  /** After a run that starts on empty or freshly filled caches the outputs have the drive strengths of their band if
      and only if its operations do not keep those of an earlier one. */
  lemma DriveIff(m: Memory, ops: seq<Op>)
    requires Sound(m.cfg, m.caches) && m.caches.wrote == m.caches.band && Legal(m, ops)
    ensures var e := After(m, ops);
      e.caches.freq != 0 ==>
        && 1 <= e.caches.band <= LAST_BAND && 1 <= e.caches.wrote <= LAST_BAND
        && (SameDrive(e.cfg, e.caches) <==> !KeepsStrengths(m.cfg, Since(Start(m.caches), ops)))
  {
    TracksRun(m, ops);
    hide Since, Start, After, Legal;
    var e, t := After(m, ops), Since(Start(m.caches), ops);
    if e.caches.freq != 0 { TrackedDrive(e.cfg, m.cfg, e.caches, t); }
  }

  lemma TrackedDrive(cfg: Config, base: Config, k: Caches, t: Tuned)
    requires Sound(cfg, k) && SameBands(cfg, base) && Tracks(base, k, t) && k.freq != 0
    ensures 1 <= k.band <= LAST_BAND && 1 <= k.wrote <= LAST_BAND
    ensures SameDrive(cfg, k) <==> !KeepsStrengths(base, t)
  {
    hide Config.Plan, Config.Covers, Row, Band, Begins, Wrote;
    BandIsPlanned(cfg, base, k.freq, k.power);
    if t.drive > DRIVE_8MA {
      assert forall j :: 0 <= j < |t.freqs| ==> t.freqs[j] in t.freqs;
      var i := WroteBegins(base, t.freqs);
      forall j: nat | Begins(base, t.freqs, j)
        ensures j == i
      {
        BeginsOnce(base, t.freqs, i, j);
      }
    }
  }

  /** A run that only asks for fixed strengths keeps none ... */
  lemma FixedStrengths(m: Memory, ops: seq<Op>)
    requires Sound(m.cfg, m.caches) && m.caches.wrote == m.caches.band && Legal(m, ops)
    requires m.caches.power <= DRIVE_8MA && forall op :: op in ops ==> Fixed(op)
    ensures !KeepsStrengths(m.cfg, Since(Start(m.caches), ops))
  {
    StaysFixed(Start(m.caches), ops);
  }

  predicate Fixed(op: Op) {
    (op.Frequency? ==> op.drive <= DRIVE_8MA) && (op.Power? ==> op.strength <= DRIVE_8MA)
  }

  lemma {:induction false} StaysFixed(start: Tuned, ops: seq<Op>)
    requires start.drive <= DRIVE_8MA && forall op :: op in ops ==> Fixed(op)
    ensures Since(start, ops).drive <= DRIVE_8MA
  {
    if ops != [] {
      assert ops[|ops| - 1] in ops;
      StaysFixed(start, ops[..|ops| - 1]);
    }
  }

  /** ... and one that does keep any has a frequency above 600 MHz, or above 1.2 GHz on an H board. */
  lemma KeptAreHigh(m: Memory, ops: seq<Op>)
    requires Sound(m.cfg, m.caches) && m.caches.wrote == m.caches.band && Legal(m, ops)
    requires KeepsStrengths(m.cfg, Since(Start(m.caches), ops))
    ensures exists f :: f in Since(Start(m.caches), ops).freqs &&
                        f > if m.cfg.board == H then 1_200_000_000 else 600_000_000
  {
    TracksRun(m, ops);
    hide After, Legal, Since, Start, Sound, Wrote, Row, Band;
    var cfg, t := m.cfg, Since(Start(m.caches), ops);
    var i: nat :| Begins(cfg, t.freqs, i) && !SameStrengths(cfg, t.freqs[i], t.Last());
    assert t.freqs[i] in t.freqs && t.Last() in t.freqs;
    HighBand(cfg, t.freqs[i]);
    HighBand(cfg, t.Last());
    OtherStrengths(cfg.board, Band(cfg, t.freqs[i]), Band(cfg, t.Last()));
    hide Row, Band;
  }

  /** Rows of one divider but other strengths: one of them is high up in the table. */
  lemma OtherStrengths(board: Board, a: nat, b: nat)
    requires a <= LAST_BAND && b <= LAST_BAND && a != 1 && b != 1 && Row(board, a).div == Row(board, b).div
    requires Row(board, a).pow != Row(board, b).pow || Row(board, a).opow != Row(board, b).opow
    ensures var k := if board == H then 11 else 8; k <= a || k <= b
  {}

  lemma HighBand(cfg: Config, f: nat)
    requires 26_000 <= f
    ensures Band(cfg, f) != 1
    ensures Band(cfg, f) >= 8 ==> f > 600_000_000
    ensures Band(cfg, f) >= 11 ==> f > 1_200_000_000
  {
    if 1_000_000 < f <= cfg.Limit(LAST_BAND) { NotLowest(cfg, f); }
    assert cfg.Limit(7) == 600_000_000 && cfg.Limit(9) == 1_200_000_000;
    hide Config.Level, Config.Limit, Row;
  }
}
