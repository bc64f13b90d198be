/** The calibration procedure (main.c, cal_collect and cal_done; ui.c, the calibration menu): raw standards and
    error terms share five slots, and only the status flags say which is which. */
module Calibration {
  import opened Arithmetic
  import opened ComplexNumbers
  import opened ErrorModel
  import opened SweepGrid
  import opened Bands
  import opened Interpolation

  datatype Flag = LOAD | OPEN | SHORT | THRU | ISOLN | ES | ER | ET | APPLY | INTERPOLATED | ENHANCED

  datatype Standard = Load | Open | Short | Thru | Isoln {
    /** The slot a standard is stored in; the terms Ed, Es, Er, Et, Ex use the same five. */
    function Slot(): (k: nat)
      ensures k < TERMS
    {
      match this case Load => 0 case Open => 1 case Short => 2 case Thru => 3 case Isoln => 4
    }

    function Raw(): Flag {
      match this case Load => LOAD case Open => OPEN case Short => SHORT case Thru => THRU case Isoln => ISOLN
    }

    /** The flags a new reading invalidates. */
    function Clears(): set<Flag> {
      match this
      case Load => {APPLY}
      case Isoln => {APPLY}
      case Open => {ES, ER, APPLY}
      case Short => {ES, ER, APPLY}
      case Thru => {ET, APPLY}
    }
  }

  const TERMS := 5
  const TERM_ED := 0
  const TERM_ES := 1
  const TERM_ER := 2
  const TERM_ET := 3
  const TERM_EX := 4

  /** The five slots at one sweep point. */
  type Slots = s: seq<Complex> | |s| == TERMS witness [Zero, Zero, Zero, Zero, Zero]

  // ---- one point ----

  function CollectFlags(st: set<Flag>, std: Standard): set<Flag> { st - std.Clears() + {std.Raw()} }

  function CalcEs(s: Slots): Slots { s[TERM_ES := EsTerm(s[1], s[2], s[TERM_ED])] }
  function CalcEr(s: Slots, sign: int): Slots { s[TERM_ER := ErTerm(s[2], s[TERM_ED], s[TERM_ES], sign)] }
  function CalcEt(s: Slots): Slots { s[TERM_ET := EtTerm(s[3], s[TERM_EX])] }

  /** The reflection terms: both standards, the open alone, or the short alone. */
  function DoneReflection(st: set<Flag>, s: Slots): (r: (set<Flag>, Slots)) {
    if SHORT in st && OPEN in st then (st - {OPEN, SHORT} + {ES, ER}, CalcEr(CalcEs(s), -1))
    else if OPEN in st then (st - {OPEN, SHORT} + {ER}, CalcEr(s[2 := s[1]][TERM_ES := Zero], 1))
    else if SHORT in st then (st - {SHORT} + {ER}, CalcEr(s[TERM_ES := Zero], -1))
    else (st, s)
  }

  function DoneTransmission(st: set<Flag>, s: Slots): (r: (set<Flag>, Slots)) {
    if THRU in st then (st - {THRU} + {ET}, CalcEt(s)) else (st, s)
  }

  /** Slots no measurement filled get the term of a perfect instrument. */
  function DefaultLow(st: set<Flag>, s: Slots): Slots {
    var s1: Slots := if LOAD in st then s else s[TERM_ED := Zero];
    if ISOLN in st then s1 else s1[TERM_EX := Zero]
  }

  function DefaultHigh(st: set<Flag>, s: Slots): Slots {
    var s1: Slots := if ET in st then s else s[TERM_ET := One];
    var s2: Slots := if ER in st then s1 else s1[TERM_ER := One];
    if ES in st then s2 else s2[TERM_ES := Zero]
  }

  /** Flags and slots after cal_done. */
  function Done(st: set<Flag>, s: Slots): (r: (set<Flag>, Slots)) {
    var (st1, s1) := DoneReflection(st, DefaultLow(st, s));
    var (st2, s2) := DoneTransmission(st1, s1);
    (st2 + {APPLY}, DefaultHigh(st2, s2))
  }

  /** After it no raw standard is left, and the flags of the terms are those of the standards measured. */
  lemma DoneFlags(st: set<Flag>, s: Slots)
    ensures var r := Done(st, s).0;
      && {OPEN, SHORT, THRU} !! r && APPLY in r
      && (ES in r <==> ES in st || (OPEN in st && SHORT in st))
      && (ER in r <==> ER in st || OPEN in st || SHORT in st)
      && (ET in r <==> ET in st || THRU in st)
      && (forall f :: f in {LOAD, ISOLN, INTERPOLATED, ENHANCED} ==> (f in r <==> f in st))
  {}

  /** What each slot holds after it. */
  lemma DoneSlots(st: set<Flag>, s: Slots)
    ensures var t := Done(st, s).1;
      && t[TERM_ED] == (if LOAD in st then s[0] else Zero)
      && t[TERM_EX] == (if ISOLN in st then s[4] else Zero)
      && t[TERM_ET] == (if THRU in st then EtTerm(s[3], t[TERM_EX]) else if ET in st then s[3] else One)
      && (OPEN in st && SHORT in st ==>
            t[TERM_ES] == EsTerm(s[1], s[2], t[TERM_ED]) && t[TERM_ER] == ErTerm(s[2], t[TERM_ED], t[TERM_ES], -1))
      && (OPEN in st && SHORT !in st ==> t[TERM_ES] == Zero && t[TERM_ER] == ErTerm(s[1], t[TERM_ED], Zero, 1))
      && (OPEN !in st && SHORT in st ==> t[TERM_ES] == Zero && t[TERM_ER] == ErTerm(s[2], t[TERM_ED], Zero, -1))
      && (OPEN !in st && SHORT !in st ==>
            t[TERM_ES] == (if ES in st then s[1] else Zero) && t[TERM_ER] == (if ER in st then s[2] else One))
  {
    hide EsTerm, ErTerm, EtTerm;
  }

  /** A second cal_done changes nothing. */
  lemma DoneTwice(st: set<Flag>, s: Slots)
    ensures var r := Done(st, s); Done(r.0, r.1) == r
  {
    DoneFlags(st, s);
    DoneSettled(st, s);
    assert Done(st, s).0 + {APPLY} == Done(st, s).0;
    hide DoneReflection, DoneTransmission, DefaultLow, DefaultHigh;
  }

  /** Its slots already carry their defaults. */
  lemma DoneSettled(st: set<Flag>, s: Slots)
    ensures var r := Done(st, s);
      && DefaultLow(r.0, r.1) == r.1 && DefaultHigh(r.0, r.1) == r.1
      && DoneReflection(r.0, r.1) == r && DoneTransmission(r.0, r.1) == r
  {
    DoneFlags(st, s);
  }

  /** Without a single standard the instrument is taken as perfect: correction changes no reading. */
  lemma NoStandards(st: set<Flag>, s: Slots, m: Complex, gamma: Complex, enhanced: bool)
    requires st !! {LOAD, OPEN, SHORT, THRU, ISOLN, ES, ER, ET}
    ensures var t := Done(st, s).1;
      && Correct0(m, t[TERM_ED], t[TERM_ES], t[TERM_ER]) == m
      && Correct1(m, gamma, t[TERM_ES], t[TERM_ET], t[TERM_EX], enhanced) == m
  {
    assert Done(st, s).1 == [Zero, Zero, One, One, Zero];
    Units(m);
    Units(gamma);
    hide Complex.Mul;
    assert m.Sub(Zero) == m && One.Add(Zero) == One && One.Sub(Zero) == One;
    QuotIs(m, One, m);
  }

  // ---- whole runs ----

  /** One operator action, as it reaches one sweep point. A change of the sweep range clears every flag before
      the next collection: Clear(false). */
  datatype Op =
    | Collect(std: Standard, reading: Complex)
    | Finish
    | Clear(keepEnhanced: bool)
    | Toggle(flag: Flag)

  /** The readings behind the slots: the last one of each standard, and what the terms were computed with. */
  datatype Ledger = Ledger(last: map<Standard, Complex>, ed: Complex, ex: Complex)

  /** Flags, slots and ledger at one point. */
  datatype Point = Point(st: set<Flag>, s: Slots, l: Ledger)

  ghost predicate Switch(op: Op) { op.Toggle? ==> op.flag in {APPLY, INTERPOLATED, ENHANCED} }

  ghost function Act(p: Point, op: Op): Point {
    match op
    case Collect(std, reading) =>
      Point(CollectFlags(p.st, std), p.s[std.Slot() := reading], p.l.(last := p.l.last[std := reading]))
    case Finish =>
      var (st, s) := Done(p.st, p.s);
      Point(st, s, Ledger(p.l.last, if p.st !! {OPEN, SHORT} then p.l.ed else s[TERM_ED],
                          if THRU in p.st then s[TERM_EX] else p.l.ex))
    case Clear(keep) => p.(st := if keep then p.st * {ENHANCED} else {})
    case Toggle(flag) => p.(st := if flag in p.st then p.st - {flag} else p.st + {flag})
  }

  ghost function Acts(p: Point, ops: seq<Op>): Point {
    if ops == [] then p else Act(Acts(p, ops[..|ops| - 1]), ops[|ops| - 1])
  }

  /** A raw flag speaks for the last reading of its standard. */
  ghost predicate RawTrue(p: Point, std: Standard) {
    std.Raw() in p.st ==> std in p.l.last && p.s[std.Slot()] == p.l.last[std]
  }

  /** The reflection flags speak for the terms of the last open and short, computed with the directivity of
      that time. */
  ghost predicate ReflectionTrue(p: Point) {
    && (ES in p.st ==>
          && ER in p.st && Open in p.l.last && Short in p.l.last
          && p.s[TERM_ES] == EsTerm(p.l.last[Open], p.l.last[Short], p.l.ed)
          && p.s[TERM_ER] == ErTerm(p.l.last[Short], p.l.ed, p.s[TERM_ES], -1))
    && (ER in p.st && ES !in p.st ==>
          && p.s[TERM_ES] == Zero
          && ((Open in p.l.last && p.s[TERM_ER] == ErTerm(p.l.last[Open], p.l.ed, Zero, 1)) ||
              (Short in p.l.last && p.s[TERM_ER] == ErTerm(p.l.last[Short], p.l.ed, Zero, -1))))
  }

  ghost predicate TransmissionTrue(p: Point) {
    ET in p.st ==> Thru in p.l.last && p.s[TERM_ET] == EtTerm(p.l.last[Thru], p.l.ex)
  }

  /** No slot is claimed twice. */
  ghost predicate Exclusive(st: set<Flag>) {
    && !(OPEN in st && ES in st) && !(SHORT in st && ER in st) && !(THRU in st && ET in st)
    && !(OPEN in st && ER in st) && !(SHORT in st && ES in st)
  }

  ghost predicate Truthful(p: Point) {
    && Exclusive(p.st)
    && (forall std :: RawTrue(p, std))
    && ReflectionTrue(p) && TransmissionTrue(p)
  }

  lemma CollectTruthful(p: Point, std: Standard, reading: Complex)
    requires Truthful(p)
    ensures Truthful(Act(p, Collect(std, reading)))
  {
    var q := Act(p, Collect(std, reading));
    forall other ensures RawTrue(q, other) {
      assert RawTrue(p, other);
      assert other != std ==> other.Slot() != std.Slot() && other.Raw() != std.Raw();
    }
  }

  lemma FinishTruthful(p: Point)
    requires Truthful(p)
    ensures Truthful(Act(p, Finish))
  {
    hide Done, EsTerm, ErTerm, EtTerm;
    DoneFlags(p.st, p.s);
    DoneSlots(p.st, p.s);
    var q := Act(p, Finish);
    assert RawTrue(p, Load) && RawTrue(p, Open) && RawTrue(p, Short) && RawTrue(p, Thru) && RawTrue(p, Isoln);
    assert RawTrue(q, Load) && RawTrue(q, Isoln);
    forall std ensures RawTrue(q, std) {
      assert std.Raw() in {OPEN, SHORT, THRU} ==> std.Raw() !in q.st;
    }
  }

  lemma OtherTruthful(p: Point, op: Op)
    requires Truthful(p) && Switch(op) && (op.Clear? || op.Toggle?)
    ensures Truthful(Act(p, op))
  {
    var q := Act(p, op);
    forall std ensures RawTrue(q, std) { assert RawTrue(p, std); }
  }

  /** In every run the flags tell the truth about the slots. */
  lemma {:induction false} RunTruthful(p: Point, ops: seq<Op>)
    requires Truthful(p) && forall op :: op in ops ==> Switch(op)
    ensures Truthful(Acts(p, ops))
  {
    if ops != [] {
      var op, q := ops[|ops| - 1], Acts(p, ops[..|ops| - 1]);
      RunTruthful(p, ops[..|ops| - 1]);
      hide Truthful, Act;
      match op
      case Collect(std, reading) => CollectTruthful(q, std, reading);
      case Finish => FinishTruthful(q);
      case _ => OtherTruthful(q, op);
    }
  }

  // ---- when correction is applied, and to what ----

  /** Correction is on after a run: cal_done turns it on, a collection or a reset off, the menu switches it. */
  function Applied(start: bool, ops: seq<Op>): bool
  {
    if ops == [] then start
    else
      var before := Applied(start, ops[..|ops| - 1]);
      match ops[|ops| - 1]
      case Collect(_, _) => false
      case Finish => true
      case Clear(_) => false
      case Toggle(flag) => if flag == APPLY then !before else before
  }

  /** A slot still holds the raw reading of an open, short or thru. */
  ghost predicate HoldsRaw(st: set<Flag>) { OPEN in st || SHORT in st || THRU in st }

  /** One of them was collected, and neither cal_done nor a reset came after it. */
  ghost predicate RawSince(ops: seq<Op>) {
    exists i :: 0 <= i < |ops| && ops[i].Collect? && ops[i].std in {Open, Short, Thru} &&
                forall j :: i < j < |ops| ==> !ops[j].Finish? && !ops[j].Clear?
  }

  lemma FlagStep(q: Point, op: Op)
    requires Switch(op)
    ensures var t := Act(q, op).st;
      && (APPLY in t <==> if op.Collect? || op.Clear? then false else if op.Finish? then true
                          else (APPLY in q.st) != (op.flag == APPLY))
      && (HoldsRaw(t) <==> if op.Collect? && op.std in {Open, Short, Thru} then true
                           else if op.Finish? || op.Clear? then false else HoldsRaw(q.st))
  {
    hide Done;
    DoneFlags(q.st, q.s);
  }

  lemma RawStep(ops: seq<Op>, before: seq<Op>)
    requires ops != [] && before == ops[..|ops| - 1]
    ensures var op := ops[|ops| - 1];
      RawSince(ops) <==> if op.Collect? && op.std in {Open, Short, Thru} then true
                         else if op.Finish? || op.Clear? then false else RawSince(before)
  {
    var n := |before|;
    var op := ops[n];
    if op.Collect? && op.std in {Open, Short, Thru} {
      assert ops[n].Collect?;
    } else if !op.Finish? && !op.Clear? {
      if RawSince(before) {
        var i :| 0 <= i < n && before[i].Collect? && before[i].std in {Open, Short, Thru} &&
                 forall j :: i < j < n ==> !before[j].Finish? && !before[j].Clear?;
        assert ops[i].Collect?;
      }
      if RawSince(ops) {
        var i :| 0 <= i < |ops| && ops[i].Collect? && ops[i].std in {Open, Short, Thru} &&
                 forall j :: i < j < |ops| ==> !ops[j].Finish? && !ops[j].Clear?;
        assert before[i].Collect?;
      }
    }
  }

  /** From a start without raw slots, both are told by the operations alone. So correction treats a raw reading as an
      error term exactly when the menu has switched it on since that reading was collected. */
  lemma {:induction false} AppliedIff(p: Point, ops: seq<Op>)
    requires !HoldsRaw(p.st) && forall op :: op in ops ==> Switch(op)
    ensures APPLY in Acts(p, ops).st <==> Applied(APPLY in p.st, ops)
    ensures HoldsRaw(Acts(p, ops).st) <==> RawSince(ops)
  {
    hide Act, HoldsRaw, RawSince;
    if ops == [] {
      NothingSince(ops);
    } else {
      var before := ops[..|ops| - 1];
      AppliedIff(p, before);
      FlagStep(Acts(p, before), ops[|ops| - 1]);
      RawStep(ops, before);
    }
  }

  lemma NothingSince(ops: seq<Op>)
    requires ops == []
    ensures !RawSince(ops)
  {}

  /** Without the menu switch correction never meets a raw reading. */
  lemma {:induction false} TermsOnly(p: Point, ops: seq<Op>)
    requires !HoldsRaw(p.st) && forall op :: op in ops ==> Switch(op) && op != Toggle(APPLY)
    ensures APPLY in Acts(p, ops).st ==> !HoldsRaw(Acts(p, ops).st)
  {
    hide Act, HoldsRaw;
    if ops != [] {
      var before := ops[..|ops| - 1];
      TermsOnly(p, before);
      assert ops[|ops| - 1] in ops;
      FlagStep(Acts(p, before), ops[|ops| - 1]);
    }
  }

  /** With it, it can: an open collected, and correction switched on before cal_done. */
  lemma SwitchedTooEarly(p: Point, reading: Complex)
    ensures var q := Acts(p, [Collect(Open, reading), Toggle(APPLY)]);
      APPLY in q.st && OPEN in q.st && q.s[TERM_ES] == reading
  {
    var ops := [Collect(Open, reading), Toggle(APPLY)];
    assert ops[..1] == [Collect(Open, reading)] && ops[..1][..0] == [];
    assert Acts(p, ops[..1]) == Act(p, Collect(Open, reading));
  }

  // ---- ideal standards on a fixed error box ----

  function Ideal(box: Box, std: Standard): Complex {
    match std
    case Load => box.Reflect(Zero)
    case Open => box.Reflect(One)
    case Short => box.Reflect(Zero.Sub(One))
    case Thru => box.Transmit(Zero, One)
    case Isoln => box.Transmit(Zero, Zero)
  }

  ghost predicate OnBox(op: Op, box: Box) { op.Collect? ==> op.reading == Ideal(box, op.std) }

  ghost predicate LedgerOnBox(l: Ledger, box: Box) {
    && (forall std :: std in l.last ==> l.last[std] == Ideal(box, std))
    && (l.ed == box.ed || l.ed == Zero) && (l.ex == box.ex || l.ex == Zero)
  }

  lemma {:induction false} RunOnBox(p: Point, ops: seq<Op>, box: Box)
    requires Truthful(p) && LedgerOnBox(p.l, box) && box.Regular()
    requires forall op :: op in ops ==> Switch(op) && OnBox(op, box)
    ensures LedgerOnBox(Acts(p, ops).l, box)
  {
    if ops != [] {
      var op, q := ops[|ops| - 1], Acts(p, ops[..|ops| - 1]);
      RunOnBox(p, ops[..|ops| - 1], box);
      RunTruthful(p, ops[..|ops| - 1]);
      LedgerStep(q, op, box);
    }
  }

  lemma LedgerStep(q: Point, op: Op, box: Box)
    requires Truthful(q) && LedgerOnBox(q.l, box) && box.Regular() && Switch(op) && OnBox(op, box)
    ensures LedgerOnBox(Act(q, op).l, box)
  {
    if op == Finish {
      hide Done, EsTerm, ErTerm, EtTerm, Box.Reflect, Box.Transmit, ReflectionTrue, TransmissionTrue, Exclusive;
      DoneSlots(q.st, q.s);
      TermsRecovered(box);
      TrackingRecovered(box);
      assert RawTrue(q, Load) && RawTrue(q, Isoln);
    }
  }

  /** In every run on one box a set LOAD or ISOLN flag means the true directivity or isolation, and the source
      match is the true one exactly when it was computed with the true directivity; then the tracking is too. */
  lemma RunRecovers(p: Point, ops: seq<Op>, box: Box)
    requires Truthful(p) && LedgerOnBox(p.l, box) && box.Regular()
    requires forall op :: op in ops ==> Switch(op) && OnBox(op, box)
    ensures var q := Acts(p, ops);
      && (LOAD in q.st ==> q.s[TERM_ED] == box.ed)
      && (ISOLN in q.st ==> q.s[TERM_EX] == box.ex)
      && (ES in q.st ==> (q.s[TERM_ES] == box.es <==> q.l.ed == box.ed))
      && (ES in q.st && q.l.ed == box.ed ==> q.s[TERM_ER] == box.er)
      && (ET in q.st && q.l.ex == box.ex ==> q.s[TERM_ET].Mul(box.et) == One)
  {
    RunTruthful(p, ops);
    RunOnBox(p, ops, box);
    var q := Acts(p, ops);
    hide Acts;
    TermsRecovered(box);
    TrackingRecovered(box);
    EsIff(box, q.l.ed);
    assert RawTrue(q, Load) && RawTrue(q, Isoln);
  }

  lemma CollectFlag(q: Point, op: Op, std: Standard)
    requires op.Collect? && q.st !! {ES, ER, ET}
    ensures Act(q, op).st !! {ES, ER, ET}
    ensures std.Raw() in Act(q, op).st <==> op.std == std || std.Raw() in q.st
  {}

  /** Collections alone set raw flags and nothing else. */
  lemma {:induction false} OnlyCollected(p: Point, ops: seq<Op>, std: Standard)
    requires p.st !! {LOAD, OPEN, SHORT, THRU, ISOLN, ES, ER, ET}
    requires forall op :: op in ops ==> op.Collect?
    ensures var q := Acts(p, ops);
      && q.st !! {ES, ER, ET}
      && (std.Raw() in q.st <==> exists op :: op in ops && op.std == std)
  {
    hide Act;
    if ops != [] {
      var last, init := ops[|ops| - 1], ops[..|ops| - 1];
      OnlyCollected(p, init, std);
      CollectFlag(Acts(p, init), last, std);
      assert ops == init + [last];
      if last.std == std { assert last in ops; }
    }
  }

  /** The five ideal standards in any order, each at least once, then cal_done: the slots hold exactly the box,
      and correction gives back every reflection and transmission. */
  lemma FullCalibration(p: Point, ops: seq<Op>, box: Box, gamma: Complex, s21: Complex)
    requires Truthful(p) && LedgerOnBox(p.l, box) && box.Regular()
    requires p.st !! {LOAD, OPEN, SHORT, THRU, ISOLN, ES, ER, ET}
    requires forall op :: op in ops ==> op.Collect? && OnBox(op, box)
    requires forall std: Standard :: Collect(std, Ideal(box, std)) in ops
    requires One.Sub(box.es.Mul(gamma)) != Zero
    ensures var t := Act(Acts(p, ops), Finish).s;
      && t[TERM_ED] == box.ed && t[TERM_ES] == box.es && t[TERM_ER] == box.er && t[TERM_EX] == box.ex
      && t[TERM_ET].Mul(box.et) == One
      && Correct0(box.Reflect(gamma), t[TERM_ED], t[TERM_ES], t[TERM_ER]) == gamma
      && Correct1(box.Transmit(gamma, s21), gamma, t[TERM_ES], t[TERM_ET], t[TERM_EX], true) == s21
  {
    var q := Acts(p, ops);
    AllCollected(p, ops, box);
    hide Acts, Done, Box.Reflect, Box.Transmit, Correct0, Correct1, Truthful, LedgerOnBox, OnBox;
    FinishAll(q.st, q.s, box);
    ReflectionCorrected(box, gamma);
    TransmissionCorrected(box, gamma, s21, Done(q.st, q.s).1[TERM_ET]);
  }

  lemma AllCollected(p: Point, ops: seq<Op>, box: Box)
    requires Truthful(p) && LedgerOnBox(p.l, box) && box.Regular()
    requires p.st !! {LOAD, OPEN, SHORT, THRU, ISOLN, ES, ER, ET}
    requires forall op :: op in ops ==> op.Collect? && OnBox(op, box)
    requires forall std: Standard :: Collect(std, Ideal(box, std)) in ops
    ensures var q := Acts(p, ops);
      && {LOAD, OPEN, SHORT, THRU, ISOLN} <= q.st
      && q.s == [Ideal(box, Load), Ideal(box, Open), Ideal(box, Short), Ideal(box, Thru), Ideal(box, Isoln)]
  {
    hide Acts, Ideal, OnBox, Truthful, LedgerOnBox;
    OneCollected(p, ops, box, Load);
    OneCollected(p, ops, box, Open);
    OneCollected(p, ops, box, Short);
    OneCollected(p, ops, box, Thru);
    OneCollected(p, ops, box, Isoln);
  }

  lemma OneCollected(p: Point, ops: seq<Op>, box: Box, std: Standard)
    requires Truthful(p) && LedgerOnBox(p.l, box) && box.Regular()
    requires p.st !! {LOAD, OPEN, SHORT, THRU, ISOLN, ES, ER, ET}
    requires forall op :: op in ops ==> op.Collect? && OnBox(op, box)
    requires Collect(std, Ideal(box, std)) in ops
    ensures var q := Acts(p, ops); std.Raw() in q.st && q.s[std.Slot()] == Ideal(box, std)
  {
    RunTruthful(p, ops);
    RunOnBox(p, ops, box);
    OnlyCollected(p, ops, std);
    assert RawTrue(Acts(p, ops), std);
  }

  lemma FinishAll(st: set<Flag>, s: Slots, box: Box)
    requires box.Regular() && {LOAD, OPEN, SHORT, THRU, ISOLN} <= st
    requires s == [Ideal(box, Load), Ideal(box, Open), Ideal(box, Short), Ideal(box, Thru), Ideal(box, Isoln)]
    ensures var t := Done(st, s).1;
      && t[TERM_ED] == box.ed && t[TERM_ES] == box.es && t[TERM_ER] == box.er && t[TERM_EX] == box.ex
      && t[TERM_ET].Mul(box.et) == One
  {
    hide EsTerm, ErTerm, EtTerm, Box.Reflect, Box.Transmit, Complex.Mul, Done;
    DoneSlots(st, s);
    TermsRecovered(box);
    TrackingRecovered(box);
  }

  /** A load measured only after the terms were computed sets its flag but repairs nothing: with LOAD, ES and
      ER all set, the source match is the true one exactly when the directivity was zero to begin with, and
      another cal_done does not change that. */
  lemma LateLoadIff(p: Point, box: Box)
    requires Truthful(p) && LedgerOnBox(p.l, box) && box.Regular()
    requires OPEN in p.st && SHORT in p.st && LOAD !in p.st
    ensures var q := Act(Act(p, Finish), Collect(Load, box.Reflect(Zero)));
      && {LOAD, ES, ER} <= q.st && q.s[TERM_ED] == box.ed
      && (q.s[TERM_ES] == box.es <==> box.ed == Zero)
      && Act(q, Finish).s[TERM_ES] == q.s[TERM_ES]
  {
    hide EsTerm, ErTerm, EtTerm, Box.Reflect, Box.Transmit, Complex.Mul, Done, Quot;
    TermsRecovered(box);
    EsIff(box, Zero);
    assert RawTrue(p, Open) && RawTrue(p, Short);
    DoneFlags(p.st, p.s);
    DoneSlots(p.st, p.s);
    var q := Act(Act(p, Finish), Collect(Load, box.Reflect(Zero)));
    DoneFlags(q.st, q.s);
    DoneSlots(q.st, q.s);
  }

  // ---- the instrument ----

  const POINTS_MAX := 401

  class Instrument {
    const calData: array2<Complex>
    var status: set<Flag>
    var frequency0: uint32
    var frequency1: uint32
    var sweepPoints: nat
    var calFrequency0: uint32
    var calFrequency1: uint32
    var calSweepPoints: nat

    ghost predicate Valid()
      reads this
    {
      calData.Length0 == TERMS && calData.Length1 == POINTS_MAX && 2 <= sweepPoints <= POINTS_MAX
    }

    /** The five slots at a sweep point. */
    ghost function At(i: nat): Slots
      requires Valid() && i < POINTS_MAX
      reads this, calData
    {
      [calData[0, i], calData[1, i], calData[2, i], calData[3, i], calData[4, i]]
    }

    constructor (points: nat)
      requires 2 <= points <= POINTS_MAX
      ensures Valid() && status == {} && sweepPoints == points && fresh(calData)
    {
      calData := new Complex[TERMS, POINTS_MAX]((_, _) => Zero);
      status := {};
      sweepPoints, calSweepPoints := points, points;
      frequency0, frequency1, calFrequency0, calFrequency1 := 50_000, 900_000_000, 50_000, 900_000_000;
    }

    predicate NeedInterpolate()
      reads this
    {
      frequency0 != calFrequency0 || frequency1 != calFrequency1 || sweepPoints != calSweepPoints
    }

    method EtermSet(term: nat, v: Complex)
      requires Valid() && term < TERMS
      modifies calData
      ensures forall i :: 0 <= i < sweepPoints ==> At(i) == old(At(i))[term := v]
      ensures forall i :: sweepPoints <= i < POINTS_MAX ==> At(i) == old(At(i))
    {
      var i := 0;
      while i < sweepPoints
        invariant 0 <= i <= sweepPoints
        invariant forall t, k :: 0 <= t < TERMS && 0 <= k < POINTS_MAX ==>
                    calData[t, k] == if t == term && k < i then v else old(calData[t, k])
      {
        calData[term, i] := v;
        i := i + 1;
      }
    }

    /** The whole row is copied, in range or not. */
    method EtermCopy(dst: nat, src: nat)
      requires Valid() && dst < TERMS && src < TERMS
      modifies calData
      ensures forall i :: 0 <= i < POINTS_MAX ==> At(i) == old(At(i))[dst := old(At(i))[src]]
    {
      forall k | 0 <= k < POINTS_MAX {
        calData[dst, k] := calData[src, k];
      }
    }

    method EtermCalcEs()
      requires Valid()
      modifies this`status, calData
      ensures Valid()
      ensures forall i :: 0 <= i < sweepPoints ==> At(i) == CalcEs(old(At(i)))
      ensures forall i :: sweepPoints <= i < POINTS_MAX ==> At(i) == old(At(i))
      ensures status == old(status) - {OPEN} + {ES}
    {
      hide EsTerm;
      var i := 0;
      while i < sweepPoints
        invariant 0 <= i <= sweepPoints && status == old(status)
        invariant forall t, k :: 0 <= t < TERMS && 0 <= k < POINTS_MAX ==>
                    calData[t, k] == if t == TERM_ES && k < i then CalcEs(old(At(k)))[TERM_ES] else old(calData[t, k])
      {
        calData[TERM_ES, i] := EsTerm(calData[1, i], calData[2, i], calData[TERM_ED, i]);
        i := i + 1;
      }
      status := status - {OPEN};
      status := status + {ES};
    }

    method EtermCalcEr(sign: int)
      requires Valid()
      modifies this`status, calData
      ensures Valid()
      ensures forall i :: 0 <= i < sweepPoints ==> At(i) == CalcEr(old(At(i)), sign)
      ensures forall i :: sweepPoints <= i < POINTS_MAX ==> At(i) == old(At(i))
      ensures status == old(status) - {SHORT} + {ER}
    {
      hide ErTerm;
      var i := 0;
      while i < sweepPoints
        invariant 0 <= i <= sweepPoints && status == old(status)
        invariant forall t, k :: 0 <= t < TERMS && 0 <= k < POINTS_MAX ==>
                    calData[t, k] ==
                    if t == TERM_ER && k < i then CalcEr(old(At(k)), sign)[TERM_ER] else old(calData[t, k])
      {
        calData[TERM_ER, i] := ErTerm(calData[2, i], calData[TERM_ED, i], calData[TERM_ES, i], sign);
        i := i + 1;
      }
      status := status - {SHORT};
      status := status + {ER};
    }

    method EtermCalcEt()
      requires Valid()
      modifies this`status, calData
      ensures Valid()
      ensures forall i :: 0 <= i < sweepPoints ==> At(i) == CalcEt(old(At(i)))
      ensures forall i :: sweepPoints <= i < POINTS_MAX ==> At(i) == old(At(i))
      ensures status == old(status) - {THRU} + {ET}
    {
      hide EtTerm;
      var i := 0;
      while i < sweepPoints
        invariant 0 <= i <= sweepPoints && status == old(status)
        invariant forall t, k :: 0 <= t < TERMS && 0 <= k < POINTS_MAX ==>
                    calData[t, k] == if t == TERM_ET && k < i then CalcEt(old(At(k)))[TERM_ET] else old(calData[t, k])
      {
        calData[TERM_ET, i] := EtTerm(calData[3, i], calData[TERM_EX, i]);
        i := i + 1;
      }
      status := status - {THRU};
      status := status + {ET};
    }

    /** Store a measured sweep as a standard. A changed range forgets every flag first. */
    method CalCollect(std: Standard, readings: seq<Complex>)
      requires Valid() && |readings| == POINTS_MAX
      modifies this, calData
      ensures Valid() && !NeedInterpolate()
      ensures sweepPoints == old(sweepPoints) && frequency0 == old(frequency0) && frequency1 == old(frequency1)
      ensures status == CollectFlags(if old(NeedInterpolate()) then {} else old(status), std)
      ensures forall i :: 0 <= i < POINTS_MAX ==> At(i) == old(At(i))[std.Slot() := readings[i]]
    {
      if NeedInterpolate() {
        status := {};
        calFrequency0 := frequency0;
        calFrequency1 := frequency1;
        calSweepPoints := sweepPoints;
      }
      status := status - std.Clears();
      status := status + {std.Raw()};
      forall k | 0 <= k < POINTS_MAX {
        calData[std.Slot(), k] := readings[k];
      }
    }

    /** First step of cal_done: slots no standard filled. */
    method FillLow()
      requires Valid()
      modifies calData
      ensures forall i :: 0 <= i < sweepPoints ==> At(i) == DefaultLow(status, old(At(i)))
    {
      if LOAD !in status { EtermSet(TERM_ED, Zero); }
      if ISOLN !in status { EtermSet(TERM_EX, Zero); }
    }

    /** Second step: the reflection terms, over their own raw standards. */
    method ReflectionTerms()
      requires Valid()
      modifies this`status, calData
      ensures Valid()
      ensures forall i :: 0 <= i < sweepPoints ==>
                var r := DoneReflection(old(status), old(At(i))); status == r.0 && At(i) == r.1
    {
      hide EsTerm, ErTerm;
      if SHORT in status && OPEN in status {
        EtermCalcEs();
        EtermCalcEr(-1);
        assert status == old(status) - {OPEN, SHORT} + {ES, ER};
      } else if OPEN in status {
        EtermCopy(2, 1);
        status := status - {OPEN};
        EtermSet(TERM_ES, Zero);
        EtermCalcEr(1);
        assert status == old(status) - {OPEN, SHORT} + {ER};
      } else if SHORT in status {
        EtermSet(TERM_ES, Zero);
        EtermCalcEr(-1);
      }
    }

    /** Last step: terms nothing was measured for. */
    method FillHigh()
      requires Valid()
      modifies calData
      ensures forall i :: 0 <= i < sweepPoints ==> At(i) == DefaultHigh(status, old(At(i)))
    {
      if ET !in status { EtermSet(TERM_ET, One); }
      if ER !in status { EtermSet(TERM_ER, One); }
      if ES !in status { EtermSet(TERM_ES, Zero); }
    }

    /** Turn the collected standards into terms, in place, point by point. */
    method CalDone()
      requires Valid()
      modifies this`status, calData
      ensures Valid()
      ensures forall i :: 0 <= i < sweepPoints ==>
                var r := Done(old(status), old(At(i))); status == r.0 && At(i) == r.1
    {
      hide CalcEt, DefaultLow, DefaultHigh, DoneReflection;
      FillLow();
      ReflectionTerms();
      if THRU in status { EtermCalcEt(); }
      FillHigh();
      status := status + {APPLY};
    }

    /** The reset entries of menu and shell: the menu keeps the enhanced-response choice. */
    method Reset(keepEnhanced: bool)
      modifies this`status
      ensures status == if keepEnhanced then old(status) * {ENHANCED} else {}
    {
      status := if keepEnhanced then status * {ENHANCED} else {};
    }

    method Flip(flag: Flag)
      modifies this`status
      ensures status == if flag in old(status) then old(status) - {flag} else old(status) + {flag}
    {
      status := if flag in status then status - {flag} else status + {flag};
    }

    /** A whole session at the calibrated range. Every sweep point goes through the run of its own readings. */
    method Perform(actions: seq<Action>)
      requires Valid() && !NeedInterpolate()
      requires forall a :: a in actions && a.DoCollect? ==> |a.readings| == POINTS_MAX
      modifies this, calData
      ensures Valid() && !NeedInterpolate() && sweepPoints == old(sweepPoints)
      ensures forall i, l :: 0 <= i < sweepPoints ==>
                var r := Acts(Point(old(status), old(At(i)), l), OpsAt(actions, i)); status == r.st && At(i) == r.s
    {
      hide Done, CollectFlags;
      var n := 0;
      while n < |actions|
        invariant 0 <= n <= |actions|
        invariant Valid() && !NeedInterpolate() && sweepPoints == old(sweepPoints)
        invariant forall i, l :: 0 <= i < sweepPoints ==>
                    var r := Acts(Point(old(status), old(At(i)), l), OpsAt(actions[..n], i));
                    status == r.st && At(i) == r.s
      {
        var a := actions[n];
        forall i | 0 <= i < sweepPoints {
          OpsAtStep(actions, n, i);
        }
        match a {
          case DoCollect(std, readings) => CalCollect(std, readings);
          case DoFinish => CalDone();
          case DoClear(keep) => Reset(keep);
          case DoToggle(flag) => Flip(flag);
        }
        n := n + 1;
      }
      assert actions[..n] == actions;
    }

    /** The five terms for frequency f: those of point idx, or, for a negative idx, looked up by frequency. Past
        a band change in the last interval of a full-length sweep there is no second point to read. */
    method CalInterpolate(cfg: Config, idx: int, f: nat) returns (data: seq<Complex>)
      requires Valid() && idx < POINTS_MAX
      requires calFrequency0 <= calFrequency1 <= cfg.Limit(LAST_BAND) && 2 <= calSweepPoints <= POINTS_MAX
      requires idx < 0 ==>
        !(calSweepPoints == POINTS_MAX && PastTheEnd(cfg, Range(calFrequency0, calFrequency1, calSweepPoints), f))
      ensures |data| == TERMS
      ensures var s :=
                if idx >= 0 then Copy(idx) else Select(cfg, Range(calFrequency0, calFrequency1, calSweepPoints), f);
              s.idx + (if s.Blend? then 1 else 0) < POINTS_MAX &&
              forall t :: 0 <= t < TERMS ==> data[t] == Value(Row(t), s)
    {
      hide Select, PastTheEnd, Config.Limit, Complex.Add, Complex.Sub, Complex.Scale;
      var r := Range(calFrequency0, calFrequency1, calSweepPoints);
      if idx < 0 {
        MeasuredIff(cfg, r, f);
        SelectedWithin(cfg, r, f);
      }
      var s := if idx >= 0 then Copy(idx) else Select(cfg, r, f);
      data := [];
      for t := 0 to TERMS
        invariant |data| == t && forall k :: 0 <= k < t ==> data[k] == Value(Row(k), s)
      {
        var v := match s
          case Copy(i) => calData[t, i]
          case Blend(i, k) => calData[t, i].Add(calData[t, i + 1].Sub(calData[t, i]).Scale(k));
        data := data + [v];
      }
    }

    /** One stored term over the sweep. */
    ghost function Row(t: nat): (row: seq<Complex>)
      requires Valid() && t < TERMS
      reads this, calData
      ensures |row| == POINTS_MAX
    {
      seq(POINTS_MAX, i requires 0 <= i < POINTS_MAX reads this, calData requires Valid() => calData[t, i])
    }

    /** Correct one measured point: reflection first, then transmission with the corrected reflection. */
    method ApplyErrorTerms(m0: Complex, m1: Complex, c: Slots) returns (s11: Complex, s21: Complex)
      ensures s11 == Correct0(m0, c[TERM_ED], c[TERM_ES], c[TERM_ER])
      ensures s21 == Correct1(m1, s11, c[TERM_ES], c[TERM_ET], c[TERM_EX], ENHANCED in status)
    {
      var r := m0.Sub(c[TERM_ED]);
      var e := c[TERM_ER].Add(r.Mul(c[TERM_ES]));
      s11 := Quot(r, e);
      s21 := m1.Sub(c[TERM_EX]).Mul(c[TERM_ET]);
      if ENHANCED in status {
        s21 := One.Sub(c[TERM_ES].Mul(s11)).Mul(s21);
      }
    }
  }

  /** Even where the second point was not measured, the next column is at most one past the calibrated ones. */
  lemma SelectedWithin(cfg: Config, r: Range, f: nat)
    requires r.Valid() && r.last <= cfg.Limit(LAST_BAND)
    ensures var s := Select(cfg, r, f); s.idx + (if s.Blend? then 1 else 0) <= r.points
  {
    hide Config.Level, Index, Grid;
  }

  /** An operator action over the whole sweep, and as one point sees it. */
  datatype Action =
    | DoCollect(std: Standard, readings: seq<Complex>)
    | DoFinish
    | DoClear(keep: bool)
    | DoToggle(flag: Flag)

  ghost function OpAt(a: Action, i: nat): Op
    requires a.DoCollect? ==> i < |a.readings|
  {
    match a
    case DoCollect(std, readings) => Collect(std, readings[i])
    case DoFinish => Finish
    case DoClear(keep) => Clear(keep)
    case DoToggle(flag) => Toggle(flag)
  }

  ghost function OpsAt(actions: seq<Action>, i: nat): (ops: seq<Op>)
    requires forall a :: a in actions && a.DoCollect? ==> i < |a.readings|
    ensures |ops| == |actions|
  {
    seq(|actions|, n requires 0 <= n < |actions| => OpAt(actions[n], i))
  }

  lemma OpsAtStep(actions: seq<Action>, n: nat, i: nat)
    requires n < |actions| && forall a :: a in actions && a.DoCollect? ==> i < |a.readings|
    ensures forall p: Point :: Acts(p, OpsAt(actions[..n + 1], i)) ==
              Act(Acts(p, OpsAt(actions[..n], i)), OpAt(actions[n], i))
  {
    var ops := OpsAt(actions[..n + 1], i);
    assert ops[..|ops| - 1] == OpsAt(actions[..n], i);
  }
}
