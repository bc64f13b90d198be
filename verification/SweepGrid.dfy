/** The frequency list of a sweep (main.c): the error-accumulating table, the closed form, and the point
    they both approximate. */
module SweepGrid {
  import opened Arithmetic
  import opened Fraction

  /** Point idx of n + 1 over span, rounded to the nearest hertz, halves upwards (for odd n, never a half). */
  function Rounded(span: nat, idx: nat, n: nat): nat
    requires 1 <= n
  {
    Quotient(Times(span, idx) + n / 2, n)
  }

  /** The frequency of a sweep point. */
  function Grid(start: nat, stop: nat, points: nat, idx: nat): nat
    requires start <= stop && 2 <= points
  {
    start + Rounded(stop - start, idx, points - 1)
  }

  lemma RoundedIs(span: nat, idx: nat, n: nat, r: nat)
    requires 1 <= n && r * n <= span * idx + n / 2 < r * n + n
    ensures Rounded(span, idx, n) == r
  {
    QuotientIs(span * idx + n / 2, n, r);
  }

  lemma RoundedBounds(span: nat, idx: nat, n: nat)
    requires 1 <= n
    ensures var r := Rounded(span, idx, n); r * n <= span * idx + n / 2 < r * n + n
  {}

  /** Within half a hertz of the ideal point start + span * idx / n. */
  lemma NearestHertz(start: nat, stop: nat, points: nat, idx: nat)
    requires start <= stop && 2 <= points
    ensures var n, g := points - 1, Grid(start, stop, points, idx);
            -(n as int) <= 2 * ((g - start) * n - (stop - start) * idx) <= n
  {
    RoundedBounds(stop - start, idx, points - 1);
  }

  /** The ends are exact. */
  lemma Ends(start: nat, stop: nat, points: nat)
    requires start <= stop && 2 <= points
    ensures Grid(start, stop, points, 0) == start && Grid(start, stop, points, points - 1) == stop
  {
    var n := points - 1;
    RoundedIs(stop - start, 0, n, 0);
    RoundedIs(stop - start, n, n, stop - start);
  }

  lemma RoundedMono(span: nat, i: nat, j: nat, n: nat)
    requires 1 <= n && i <= j
    ensures Rounded(span, i, n) <= Rounded(span, j, n)
  {
    hide Rounded;
    MulMono(i, j, span);
    RoundedBounds(span, i, n);
    RoundedBounds(span, j, n);
    var a, b := Rounded(span, i, n), Rounded(span, j, n);
    if b + 1 <= a { MulMono(b + 1, a, n); }
  }

  /** The list never decreases and stays within the sweep. */
  lemma Nondecreasing(start: nat, stop: nat, points: nat, i: nat, j: nat)
    requires start <= stop && 2 <= points && i <= j
    ensures Grid(start, stop, points, i) <= Grid(start, stop, points, j)
    ensures j < points ==> start <= Grid(start, stop, points, i) && Grid(start, stop, points, j) <= stop
  {
    RoundedMono(stop - start, i, j, points - 1);
    if j < points {
      RoundedMono(stop - start, j, points - 1, points - 1);
      Ends(start, stop, points);
    }
  }

  lemma StepUp(span: nat, i: nat, n: nat)
    requires 1 <= n <= span
    ensures Rounded(span, i, n) < Rounded(span, i + 1, n)
  {
    RoundedBounds(span, i, n);
    RoundedBounds(span, i + 1, n);
    var a, b := Rounded(span, i, n), Rounded(span, i + 1, n);
    hide Rounded;
    assert span * (i + 1) == span * i + span;
    if b <= a { MulMono(b, a, n); }
  }

  lemma {:induction false} Climb(start: nat, stop: nat, points: nat, i: nat)
    requires start <= stop && 2 <= points && i < points
    requires forall j :: 0 <= j < points - 1 ==> Grid(start, stop, points, j) < Grid(start, stop, points, j + 1)
    ensures start + i <= Grid(start, stop, points, i)
  {
    if i > 0 {
      hide Grid;
      Climb(start, stop, points, i - 1);
    }
  }

  /** No two points of a sweep share a frequency exactly when the span has a hertz for each step. */
  lemma DistinctIff(start: nat, stop: nat, points: nat)
    requires start <= stop && 2 <= points
    ensures (forall j :: 0 <= j < points - 1 ==> Grid(start, stop, points, j) < Grid(start, stop, points, j + 1))
            <==> points - 1 <= stop - start
  {
    if points - 1 <= stop - start {
      forall j | 0 <= j < points - 1 ensures Grid(start, stop, points, j) < Grid(start, stop, points, j + 1) {
        StepUp(stop - start, j, points - 1);
      }
    } else if forall j :: 0 <= j < points - 1 ==> Grid(start, stop, points, j) < Grid(start, stop, points, j + 1) {
      Climb(start, stop, points, points - 1);
      Ends(start, stop, points);
    }
  }

  // ---- the closed form ----

  lemma ClosedFormBounds(span: nat, idx: nat, n: nat, delta: nat, error: nat, q: nat)
    requires span == delta * n + error && q * n <= n / 2 + error * idx < q * n + n
    ensures (delta * idx + q) * n <= span * idx + n / 2 < (delta * idx + q) * n + n
  {
    assert (delta * n + error) * idx == (delta * idx) * n + error * idx;
    assert (delta * idx + q) * n == (delta * idx) * n + q * n;
  }

  /** start + delta * idx + (n/2 + error * idx) / n, with span = delta * n + error. */
  lemma ClosedForm(span: nat, idx: nat, n: nat)
    requires 1 <= n
    ensures Times(Quotient(span, n), idx) + Quotient(n / 2 + Times(Remainder(span, n), idx), n) == Rounded(span, idx, n)
  {
    hide Quotient, Remainder, Rounded;
    var delta, error := Quotient(span, n), Remainder(span, n);
    var q := Quotient(n / 2 + Times(error, idx), n);
    ClosedFormBounds(span, idx, n, delta, error, q);
    RoundedIs(span, idx, n, delta * idx + q);
  }

  /** The statics behind getFrequency. */
  class Sweep {
    var start: uint32
    var delta: uint32
    var error: uint32
    var points: nat

    ghost predicate Covers(from: nat, to: nat, count: nat)
      reads this
    {
      && from <= to < TWO_32 && 2 <= count <= 0xFFFF
      && start == from && points == count - 1
      && delta == Quotient(to - from, count - 1) && error == Remainder(to - from, count - 1)
    }

    method SetFrequencies(from: uint32, to: uint32, count: nat)
      requires from <= to && 2 <= count <= 0xFFFF
      modifies this
      ensures Covers(from, to, count)
    {
      var span: uint32 := to - from;
      start := from;
      points := count - 1;
      delta := Quotient(span, points);
      error := Remainder(span, points);
    }

    /** Every intermediate value stays within 32 bits. */
    method GetFrequency(idx: nat, ghost to: nat) returns (f: uint32)
      requires Covers(start, to, points + 1) && idx <= points
      ensures f == Grid(start, to, points + 1, idx)
    {
      hide Quotient, Remainder, Times;
      ClosedForm(to - start, idx, points);
      Nondecreasing(start, to, points + 1, idx, idx);
      Products(to - start, idx, points);
      var steps: uint32 := Times(delta, idx);
      var spill: uint32 := Times(error, idx);
      var sum: uint32 := points / 2 + spill;
      var extra: uint32 := Quotient(sum, points);
      var base: uint32 := start + steps;
      f := base + extra;
    }
  }

  lemma Products(span: nat, idx: nat, n: nat)
    requires 1 <= n < 0xFFFF && idx <= n && span < TWO_32
    ensures Times(Quotient(span, n), idx) <= span
    ensures n / 2 + Times(Remainder(span, n), idx) < TWO_32
  {
    MulMono(idx, n, Quotient(span, n));
    MulMono(idx, n, Remainder(span, n));
    MulMono(Remainder(span, n), n, n);
    MulMono(n, 0xFFFE, n);
  }

  // ---- the table ----

  /** The accumulating loop's running error at point i. */
  function Carried(span: nat, i: nat, n: nat): (df: nat)
    requires 1 <= n
    ensures df < n
  {
    RoundedBounds(span, i, n);
    span * i + n / 2 - Rounded(span, i, n) * n
  }

  lemma TableBounds(span: nat, i: nat, n: nat, delta: nat, error: nat, r: nat, carry: nat)
    requires span == delta * n + error && error < n && r * n <= span * i + n / 2 < r * n + n
    requires carry == if span * i + n / 2 - r * n + error >= n then 1 else 0
    ensures (r + delta + carry) * n <= span * (i + 1) + n / 2 < (r + delta + carry) * n + n
    ensures span * i + n / 2 - r * n + error - carry * n == span * (i + 1) + n / 2 - (r + delta + carry) * n
  {
    assert span * (i + 1) == span * i + delta * n + error;
    assert (r + delta + carry) * n == r * n + delta * n + carry * n;
  }

  /** One pass: add the step, and one more when the error overflows. */
  lemma TableStep(span: nat, i: nat, n: nat)
    requires 1 <= n
    ensures var delta, error, df := Quotient(span, n), Remainder(span, n), Carried(span, i, n);
            var carry := if df + error >= n then 1 else 0;
            Rounded(span, i + 1, n) == Rounded(span, i, n) + delta + carry &&
            Carried(span, i + 1, n) == if df + error >= n then df + error - n else df + error
  {
    RoundedBounds(span, i, n);
    var r := Rounded(span, i, n);
    hide Rounded, Quotient, Remainder;
    var delta, error := Quotient(span, n), Remainder(span, n);
    var carry := if Carried(span, i, n) + error >= n then 1 else 0;
    TableBounds(span, i, n, delta, error, r, carry);
    RoundedIs(span, i + 1, n, r + delta + carry);
  }

  lemma TableStart(span: nat, n: nat)
    requires 1 <= n
    ensures Rounded(span, 0, n) == 0 && Carried(span, 0, n) == n / 2
  {
    RoundedIs(span, 0, n, 0);
  }

  /** The same step on the frequency itself, from one table entry to the next. */
  lemma EntryStep(start: nat, stop: nat, points: nat, i: nat)
    requires start <= stop && 2 <= points && i < points
    ensures var n, span := points - 1, stop - start;
            var overflow := Carried(span, i, n) + Remainder(span, n) >= n;
      && Grid(start, stop, points, i + 1) ==
         Grid(start, stop, points, i) + Quotient(span, n) + (if overflow then 1 else 0)
      && Carried(span, i + 1, n) == Carried(span, i, n) + Remainder(span, n) - (if overflow then n else 0)
      && (i + 1 < points ==> Grid(start, stop, points, i + 1) <= stop)
      && Grid(start, stop, points, i) <= stop
  {
    TableStep(stop - start, i, points - 1);
    Nondecreasing(start, stop, points, i, i + 1);
    Nondecreasing(start, stop, points, i, i);
  }

  /** Unsigned 32-bit addition. */
  function Wrap(x: nat): (r: uint32)
    ensures x < TWO_32 ==> r == x
  {
    x % TWO_32
  }

  /** The first i entries of the list. */
  ghost function Entries(start: nat, stop: nat, points: nat, i: nat): (r: seq<nat>)
    requires start <= stop && 2 <= points
    ensures |r| == i
  {
    seq(i, k requires 0 <= k < i => Grid(start, stop, points, k))
  }

  lemma EntriesStep(start: nat, stop: nat, points: nat, i: nat)
    requires start <= stop && 2 <= points
    ensures Entries(start, stop, points, i + 1) == Entries(start, stop, points, i) + [Grid(start, stop, points, i)]
    ensures Entries(start, stop, points, 0) == []
  {}

  /** The table filled by adding the step and carrying the error; entries out of range are zero. The
      addition behind the last point may wrap and is never stored. */
  method SetFrequencyTable(start: uint32, stop: uint32, points: nat, frequencies: array<uint32>)
    requires start <= stop && 2 <= points <= frequencies.Length && points < TWO_31
    modifies frequencies
    ensures forall i :: 0 <= i < points ==> frequencies[i] == Grid(start, stop, points, i)
    ensures forall i :: points <= i < frequencies.Length ==> frequencies[i] == 0
  {
    FillEntries(start, stop, points, frequencies);
    ClearFrom(points, frequencies);
    EntriesAre(start, stop, points, frequencies[..points]);
  }

  method FillEntries(start: uint32, stop: uint32, points: nat, frequencies: array<uint32>)
    requires start <= stop && 2 <= points <= frequencies.Length && points < TWO_31
    modifies frequencies
    ensures frequencies[..points] == Entries(start, stop, points, points)
  {
    var step: uint32 := points - 1;
    hide Grid, Quotient, Remainder, Carried, Wrap, Entries;
    var span: uint32 := stop - start;
    var delta: uint32 := Quotient(span, step);
    var error: uint32 := Remainder(span, step);
    var f: uint32, df: uint32 := start, step / 2;
    TableStart(span, step);
    Ends(start, stop, points);
    EntriesStep(start, stop, points, 0);
    var i := 0;
    while i <= step
      invariant 0 <= i <= step + 1
      invariant i <= step ==> f == Grid(start, stop, points, i)
      invariant df == Carried(span, i, step)
      invariant frequencies[..i] == Entries(start, stop, points, i)
    {
      EntryStep(start, stop, points, i);
      EntriesStep(start, stop, points, i);
      Store(frequencies, i, f);
      f, df := NextEntry(f, df, delta, error, step);
      i := i + 1;
    }
  }

  /** Adds the step, and a hertz more when the carried error has grown to one. */
  method NextEntry(f: uint32, df: uint32, delta: uint32, error: uint32, step: uint32) returns (f': uint32, df': uint32)
    requires df < step && error < step && step < TWO_31
    ensures var overflow := df + error >= step;
      && df' == df + error - (if overflow then step else 0)
      && (f + delta + (if overflow then 1 else 0) < TWO_32 ==> f' == f + delta + (if overflow then 1 else 0))
  {
    hide Wrap;
    f', df' := f, df + error;
    if df' >= step {
      f' := Wrap(f' + 1);
      df' := df' - step;
    }
    f' := Wrap(f' + delta);
  }

  method Store(frequencies: array<uint32>, i: nat, f: uint32)
    requires i < frequencies.Length
    modifies frequencies
    ensures frequencies[..i + 1] == old(frequencies[..i]) + [f]
  {
    frequencies[i] := f;
  }

  method ClearFrom(points: nat, frequencies: array<uint32>)
    requires points <= frequencies.Length
    modifies frequencies
    ensures frequencies[..points] == old(frequencies[..points])
    ensures forall i :: points <= i < frequencies.Length ==> frequencies[i] == 0
  {
    for i := points to frequencies.Length
      invariant frequencies[..points] == old(frequencies[..points])
      invariant forall k :: points <= k < i ==> frequencies[k] == 0
    {
      frequencies[i] := 0;
    }
  }

  lemma EntriesAre(start: nat, stop: nat, points: nat, entries: seq<uint32>)
    requires start <= stop && 2 <= points && entries == Entries(start, stop, points, points)
    ensures forall k :: 0 <= k < points ==> entries[k] == Grid(start, stop, points, k)
  {}
}
