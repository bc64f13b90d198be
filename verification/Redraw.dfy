/** Incremental redraw of the plot (plot.c): trace points are cached per trace, cells touched by a changed
    segment are marked in a bit map, and only marked cells are rendered again. */
module Redraw {
  import opened Arithmetic
  import opened BitMasks

  const TRACES_MAX := 4
  const STORED_TRACES := 1
  const CELL_OFFSET := 5

  datatype Point = Point(x: nat, y: nat)

  const ORIGIN := Point(0, 0)

  /** Screen size, plot size, cell size, and the width of a row of the mark map. */
  datatype Display = Display(lcdWidth: nat, lcdHeight: nat, width: nat, height: nat,
                             cellWidth: nat, cellHeight: nat, mapBits: nat) {
    predicate Valid() {
      && 0 < cellWidth && 0 < cellHeight && 0 < width
      && AreaWidth() <= lcdWidth && AreaHeight() <= lcdHeight
      && (lcdWidth + cellWidth - 1) / cellWidth <= mapBits
    }

    function AreaWidth(): nat { CELL_OFFSET + width + 1 + 4 }
    function AreaHeight(): nat { height + 1 }
    function Rows(): nat requires Valid() { Cells(lcdHeight, cellHeight) }
    predicate InPlot(p: Point) { p.x <= CELL_OFFSET + width && p.y <= height }
    function Row(y: nat): nat requires Valid() { y / cellHeight }
    function Col(x: nat): nat requires Valid() { x / cellWidth }

    /** The cell lies in the box of cells around the segment. */
    predicate Touches(a: Point, b: Point, row: nat, col: nat) requires Valid() {
      Between(Row(a.y), Row(b.y), row) && Between(Col(a.x), Col(b.x), col)
    }
  }

  const LCD_320X240 := Display(320, 240, 300, 232, 32, 32, 16)
  const LCD_480X320 := Display(480, 320, 455, 304, 32, 32, 16)

  lemma DisplaysAreValid()
    ensures LCD_320X240.Valid() && LCD_480X320.Valid()
  {}

  predicate Between(u: nat, v: nat, w: nat) { u <= w <= v || v <= w <= u }

  /** Cells of size c needed for n pixels. */
  function Cells(n: nat, c: nat): nat requires 0 < c { (n + c - 1) / c }

  lemma QuotientMonotone(a: nat, b: nat, c: nat)
    requires 0 < c && a <= b
    ensures a / c <= b / c
  {
    var q, r := a / c, b / c;
    assert q * c <= a && b < r * c + c;
    LessFactors(q, r, c);
  }

  lemma LessFactors(q: nat, r: nat, c: nat)
    requires 0 < c
    ensures q * c < r * c + c ==> q <= r
  {
    if r < q { assert q * c == (r + 1) * c + (q - r - 1) * c; }
  }

  /** A pixel below n lies in one of the first Cells(n, c) cells. */
  lemma InCells(a: nat, n: nat, c: nat)
    requires 0 < c && a < n
    ensures a / c < Cells(n, c)
  {
    QuotientMonotone(a + c, n + c - 1, c);
    QuotientIs(a, c, a / c);
    QuotientIs(a + c, c, a / c + 1);
  }

  // ---- what the screen should show ----

  /** What a pixel shows: the drawing below the traces (background and grid), or a trace. */
  datatype Ink = Paper(code: int) | Trace(t: nat)

  /** A painter decides which pixels a segment from one point to another colours. */
  type Painter = (Point, Point, Point) -> bool

  /** It never leaves the segment's bounding box. */
  ghost predicate StaysInBox(paints: Painter) {
    forall a, b, p :: paints(a, b, p) ==> Between(a.x, b.x, p.x) && Between(a.y, b.y, p.y)
  }

  ghost predicate HitsIn(paints: Painter, pts: seq<Point>, i0: nat, i1: nat, p: Point) {
    exists i :: i0 <= i < i1 && i + 1 < |pts| && paints(pts[i], pts[i + 1], p)
  }

  ghost predicate Hits(paints: Painter, pts: seq<Point>, p: Point) { HitsIn(paints, pts, 0, |pts|, p) }

  /** The full picture: of traces t and up, the first that covers the pixel is seen. */
  ghost function Picture(paints: Painter, lines: seq<seq<Point>>, paper: Point -> int, t: nat, p: Point): Ink
    requires t <= |lines|
    decreases |lines| - t
  {
    if t == |lines| then Paper(paper(p))
    else if Hits(paints, lines[t], p) then Trace(t)
    else Picture(paints, lines, paper, t + 1, p)
  }

  /** What is seen at a pixel: the first trace that covers it, and the paper where none does. */
  lemma {:induction false} FirstOnTop(paints: Painter, lines: seq<seq<Point>>, paper: Point -> int, t: nat, p: Point)
    requires t <= |lines|
    ensures var ink := Picture(paints, lines, paper, t, p);
      && (forall s: nat :: t <= s < |lines| ==>
            (ink == Trace(s) <==> Hits(paints, lines[s], p) && forall r :: t <= r < s ==> !Hits(paints, lines[r], p)))
      && (ink == Paper(paper(p)) <==> forall s :: t <= s < |lines| ==> !Hits(paints, lines[s], p))
    decreases |lines| - t
  {
    hide Hits;
    if t < |lines| {
      FirstOnTop(paints, lines, paper, t + 1, p);
      LowerTrace(paints, lines, paper, t + 1, p);
    }
  }

  /** From trace t on no earlier one is seen. */
  lemma {:induction false} LowerTrace(paints: Painter, lines: seq<seq<Point>>, paper: Point -> int, t: nat, p: Point)
    requires t <= |lines|
    ensures var ink := Picture(paints, lines, paper, t, p); ink.Trace? ==> t <= ink.t < |lines|
    decreases |lines| - t
  {
    if t < |lines| { LowerTrace(paints, lines, paper, t + 1, p); }
  }

  lemma {:induction false} SamePicture(paints: Painter, was: seq<seq<Point>>, now: seq<seq<Point>>,
                                       paper: Point -> int, t: nat, p: Point)
    requires t <= |was| == |now|
    requires forall s :: t <= s < |was| ==> (Hits(paints, was[s], p) <==> Hits(paints, now[s], p))
    ensures Picture(paints, was, paper, t, p) == Picture(paints, now, paper, t, p)
    decreases |was| - t
  {
    if t < |was| { SamePicture(paints, was, now, paper, t + 1, p); }
  }

  // ---- marks ----

  ghost predicate Lit(marks: seq<nat>, row: nat, col: nat) { row < |marks| && Bit(marks[row], col) }

  ghost predicate Grown(was: seq<nat>, now: seq<nat>) {
    |was| == |now| && forall row: nat, col: nat :: Lit(was, row, col) ==> Lit(now, row, col)
  }

  ghost predicate Covered(d: Display, marks: seq<nat>, a: Point, b: Point)
    requires d.Valid()
  {
    forall row: nat, col: nat :: row < |marks| && d.Touches(a, b, row, col) ==> Lit(marks, row, col)
  }

  /** A pixel of a covered segment lies in a marked cell. */
  lemma PaintedIsLit(d: Display, paints: Painter, marks: seq<nat>, a: Point, b: Point, p: Point)
    requires d.Valid() && StaysInBox(paints) && Covered(d, marks, a, b) && paints(a, b, p)
    requires p.y < d.lcdHeight && |marks| == d.Rows()
    ensures Lit(marks, d.Row(p.y), d.Col(p.x))
  {
    var row, col := d.Row(p.y), d.Col(p.x);
    InCells(p.y, d.lcdHeight, d.cellHeight);
    PaintedTouches(d, a, b, p);
    assert Covered(d, marks, a, b);
    hide Display.Touches, Display.Valid, Display.Rows, Between, Lit;
    assert row < |marks|;
  }

  lemma PaintedTouches(d: Display, a: Point, b: Point, p: Point)
    requires d.Valid() && Between(a.x, b.x, p.x) && Between(a.y, b.y, p.y)
    ensures d.Touches(a, b, d.Row(p.y), d.Col(p.x))
  {
    BetweenCells(a.x, b.x, p.x, d.cellWidth);
    BetweenCells(a.y, b.y, p.y, d.cellHeight);
  }

  lemma BetweenCells(u: nat, v: nat, w: nat, c: nat)
    requires 0 < c && Between(u, v, w)
    ensures Between(u / c, v / c, w / c)
  {
    if u <= w <= v {
      QuotientMonotone(u, w, c);
      QuotientMonotone(w, v, c);
    } else {
      QuotientMonotone(v, w, c);
      QuotientMonotone(w, u, c);
    }
  }

  // ---- one pass over a trace ----

  ghost predicate Changed(was: seq<Point>, now: seq<Point>, j: nat)
    requires j < |was| == |now|
  {
    was[j] != now[j]
  }

  /** After i points: the rest is untouched, and each finished segment with a changed end has the cells of
      its old and of its new course marked. */
  ghost predicate Passed(d: Display, marks: seq<nat>, was: seq<Point>, now: seq<Point>, i: nat)
    requires d.Valid()
  {
    && i <= |was| == |now| && was[i..] == now[i..]
    && forall j :: 1 <= j < i && (Changed(was, now, j - 1) || Changed(was, now, j)) ==>
         Covered(d, marks, was[j - 1], was[j]) && Covered(d, marks, now[j - 1], now[j])
  }

  /** The two values that survive from one point to the next: the erased point, and a history of changes
      whose last bit tells whether that point changed. */
  ghost predicate Remembers(was: seq<Point>, now: seq<Point>, i: nat, last: Point, diff: nat)
    requires i <= |was| == |now|
  {
    i > 0 ==> last == was[i - 1] && (diff % 2 == 1 <==> Changed(was, now, i - 1))
  }

  /** The history of changes, a 16-bit word, after one more point. */
  function History(diff: nat, changed: bool): nat { 2 * diff % 0x1_0000 + if changed then 1 else 0 }

  lemma HistoryBits(diff: nat, changed: bool)
    ensures History(diff, changed) % 4 != 0 <==> changed || diff % 2 == 1
    ensures History(diff, changed) % 2 == 1 <==> changed
    ensures History(diff, changed) < 0x1_0000
  {
    var half, c := diff % 0x8000, if changed then 1 else 0;
    Doubled(diff);
    HalfParity(diff);
    LowBits(half, c);
  }

  lemma HalfParity(diff: nat)
    ensures diff % 0x8000 % 2 == diff % 2
  {
    var k, half := diff / 0x8000, diff % 0x8000;
    var low := half % 2;
    assert half == 2 * (half / 2) + low;
    RemainderIs(diff, 2, 0x4000 * k + half / 2, low);
  }

  /** What two low bits of 2 * half + c tell. */
  lemma LowBits(half: nat, c: nat)
    requires c <= 1
    ensures (2 * half + c) % 4 != 0 <==> c == 1 || half % 2 == 1
    ensures (2 * half + c) % 2 == c
  {
    var k, low := half / 2, half % 2;
    RemainderIs(2 * half + c, 4, k, 2 * low + c);
    RemainderIs(2 * half + c, 2, half, c);
  }

  lemma Doubled(diff: nat)
    ensures 2 * diff % 0x1_0000 == 2 * (diff % 0x8000)
  {
    var k := diff / 0x8000;
    RemainderIs(2 * diff, 0x1_0000, k, 2 * (diff % 0x8000));
  }

  lemma PassStep(d: Display, marks: seq<nat>, more: seq<nat>, was: seq<Point>, now: seq<Point>, i: nat, p: Point,
                 last: Point, diff: nat)
    requires d.Valid() && i < |was| && Passed(d, marks, was, now, i) && Remembers(was, now, i, last, diff)
    requires Grown(marks, more)
    requires var h := History(diff, was[i] != p);
      i > 0 && h % 4 != 0 ==> Covered(d, more, last, was[i]) && Covered(d, more, now[i - 1], p)
    ensures Passed(d, more, was, now[i := p], i + 1)
    ensures Remembers(was, now[i := p], i + 1, was[i], History(diff, was[i] != p))
  {
    HistoryBits(diff, was[i] != p);
    hide History;
    var after := now[i := p];
    forall j | 1 <= j <= i && (Changed(was, after, j - 1) || Changed(was, after, j))
      ensures Covered(d, more, was[j - 1], was[j]) && Covered(d, more, after[j - 1], after[j])
    {
      if j < i {
        assert Changed(was, now, j - 1) || Changed(was, now, j);
        CoveredGrows(d, marks, more, was[j - 1], was[j]);
        CoveredGrows(d, marks, more, now[j - 1], now[j]);
      }
    }
  }

  lemma CoveredGrows(d: Display, marks: seq<nat>, more: seq<nat>, a: Point, b: Point)
    requires d.Valid() && Covered(d, marks, a, b) && Grown(marks, more)
    ensures Covered(d, more, a, b)
  {}

  /** After a whole pass a pixel in an unmarked cell is covered by the trace exactly when it was before. */
  lemma UnmarkedUnchanged(d: Display, paints: Painter, marks: seq<nat>, was: seq<Point>, now: seq<Point>, p: Point)
    requires d.Valid() && StaysInBox(paints) && Passed(d, marks, was, now, |was|)
    requires p.y < d.lcdHeight && |marks| == d.Rows()
    requires !Lit(marks, d.Row(p.y), d.Col(p.x))
    ensures |was| == |now| && (Hits(paints, was, p) <==> Hits(paints, now, p))
  {
    hide Passed, Lit, Display.Rows, StaysInBox, Hits;
    PassedLength(d, marks, was, now);
    forall i | 0 <= i < |was| - 1
      ensures paints(was[i], was[i + 1], p) <==> paints(now[i], now[i + 1], p)
    {
      SegmentUnchanged(d, paints, marks, was, now, i + 1, p);
    }
    SameHits(paints, was, now, p);
  }

  lemma PassedLength(d: Display, marks: seq<nat>, was: seq<Point>, now: seq<Point>)
    requires d.Valid() && Passed(d, marks, was, now, |was|)
    ensures |was| == |now|
  {}

  lemma SameHits(paints: Painter, was: seq<Point>, now: seq<Point>, p: Point)
    requires |was| == |now|
    requires forall i :: 0 <= i < |was| - 1 ==> (paints(was[i], was[i + 1], p) <==> paints(now[i], now[i + 1], p))
    ensures Hits(paints, was, p) <==> Hits(paints, now, p)
  {}

  lemma SegmentUnchanged(d: Display, paints: Painter, marks: seq<nat>, was: seq<Point>, now: seq<Point>, j: nat,
                         p: Point)
    requires d.Valid() && StaysInBox(paints) && Passed(d, marks, was, now, |was|)
    requires p.y < d.lcdHeight && |marks| == d.Rows() && 1 <= j < |was|
    requires !Lit(marks, d.Row(p.y), d.Col(p.x))
    ensures |was| == |now| && (paints(was[j - 1], was[j], p) <==> paints(now[j - 1], now[j], p))
  {
    if Changed(was, now, j - 1) || Changed(was, now, j) {
      hide Covered, Lit, Display.Rows, Display.Touches, StaysInBox;
      if paints(was[j - 1], was[j], p) { PaintedIsLit(d, paints, marks, was[j - 1], was[j], p); }
      if paints(now[j - 1], now[j], p) { PaintedIsLit(d, paints, marks, now[j - 1], now[j], p); }
    }
  }

  // ---- culling ----

  ghost predicate Sorted(pts: seq<Point>) { forall i, j :: 0 <= i < j < |pts| ==> pts[i].x <= pts[j].x }

  /** Segments before i0 end left of x1 and segments from i1 on start at x2 or later. */
  ghost predicate Culls(pts: seq<Point>, x1: int, x2: int, i0: nat, i1: nat) {
    && (forall i :: 0 <= i <= i0 < |pts| && 0 < i0 ==> pts[i].x < x1)
    && (forall i :: 0 <= i1 <= i < |pts| && i1 + 1 < |pts| ==> x2 <= pts[i].x)
  }

  /** Drawing the segments that survive paints the same pixels of the cell as drawing them all. */
  lemma CullingIsSound(paints: Painter, pts: seq<Point>, x1: int, x2: int, i0: nat, i1: nat, p: Point)
    requires StaysInBox(paints) && 1 <= |pts| && i0 <= i1 < |pts| && Culls(pts, x1, x2, i0, i1)
    requires x1 <= p.x < x2
    ensures HitsIn(paints, pts, i0, i1, p) <==> Hits(paints, pts, p)
  {
    if Hits(paints, pts, p) {
      var i :| 0 <= i < |pts| && i + 1 < |pts| && paints(pts[i], pts[i + 1], p);
      CulledMisses(paints, pts, x1, x2, i0, i1, i, p);
      hide Culls, StaysInBox;
      assert i0 <= i < i1;
    }
  }

  lemma CulledMisses(paints: Painter, pts: seq<Point>, x1: int, x2: int, i0: nat, i1: nat, i: nat, p: Point)
    requires StaysInBox(paints) && i0 <= i1 < |pts| && Culls(pts, x1, x2, i0, i1)
    requires x1 <= p.x < x2 && i + 1 < |pts|
    ensures i < i0 || i1 <= i ==> !paints(pts[i], pts[i + 1], p)
  {
    var a, b := pts[i], pts[i + 1];
    if i < i0 {
      assert a.x < x1 && b.x < x1;
    } else if i1 <= i {
      assert x2 <= a.x && x2 <= b.x;
    }
  }

  /** The two binary searches: which segments can meet columns x1 .. x2 - 1. */
  method SearchIndexRangeX(x1: int, x2: int, index: array<Point>, n: nat) returns (i0: nat, i1: nat)
    requires 1 <= n < index.Length && x1 < x2 && Sorted(index[..n + 1])
    ensures i0 <= i1 <= n && Culls(index[..n + 1], x1, x2, i0, i1)
    ensures i1 <= 1 || index[i1 - 1].x < x2
    ensures i0 + 1 >= i1 || x1 <= index[i0 + 1].x
  {
    ghost var pts := index[..n + 1];
    hide Sorted, Culls;
    var lo, hi := 0, n;
    var mid := (lo + hi) / 2;
    if index[mid].x >= x2 { hi := mid; } else { lo := mid; }
    while lo + 1 < hi
      invariant 0 <= lo <= hi <= n && (lo == hi ==> lo == 0)
      invariant hi == n || x2 <= index[hi].x
      invariant lo == 0 || index[lo].x < x2
    {
      mid := (lo + hi) / 2;
      if index[mid].x >= x2 { hi := mid; } else { lo := mid; }
    }
    i1 := hi;
    lo := 0;
    mid := (lo + hi) / 2;
    if index[mid].x < x1 { lo := mid; } else { hi := mid; }
    while lo + 1 < hi
      invariant 0 <= lo <= hi <= i1 && (lo == hi ==> lo == 0)
      invariant lo == 0 || index[lo].x < x1
      invariant hi == i1 || x1 <= index[hi].x
    {
      mid := (lo + hi) / 2;
      if index[mid].x < x1 { lo := mid; } else { hi := mid; }
    }
    i0 := lo;
    BoundsCull(pts, x1, x2, i0, i1);
  }

  lemma BoundsCull(pts: seq<Point>, x1: int, x2: int, i0: nat, i1: nat)
    requires Sorted(pts) && i0 <= i1 < |pts|
    requires i0 == 0 || pts[i0].x < x1
    requires i1 + 1 == |pts| || x2 <= pts[i1].x
    ensures Culls(pts, x1, x2, i0, i1)
  {}

  // ---- the plot ----

  /** How trace memory t is shown: not at all, computed but not drawn, on the rectangular grid, on the round
      grid, or as a stored copy of so many points. */
  datatype Kind = Off | Blank | Rectangular | Round | Stored(count: nat)

  /** The values of one sweep for a trace: heights on the rectangular grid, places on the round one. */
  datatype Values = Heights(ys: seq<nat>) | Places(pts: seq<Point>)

  predicate Fits(d: Display, kind: Kind, points: nat, v: Values) {
    match kind
    case Rectangular => v.Heights? && |v.ys| == points && forall i :: 0 <= i < points ==> v.ys[i] <= d.height
    case Blank => v.Heights? && |v.ys| == points && forall i :: 0 <= i < points ==> v.ys[i] <= d.height
    case Round => v.Places? && |v.pts| == points && forall i :: 0 <= i < points ==> d.InPlot(v.pts[i])
    case _ => true
  }

  /** Column of point i in 16.16 fixed point. */
  function FixedX(d: Display, points: nat, i: nat): nat
    requires 2 <= points
  {
    CELL_OFFSET * 0x1_0000 + d.width * 0x1_0000 / (points - 1) * i + 0x8000
  }

  /** Columns never go back and stay in the plot. */
  lemma FixedXOrdered(d: Display, points: nat, i: nat, j: nat)
    requires 2 <= points && i <= j < points
    ensures FixedX(d, points, i) / 0x1_0000 <= FixedX(d, points, j) / 0x1_0000 <= CELL_OFFSET + d.width
  {
    var w, n := d.width * 0x1_0000, points - 1;
    var dx := w / n;
    assert dx * n <= w;
    MulMono(i, j, dx);
    MulMono(j, n, dx);
    var u, v := dx * i, dx * j;
    assert FixedX(d, points, i) == CELL_OFFSET * 0x1_0000 + u + 0x8000;
    assert FixedX(d, points, j) == CELL_OFFSET * 0x1_0000 + v + 0x8000;
    hide FixedX;
  }

  /** A column is the rounded one of the ideal place, half a pixel away at most but for what the truncated step loses,
      less than i / 65536 of a pixel. */
  lemma ColumnIsNear(d: Display, points: nat, i: nat)
    requires 2 <= points <= 0x8000 && i < points
    ensures var n, col, ideal := points - 1, FixedX(d, points, i) / 0x1_0000, Ideal(d, points, i);
      && 2 * (n * col - ideal) <= n
      && 0x1_0000 * (ideal - n * col) < (0x8000 + i) * n + n
  {
    var n := points - 1;
    var x := FixedX(d, points, i);
    ScaledColumn(d, points, i);
    ColumnBounds(x, n);
    hide FixedX, Ideal;
    assert (0x8000 + i) * n == 0x8000 * n + i * n;
  }

  /** Column and ideal place, times the number of steps and in 16.16 fixed point. */
  lemma ScaledColumn(d: Display, points: nat, i: nat)
    requires 2 <= points
    ensures var n, ideal := points - 1, 0x1_0000 * Ideal(d, points, i);
            ideal - i * n <= n * FixedX(d, points, i) - 0x8000 * n <= ideal
  {
    hide Ideal;
    var n := points - 1;
    var steps := StepLoses(d.width * 0x1_0000, n, i);
    IdealSum(d, points, i);
    FixedSum(n, steps);
    var x, ideal := CELL_OFFSET * 0x1_0000 + steps + 0x8000, Ideal(d, points, i);
    SumUp(n * x, n * steps, 0x1_0000 * (n * CELL_OFFSET), d.width * 0x1_0000 * i, n * i, 0x8000 * n, 0x1_0000 * ideal);
  }

  lemma SumUp(nx: int, ns: int, base: int, wi: int, ni: int, half: int, ideal: int)
    requires nx == base + ns + half && ideal == base + wi && wi - ni <= ns <= wi
    ensures ideal - ni <= nx - half <= ideal
  {}

  lemma IdealSum(d: Display, points: nat, i: nat)
    requires 2 <= points
    ensures 0x1_0000 * Ideal(d, points, i) == 0x1_0000 * ((points - 1) * CELL_OFFSET) + d.width * 0x1_0000 * i
  {
    assert d.width * 0x1_0000 * i == 0x1_0000 * (d.width * i);
  }

  lemma FixedSum(n: nat, steps: nat)
    ensures n * (CELL_OFFSET * 0x1_0000 + steps + 0x8000) == 0x1_0000 * (n * CELL_OFFSET) + n * steps + 0x8000 * n
  {}

  /** The ideal column of point i, times the number of steps. */
  function Ideal(d: Display, points: nat, i: nat): nat
    requires 2 <= points
  {
    NotNegative(d.width, i);
    (points - 1) * CELL_OFFSET + d.width * i
  }

  lemma StepLoses(w: nat, n: nat, i: nat) returns (steps: nat)
    requires 1 <= n
    ensures steps == w / n * i && w * i - n * i <= n * steps <= w * i
  {
    var dx := w / n;
    NotNegative(dx, i);
    steps := dx * i;
    assert dx * n <= w < dx * n + n;
    MulMono(dx * n, w, i);
    MulMono(w, dx * n + n, i);
    assert n * (dx * i) == (dx * n) * i && (dx * n + n) * i == (dx * n) * i + n * i;
  }

  lemma ColumnBounds(x: nat, n: nat)
    ensures var col := x / 0x1_0000; 0x1_0000 * (n * col) <= n * x && n * x <= 0x1_0000 * (n * col) + 0xFFFF * n
  {
    var col := x / 0x1_0000;
    MulMono(0x1_0000 * col, x, n);
    MulMono(x, 0x1_0000 * col + 0xFFFF, n);
    assert (0x1_0000 * col) * n == 0x1_0000 * (n * col);
    assert (0x1_0000 * col + 0xFFFF) * n == 0x1_0000 * (n * col) + 0xFFFF * n;
  }

  /** The sweep starts on the left edge of the plot and ends on the right one. */
  lemma ColumnEnds(d: Display, points: nat)
    requires 2 <= points <= 0x8000
    ensures FixedX(d, points, 0) / 0x1_0000 == CELL_OFFSET
    ensures FixedX(d, points, points - 1) / 0x1_0000 == CELL_OFFSET + d.width
  {
    var n, dx := points - 1, d.width * 0x1_0000 / (points - 1);
    assert dx * 0 == 0;
    assert n * dx <= d.width * 0x1_0000 < n * dx + n;
    assert dx * n == n * dx;
    assert FixedX(d, points, n) == CELL_OFFSET * 0x1_0000 + dx * n + 0x8000;
    QuotientIs(FixedX(d, points, n), 0x1_0000, CELL_OFFSET + d.width);
  }

  ghost function Positions(d: Display, points: nat, v: Values): seq<Point>
    requires 2 <= points
  {
    match v
    case Heights(ys) => seq(|ys|, i requires 0 <= i < |ys| => Point(FixedX(d, points, i) / 0x1_0000, ys[i]))
    case Places(pts) => pts
  }

  /** All that a full redraw depends on. */
  datatype Scene = Scene(paints: Painter, lines: seq<seq<Point>>, paper: Point -> int) {
    ghost function At(p: Point): Ink { Picture(paints, lines, paper, 0, p) }
  }

  /** Every pixel of the area that lies in an unmarked cell shows the scene. */
  ghost predicate UpToDate(d: Display, marks: seq<nat>, s: Scene, width: nat, height: nat, screen: Point -> Ink)
    requires d.Valid()
  {
    forall p :: Inside(p, width, height) && !Lit(marks, d.Row(p.y), d.Col(p.x)) ==> screen(p) == s.At(p)
  }

  predicate Inside(p: Point, width: nat, height: nat) { p.x < width && p.y < height }

  /** A finished pass over one trace keeps the screen up to date, whatever the trace became. */
  lemma PassKeepsUpToDate(d: Display, marks: seq<nat>, more: seq<nat>, s: Scene, width: nat, height: nat,
                          screen: Point -> Ink, t: nat, now: seq<Point>)
    requires d.Valid() && StaysInBox(s.paints) && height <= d.lcdHeight && t < |s.lines|
    requires UpToDate(d, marks, s, width, height, screen) && Grown(marks, more) && |more| == d.Rows()
    requires Passed(d, more, s.lines[t], now, |s.lines[t]|)
    ensures UpToDate(d, more, s.(lines := s.lines[t := now]), width, height, screen)
  {
    hide Passed, StaysInBox, Display.Rows, Picture, Hits, Lit;
    var after := s.(lines := s.lines[t := now]);
    forall p | Inside(p, width, height) && !Lit(more, d.Row(p.y), d.Col(p.x))
      ensures screen(p) == after.At(p)
    {
      assert !Lit(marks, d.Row(p.y), d.Col(p.x));
      UnmarkedUnchanged(d, s.paints, more, s.lines[t], now, p);
      SamePicture(s.paints, s.lines, after.lines, s.paper, 0, p);
    }
  }

  lemma PassedPart(d: Display, marks: seq<nat>, was: seq<Point>, now: seq<Point>, n: nat)
    requires d.Valid() && Passed(d, marks, was, now, n)
    ensures n <= |was| == |now| && Passed(d, marks, was[..n], now[..n], n)
  {
    hide Covered;
    forall j | 1 <= j < n && (Changed(was[..n], now[..n], j - 1) || Changed(was[..n], now[..n], j))
      ensures Covered(d, marks, was[j - 1], was[j]) && Covered(d, marks, now[j - 1], now[j])
    {
      assert Changed(was, now, j - 1) || Changed(was, now, j);
    }
  }

  ghost predicate Zeroed(a: array<Point>) reads a { forall i :: 0 <= i < a.Length ==> a[i] == ORIGIN }

  method TraceMemory(n: nat, capacity: nat) returns (traces: seq<array<Point>>)
    ensures fresh(traces) && |traces| == n
    ensures forall s, t :: 0 <= s < t < n ==> traces[s] != traces[t]
    ensures forall t :: 0 <= t < n ==> traces[t].Length == capacity && Zeroed(traces[t])
  {
    traces := [];
    for k := 0 to n
      invariant fresh(traces) && |traces| == k
      invariant forall s, t :: 0 <= s < t < k ==> traces[s] != traces[t]
      invariant forall t :: 0 <= t < k ==> traces[t].Length == capacity && Zeroed(traces[t])
    {
      var a := new Point[capacity](_ => ORIGIN);
      traces := traces + [a];
    }
  }

  class Plot {
    const display: Display
    const points: nat
    const paints: Painter
    const markmap: array<nat>
    const traceIndex: seq<array<Point>>
    var diff: nat
    var lastErase: Point
    var kinds: seq<Kind>
    var paper: Point -> int
    var areaWidth: nat
    var areaHeight: nat
    var screen: Point -> Ink

    /** Power on: trace memory and mark map are zero, the plot has its normal size, nothing is stored. */
    constructor (display: Display, capacity: nat, points: nat, paints: Painter, kinds: seq<Kind>,
                 paper: Point -> int, screen: Point -> Ink)
      requires display.Valid() && 2 <= points <= capacity && StaysInBox(paints)
      requires |kinds| == TRACES_MAX && forall t :: 0 <= t < TRACES_MAX ==> !kinds[t].Stored?
      ensures Valid() && Ordered() && fresh(markmap) && fresh(traceIndex)
      ensures this.display == display && this.points == points && this.paints == paints
      ensures this.kinds == kinds + [Off] && this.paper == paper && this.screen == screen
      ensures areaWidth == display.AreaWidth() && areaHeight == display.AreaHeight()
      ensures forall t :: 0 <= t < |traceIndex| ==> traceIndex[t].Length == capacity && Zeroed(traceIndex[t])
      ensures diff == 0 && lastErase == ORIGIN && forall row :: 0 <= row < markmap.Length ==> markmap[row] == 0
    {
      hide StaysInBox, Display.Rows, Display.Valid, Pow2, Zeroed, Fixed, MapFits, Ordered, Sorted;
      this.display, this.points, this.paints := display, points, paints;
      this.kinds, this.paper, this.screen := kinds + [Off], paper, screen;
      diff, lastErase, areaWidth, areaHeight := 0, ORIGIN, display.AreaWidth(), display.AreaHeight();
      markmap := new nat[display.Rows()](_ => 0);
      var memory := TraceMemory(TRACES_MAX + STORED_TRACES, capacity);
      traceIndex := memory;
      new;
      PowerOnFits();
    }

    /** Zeroed trace memory is valid, and in column order. */
    lemma PowerOnFits()
      requires display.Valid() && 2 <= points && StaysInBox(paints)
      requires KindsFit() && (forall t :: TRACES_MAX <= t < |kinds| ==> !kinds[t].Stored?)
      requires |traceIndex| == TRACES_MAX + STORED_TRACES && markmap.Length == display.Rows()
      requires forall row :: 0 <= row < markmap.Length ==> markmap[row] == 0
      requires forall s, t :: 0 <= s < t < |traceIndex| ==> traceIndex[s] != traceIndex[t]
      requires forall t :: 0 <= t < |traceIndex| ==> Zeroed(traceIndex[t]) && points <= traceIndex[t].Length
      requires areaWidth == display.AreaWidth() && areaHeight == display.AreaHeight()
      ensures Valid() && Ordered()
    {
      hide StaysInBox, Display.Rows, Pow2;
    }

    ghost predicate Fixed() reads traceIndex {
      && display.Valid() && 2 <= points && StaysInBox(paints)
      && markmap.Length == display.Rows()
      && |traceIndex| == TRACES_MAX + STORED_TRACES
      && (forall s, t :: 0 <= s < t < |traceIndex| ==> traceIndex[s] != traceIndex[t])
      && (forall t :: 0 <= t < |traceIndex| ==> points <= traceIndex[t].Length)
      && (forall t, i :: 0 <= t < |traceIndex| && 0 <= i < traceIndex[t].Length ==> display.InPlot(traceIndex[t][i]))
    }

    ghost predicate MapFits() reads markmap {
      forall row :: 0 <= row < markmap.Length ==> markmap[row] < Pow2(display.mapBits)
    }

    ghost predicate KindsFit() reads `kinds { AreKinds(kinds) }

    ghost predicate AreKinds(kinds: seq<Kind>) {
      |kinds| == |traceIndex| && forall t :: 0 <= t < |kinds| ==>
        if t < TRACES_MAX then !kinds[t].Stored?
        else kinds[t].Off? || (kinds[t].Stored? && 1 <= kinds[t].count <= traceIndex[t].Length)
    }

    ghost predicate Valid() reads this, markmap, traceIndex {
      Fixed() && MapFits() && KindsFit() && areaWidth <= display.AreaWidth() && areaHeight <= display.AreaHeight()
    }

    /** What trace memory t contributes to the picture. */
    ghost function Visible(t: nat): seq<Point>
      requires Fixed() && KindsFit() && t < |traceIndex|
      reads `kinds, traceIndex
    {
      match kinds[t]
      case Rectangular => traceIndex[t][..points]
      case Round => traceIndex[t][..points]
      case Stored(count) => traceIndex[t][..count]
      case _ => []
    }

    ghost function LinesTo(n: nat): (r: seq<seq<Point>>)
      requires Fixed() && KindsFit() && n <= |traceIndex|
      reads `kinds, traceIndex
      ensures |r| == n && forall t :: 0 <= t < n ==> r[t] == Visible(t)
    {
      if n == 0 then [] else LinesTo(n - 1) + [Visible(n - 1)]
    }

    ghost function Lines(): (r: seq<seq<Point>>)
      requires Fixed() && KindsFit()
      reads `kinds, traceIndex
    {
      LinesTo(|traceIndex|)
    }

    /** How many points of trace memory t are drawn: those of the sweep for a trace that is on, the stored ones for a
        stored trace. */
    ghost function Count(t: nat): nat
      requires Fixed() && KindsFit() && t < |traceIndex|
      reads `kinds, traceIndex
    {
      if kinds[t].Rectangular? || kinds[t].Round? then points else if kinds[t].Stored? then kinds[t].count else 0
    }

    /** A segment of trace t covers the pixel. */
    ghost predicate Covers(t: nat, p: Point)
      requires Fixed() && KindsFit() && t < |traceIndex|
      reads `kinds, traceIndex
    {
      exists i :: 0 <= i < Count(t) - 1 && paints(traceIndex[t][i], traceIndex[t][i + 1], p)
    }

    /** A screen that shows the scene shows, at every pixel of the area, the first of the five traces that has a segment
        there, and the paper where none has. */
    lemma ShowsTraces()
      requires Valid() && Shows(Now(), areaWidth, areaHeight, screen)
      ensures forall p :: Inside(p, areaWidth, areaHeight) ==>
        && (forall t: nat :: t < TRACES_MAX + STORED_TRACES ==>
              (screen(p) == Trace(t) <==> Covers(t, p) && forall r: nat :: r < t ==> !Covers(r, p)))
        && (screen(p) == Paper(paper(p)) <==> forall t: nat :: t < TRACES_MAX + STORED_TRACES ==> !Covers(t, p))
    {
      hide StaysInBox, Display.Valid, Hits, Covers;
      forall t: nat, p | t < |traceIndex|
        ensures Hits(paints, Lines()[t], p) <==> Covers(t, p)
      {
        CoversIsHit(t, p);
      }
      forall p | Inside(p, areaWidth, areaHeight)
        ensures forall t: nat :: t < TRACES_MAX + STORED_TRACES ==>
                  (screen(p) == Trace(t) <==> Covers(t, p) && forall r: nat :: r < t ==> !Covers(r, p))
        ensures screen(p) == Paper(paper(p)) <==> forall t: nat :: t < TRACES_MAX + STORED_TRACES ==> !Covers(t, p)
      {
        FirstOnTop(paints, Lines(), paper, 0, p);
        assert screen(p) == Picture(paints, Lines(), paper, 0, p);
      }
    }

    lemma CoversIsHit(t: nat, p: Point)
      requires Fixed() && KindsFit() && t < |traceIndex|
      ensures Hits(paints, Lines()[t], p) <==> Covers(t, p)
    {
      var pts := Visible(t);
      assert Lines()[t] == pts && |pts| == Count(t);
      assert forall i :: 0 <= i < |pts| ==> pts[i] == traceIndex[t][i];
    }

    ghost predicate Ordered()
      requires Fixed() && KindsFit()
      reads `kinds, traceIndex
    {
      forall t :: 0 <= t < |traceIndex| && kinds[t].Rectangular? ==> Sorted(traceIndex[t][..points])
    }

    ghost function Now(): Scene
      requires Fixed() && KindsFit()
      reads `kinds, `paper, traceIndex
    {
      Scene(paints, Lines(), paper)
    }

    /** Whatever is not marked already shows the current traces. */
    ghost predicate Coherent()
      requires Fixed() && KindsFit()
      reads this, markmap, traceIndex
    {
      UpToDate(display, markmap[..], Now(), areaWidth, areaHeight, screen)
    }

    /** Marks the cells of the box around a segment, and no others. */
    method MarkLine(a: Point, b: Point)
      requires display.Valid() && markmap.Length == display.Rows() && MapFits()
      requires display.InPlot(a) && display.InPlot(b)
      modifies markmap
      ensures MapFits() && Boxed(display, old(markmap[..]), markmap[..], a, b)
    {
      var x1, x2, y1, y2 := display.Col(a.x), display.Col(b.x), display.Row(a.y), display.Row(b.y);
      PlotCells(display, a);
      PlotCells(display, b);
      hide Marked, Boxed, Cells, Display.Row, Display.Col, Pow2;
      ghost var was := markmap[..];
      if x1 == x2 && y1 == y2 {
        MarkRow(y1, x1, 1);
        MarkedIsBoxed(display, was, markmap[..], a, b);
        return;
      }
      if x1 > x2 { x1, x2 := x2, x1; }
      if y1 > y2 { y1, y2 := y2, y1; }
      ghost var top := y1;
      NothingMarked(was, top, x1, x2);
      while y1 <= y2
        invariant top <= y1 <= y2 + 1
        invariant MapFits() && Marked(was, markmap[..], top, y1, x1, x2 + 1)
      {
        ghost var before := markmap[..];
        MarkRow(y1, x1, x2 - x1 + 1);
        OneMoreRow(was, before, markmap[..], top, y1, x1, x2 + 1);
        y1 := y1 + 1;
      }
      MarkedIsBoxed(display, was, markmap[..], a, b);
    }

    /** markmap[row] |= ((1 << count) - 1) << first */
    method MarkRow(row: nat, first: nat, count: nat)
      requires row < markmap.Length && MapFits() && first + count <= display.mapBits
      modifies markmap
      ensures MapFits() && Marked(old(markmap[..]), markmap[..], row, row + 1, first, first + count)
    {
      ghost var was := markmap[row];
      markmap[row] := Or(markmap[row], Ones(first, count));
      OnesFits(first, count, display.mapBits);
      OrFits(was, Ones(first, count), display.mapBits);
      hide Bit, Or, Ones, Pow2;
      forall col: nat
        ensures Bit(markmap[row], col) <==> Bit(was, col) || first <= col < first + count
      {
        BitOr(was, Ones(first, count), col);
        BitOnes(first, count, col);
      }
    }

    /** Stores point i of a trace, marking the cells of the old and new segment that end there if one of the
        ends moved. `diff` and `lastErase` carry over from the call for the point before. */
    method MarkSetIndex(index: array<Point>, i: nat, p: Point)
      requires display.Valid() && markmap.Length == display.Rows() && MapFits()
      requires i < index.Length && display.InPlot(p) && display.InPlot(index[i])
      requires i > 0 ==> display.InPlot(index[i - 1]) && display.InPlot(lastErase)
      modifies markmap, index, `diff, `lastErase
      ensures index[..] == old(index[..])[i := p]
      ensures lastErase == old(index[i]) && diff == History(old(diff), old(index[i]) != p)
      ensures MapFits()
      ensures if i > 0 && diff % 4 != 0
              then BothBoxed(display, old(markmap[..]), markmap[..], old(lastErase), old(index[i]),
                             old(index[i - 1]), p)
              else markmap[..] == old(markmap[..])
    {
      hide Boxed, Pow2;
      ghost var was := markmap[..];
      diff := 2 * diff % 0x1_0000;
      if index[i] != p { diff := diff + 1; }
      if diff % 4 != 0 && i > 0 {
        MarkLine(lastErase, index[i]);
        ghost var mid := markmap[..];
        MarkLine(index[i - 1], p);
        TwoBoxes(display, was, mid, markmap[..], lastErase, index[i], index[i - 1], p);
      }
      hide BothBoxed;
      lastErase := index[i];
      index[i] := p;
    }

    /** The rectangular grid: columns advance by a fixed-point step. */
    method PlaceHeights(index: array<Point>, ys: seq<nat>)
      requires display.Valid() && markmap.Length == display.Rows() && MapFits() && 2 <= points == |ys| <= index.Length
      requires AllInPlot(display, index[..]) && forall i :: 0 <= i < points ==> ys[i] <= display.height
      modifies markmap, index, `diff, `lastErase
      ensures MapFits() && AllInPlot(display, index[..]) && Grown(old(markmap[..]), markmap[..])
      ensures Passed(display, markmap[..], old(index[..]), index[..], points)
      ensures forall k :: 0 <= k < points ==> index[k] == Point(FixedX(display, points, k) / 0x1_0000, ys[k])
    {
      ghost var was, marks := index[..], markmap[..];
      hide Passed, Remembers, BothBoxed, History, Grown, Pow2, FixedX, Display.Valid, Display.Rows, MapFits;
      PassStart(display, marks, was, lastErase, diff);
      var dx := display.width * 0x1_0000 / (points - 1);
      var x := CELL_OFFSET * 0x1_0000 + 0x8000;
      FixedXStart(display, points);
      for i := 0 to points
        invariant MapFits() && AllInPlot(display, index[..]) && Grown(marks, markmap[..])
        invariant Passed(display, markmap[..], was, index[..], i) && Remembers(was, index[..], i, lastErase, diff)
        invariant x == FixedX(display, points, i)
        invariant forall k :: 0 <= k < i ==> index[k] == Point(FixedX(display, points, k) / 0x1_0000, ys[k])
      {
        FixedXOrdered(display, points, i, i);
        ghost var last, d, now, m := lastErase, diff, index[..], markmap[..];
        if i > 0 { assert last == was[i - 1] by { RememberedPoint(was, now, i, last, d); } }
        MarkSetIndex(index, i, Point(x / 0x1_0000, ys[i]));
        PointDone(display, marks, m, markmap[..], was, now, i, Point(x / 0x1_0000, ys[i]), last, d);
        FixedXNext(display, points, i);
        x := x + dx;
      }
    }

    /** The round grid. */
    method PlacePoints(index: array<Point>, pts: seq<Point>)
      requires display.Valid() && markmap.Length == display.Rows() && MapFits() && 2 <= points == |pts| <= index.Length
      requires AllInPlot(display, index[..]) && AllInPlot(display, pts)
      modifies markmap, index, `diff, `lastErase
      ensures MapFits() && AllInPlot(display, index[..]) && Grown(old(markmap[..]), markmap[..])
      ensures Passed(display, markmap[..], old(index[..]), index[..], points)
      ensures index[..points] == pts
    {
      ghost var was, marks := index[..], markmap[..];
      hide Passed, Remembers, BothBoxed, History, Grown, Pow2, Display.Valid, Display.Rows, MapFits;
      PassStart(display, marks, was, lastErase, diff);
      for i := 0 to points
        invariant MapFits() && AllInPlot(display, index[..]) && Grown(marks, markmap[..])
        invariant Passed(display, markmap[..], was, index[..], i) && Remembers(was, index[..], i, lastErase, diff)
        invariant forall k :: 0 <= k < i ==> index[k] == pts[k]
      {
        ghost var last, d, now, m := lastErase, diff, index[..], markmap[..];
        if i > 0 { assert last == was[i - 1] by { RememberedPoint(was, now, i, last, d); } }
        MarkSetIndex(index, i, pts[i]);
        PointDone(display, marks, m, markmap[..], was, now, i, pts[i], last, d);
      }
    }

    /** Computes the points of trace t from a sweep and stores them one by one. */
    method TraceIntoIndex(t: nat, v: Values)
      requires Valid() && t < TRACES_MAX && !kinds[t].Off? && Fits(display, kinds[t], points, v)
      modifies markmap, traceIndex[t], `diff, `lastErase
      ensures Valid() && traceIndex[t][..points] == Positions(display, points, v)
      ensures Grown(old(markmap[..]), markmap[..])
      ensures Passed(display, markmap[..], old(traceIndex[t][..]), traceIndex[t][..], points)
    {
      hide Passed, Grown, Pow2, FixedX;
      var index := traceIndex[t];
      match v {
        case Heights(ys) => PlaceHeights(index, ys);
        case Places(pts) => PlacePoints(index, pts);
      }
      assert forall i :: 0 <= i < index.Length ==> index[..][i] == index[i];
      hide Display.Valid, Display.Rows;
    }

    ghost function Memory(): (r: seq<seq<Point>>)
      reads traceIndex
      ensures |r| == |traceIndex| && forall t :: 0 <= t < |r| ==> r[t] == traceIndex[t][..]
    {
      MemoryTo(|traceIndex|)
    }

    ghost function MemoryTo(n: nat): (r: seq<seq<Point>>)
      requires n <= |traceIndex|
      reads traceIndex
      ensures |r| == n && forall t :: 0 <= t < n ==> r[t] == traceIndex[t][..]
    {
      if n == 0 then [] else MemoryTo(n - 1) + [traceIndex[n - 1][..]]
    }

    /** Traces 0 .. n - 1 hold the new sweep, unless they are off, and the others what they held. */
    ghost predicate Refreshed(n: nat, data: seq<Values>, was: seq<seq<Point>>)
      requires Fixed() && KindsFit() && n <= TRACES_MAX == |data|
      reads `kinds, traceIndex
    {
      && |was| == |traceIndex|
      && (forall t :: 0 <= t < |was| && (n <= t || kinds[t].Off?) ==> traceIndex[t][..] == was[t])
      && (forall t :: 0 <= t < n && !kinds[t].Off? ==> traceIndex[t][..points] == Positions(display, points, data[t]))
    }

    /** Puts one sweep into the trace memory. */
    method PlotIntoIndex(data: seq<Values>)
      requires Valid() && |data| == TRACES_MAX
      requires forall t :: 0 <= t < TRACES_MAX ==> Fits(display, kinds[t], points, data[t])
      modifies markmap, traceIndex, `diff, `lastErase
      ensures Valid() && Ordered() && (old(Coherent()) ==> Coherent())
      ensures Refreshed(TRACES_MAX, data, old(Memory()))
    {
      ghost var was := Memory();
      hide UpToDate, Positions, Pow2, Display.Valid, Display.Rows, StaysInBox;
      for t := 0 to TRACES_MAX
        invariant Valid() && (old(Coherent()) ==> Coherent())
        invariant Refreshed(t, data, was)
      {
        hide Refreshed;
        if kinds[t].Off? {
          SkipOff(t, data, was);
        } else {
          RefreshNext(t, data, was);
        }
      }
      RefreshedOrdered(data, was);
    }

    lemma SkipOff(t: nat, data: seq<Values>, was: seq<seq<Point>>)
      requires Fixed() && KindsFit() && |data| == TRACES_MAX && t < TRACES_MAX && kinds[t].Off?
      requires Refreshed(t, data, was)
      ensures Refreshed(t + 1, data, was)
    {}

    lemma RefreshedOrdered(data: seq<Values>, was: seq<seq<Point>>)
      requires Fixed() && KindsFit() && |data| == TRACES_MAX
      requires forall t :: 0 <= t < TRACES_MAX ==> Fits(display, kinds[t], points, data[t])
      requires Refreshed(TRACES_MAX, data, was)
      ensures Ordered()
    {
      hide Display.Valid, Display.Rows, StaysInBox, Positions, Sorted;
      forall t | 0 <= t < |traceIndex| && kinds[t].Rectangular?
        ensures Sorted(traceIndex[t][..points])
      {
        PositionsSorted(display, points, data[t].ys);
      }
    }

    method RefreshNext(t: nat, data: seq<Values>, ghost was: seq<seq<Point>>)
      requires Valid() && t < TRACES_MAX == |data| && !kinds[t].Off? && Fits(display, kinds[t], points, data[t])
      requires Refreshed(t, data, was)
      modifies markmap, traceIndex[t], `diff, `lastErase
      ensures Valid() && (old(Coherent()) ==> Coherent())
      ensures Refreshed(t + 1, data, was)
    {
      hide UpToDate, Positions, Pow2, Display.Valid, Display.Rows, StaysInBox, Coherent;
      assert forall s :: 0 <= s < |was| && s != t ==> traceIndex[s] != traceIndex[t];
      RefreshTrace(t, data[t]);
    }

    /** One trace, keeping the screen coherent. */
    method RefreshTrace(t: nat, v: Values)
      requires Valid() && t < TRACES_MAX && !kinds[t].Off? && Fits(display, kinds[t], points, v)
      modifies markmap, traceIndex[t], `diff, `lastErase
      ensures Valid() && (old(Coherent()) ==> Coherent())
      ensures traceIndex[t][..points] == Positions(display, points, v)
    {
      ghost var scene, marks, held := Now(), markmap[..], traceIndex[t][..];
      TraceIntoIndex(t, v);
      hide UpToDate, Positions, Pow2, Display.Rows, StaysInBox, Passed, Grown;
      ghost var now := traceIndex[t][..];
      if kinds[t].Blank? {
        assert Lines() == scene.lines;
        MoreMarks(display, marks, markmap[..], scene, areaWidth, areaHeight, screen);
      } else {
        assert Lines() == scene.lines[t := now[..points]];
        PassedPart(display, markmap[..], held, now, points);
        if UpToDate(display, marks, scene, areaWidth, areaHeight, screen) {
          PassKeepsUpToDate(display, marks, markmap[..], scene, areaWidth, areaHeight, screen, t, now[..points]);
        }
      }
    }

    // ---- drawing ----

    function TracesPoints(t: nat): nat
      requires t < |kinds| && 1 <= points
      reads `kinds
    {
      match kinds[t]
      case Off => 0
      case Stored(count) => if count == 0 then 0 else count - 1
      case _ => points - 1
    }

    /** Draws segments i0 .. i1 - 1 of a trace over what the cell holds. */
    method DrawSegments(t: nat, index: array<Point>, i0: nat, i1: nat, cell: Point -> Ink) returns (r: Point -> Ink)
      requires i0 <= i1 < index.Length
      ensures forall p :: r(p) == if HitsIn(paints, index[..], i0, i1, p) then Trace(t) else cell(p)
    {
      r := cell;
      for i := i0 to i1
        invariant forall p :: r(p) == if HitsIn(paints, index[..], i0, i, p) then Trace(t) else cell(p)
      {
        var before, paints, a, b := r, paints, index[i], index[i + 1];
        r := p => if paints(a, b, p) then Trace(t) else before(p);
      }
    }

    /** The segments of a drawn trace to try in columns x0 .. x0 + w - 1. */
    method SegmentRange(t: nat, x0: nat, w: nat) returns (i0: nat, i1: nat)
      requires Valid() && Ordered() && t < |traceIndex| && 0 < w && TracesPoints(t) != 0 && !kinds[t].Blank?
      ensures i0 <= i1 < traceIndex[t].Length
      ensures forall p: Point :: x0 <= p.x < x0 + w ==>
                (HitsIn(paints, traceIndex[t][..], i0, i1, p) <==> Hits(paints, Visible(t), p))
    {
      hide StaysInBox, Sorted, Display.Valid, Display.Rows, Pow2, MapFits, Culls, HitsIn, Hits;
      var n := TracesPoints(t);
      var index := traceIndex[t];
      i0, i1 := 0, n;
      if kinds[t].Rectangular? {
        i0, i1 := SearchIndexRangeX(x0, x0 + w, index, n);
      } else {
        AllCulled(index[..n + 1], x0, x0 + w);
      }
      RangeIsAll(paints, index[..], index[..n + 1], x0, x0 + w, i0, i1);
    }

    /** One trace of one cell. */
    method DrawTrace(t: nat, x0: nat, w: nat, cell: Point -> Ink) returns (r: Point -> Ink)
      requires Valid() && Ordered() && t < |traceIndex| && 0 < w
      ensures forall p: Point :: x0 <= p.x < x0 + w ==>
              r(p) == if Hits(paints, Visible(t), p) then Trace(t) else cell(p)
    {
      hide StaysInBox, Sorted, Display.Valid, Display.Rows, Pow2, MapFits;
      if TracesPoints(t) == 0 || kinds[t].Blank? { return cell; }
      hide HitsIn, Hits, Visible;
      var i0, i1 := SegmentRange(t, x0, w);
      r := DrawSegments(t, traceIndex[t], i0, i1, cell);
    }

    /** The traces over the grid, in columns x0 .. x0 + w - 1: the last trace first, so that the first is on top. */
    method RenderCell(x0: nat, w: nat) returns (cell: Point -> Ink)
      requires Valid() && Ordered() && 0 < w
      ensures forall p: Point :: x0 <= p.x < x0 + w ==> cell(p) == Now().At(p)
    {
      hide Display.Row, Display.Col, Display.Valid, Display.Rows, Pow2, StaysInBox, Hits, Sorted, Visible, MapFits;
      var below := paper;
      cell := p => Paper(below(p));
      var t: nat := |traceIndex|;
      ghost var lines := Lines();
      while t > 0
        invariant t <= |traceIndex|
        invariant forall p: Point :: x0 <= p.x < x0 + w ==> cell(p) == Picture(paints, lines, paper, t, p)
      {
        t := t - 1;
        cell := DrawTrace(t, x0, w, cell);
        assert lines[t] == Visible(t);
      }
    }

    /** Renders one cell, clipped to the plot area, and sends it to the screen. */
    method DrawCell(m: nat, n: nat)
      requires Valid() && Ordered()
      modifies `screen
      ensures forall p :: screen(p) ==
                if Inside(p, areaWidth, areaHeight) && display.Row(p.y) == n && display.Col(p.x) == m then Now().At(p)
                else old(screen)(p)
    {
      var x0: nat, y0: nat := m * display.cellWidth, n * display.cellHeight;
      CellBounds(display, m, n, x0, y0);
      hide Display.Row, Display.Col, Display.Valid, Display.Rows, Pow2, StaysInBox, Hits, Sorted, Ordered, Scene.At;
      var w: int, h: int := display.cellWidth, display.cellHeight;
      if w > areaWidth - x0 { w := areaWidth - x0; }
      if h > areaHeight - y0 { h := areaHeight - y0; }
      if w <= 0 || h <= 0 { return; }
      var cell := RenderCell(x0, w);
      Send(x0, y0, w, h, cell);
    }

    /** The w by h pixels of a rendered cell appear on the screen. */
    method Send(x0: nat, y0: nat, w: nat, h: nat, cell: Point -> Ink)
      modifies `screen
      ensures forall p: Point :: screen(p) ==
                if x0 <= p.x < x0 + w && y0 <= p.y < y0 + h then cell(p) else old(screen)(p)
    {
      var shown := screen;
      screen := (p: Point) => if x0 <= p.x < x0 + w && y0 <= p.y < y0 + h then cell(p) else shown(p);
    }

    /** Renders the marked cells of the area and clears the map. */
    method DrawAllCells()
      requires Valid() && Ordered()
      modifies `screen, markmap
      ensures Valid() && forall row :: 0 <= row < markmap.Length ==> markmap[row] == 0
      ensures Redrawn(display, old(markmap[..]), Now(), areaWidth, areaHeight, old(screen), screen)
    {
      RowsOfArea(display, areaHeight);
      hide Display.Row, Display.Col, Display.Rows, Display.Valid, Pow2, Bit, StaysInBox, Ordered, Sorted, Scene.At,
           Drawn, Redrawn;
      var w, h := CellsOf(areaWidth, display.cellWidth), CellsOf(areaHeight, display.cellHeight);
      ghost var marks, scene, before := markmap[..], Now(), screen;
      NothingDrawn(display, marks, scene, areaWidth, areaHeight, screen);
      for n := 0 to h
        modifies `screen
        invariant Drawn(display, marks, scene, areaWidth, areaHeight, before, screen, n, 0)
      {
        DrawRow(n, w, before);
      }
      AllDrawn(display, marks, scene, areaWidth, areaHeight, before, screen);
      ClearMarkmap();
    }

    /** One row of cells: the mask is shifted out bit by bit, and ends the row when it is empty. */
    method DrawRow(n: nat, w: nat, ghost before: Point -> Ink)
      requires Valid() && Ordered() && n < markmap.Length && w == CellsOf(areaWidth, display.cellWidth)
      requires Drawn(display, markmap[..], Now(), areaWidth, areaHeight, before, screen, n, 0)
      modifies `screen
      ensures Drawn(display, markmap[..], Now(), areaWidth, areaHeight, before, screen, n + 1, 0)
    {
      hide Display.Row, Display.Col, Display.Rows, Display.Valid, Pow2, Bit, StaysInBox, Ordered, Sorted, Scene.At,
           Drawn, Cells;
      ghost var marks, scene := markmap[..], Now();
      var updateMap, m := markmap[n], 0;
      while updateMap != 0 && m < w
        invariant m <= w && Tail(updateMap, markmap[n], m)
        invariant Drawn(display, marks, scene, areaWidth, areaHeight, before, screen, n, m)
      {
        ghost var shown := screen;
        if updateMap % 2 == 1 {
          DrawCell(m, n);
        }
        ShiftTail(updateMap, markmap[n], m);
        CellDrawn(display, marks, scene, areaWidth, areaHeight, before, shown, screen, n, m, updateMap);
        updateMap, m := updateMap / 2, m + 1;
      }
      RowDrawn(display, marks, scene, areaWidth, areaHeight, before, screen, n, m, updateMap);
    }

    method ClearMarkmap()
      modifies markmap
      ensures MapFits() && forall row :: 0 <= row < markmap.Length ==> markmap[row] == 0
    {
      var n: nat := markmap.Length;
      while n > 0
        invariant n <= markmap.Length && forall row :: n <= row < markmap.Length ==> markmap[row] == 0
      {
        n := n - 1;
        markmap[n] := 0;
      }
    }

    /** Marks every cell. */
    method ForceSetMarkmap()
      requires Valid()
      modifies markmap
      ensures Valid() && Coherent()
    {
      hide Bit, StaysInBox;
      var all := Ones(0, display.mapBits);
      OnesFits(0, display.mapBits, display.mapBits);
      var n: nat := markmap.Length;
      while n > 0
        invariant n <= markmap.Length && forall row :: n <= row < markmap.Length ==> markmap[row] == all
        invariant MapFits()
      {
        n := n - 1;
        markmap[n] := all;
      }
      AllMarked(display, markmap[..], Now(), areaWidth, areaHeight, screen);
    }

    /** Serves the redraw requests: new data, the whole area, or marked cells only. */
    method DrawAll(plot: bool, data: seq<Values>, area: bool)
      requires Valid() && (plot || Ordered())
      requires plot ==> |data| == TRACES_MAX && forall t :: 0 <= t < TRACES_MAX ==>
               Fits(display, kinds[t], points, data[t])
      requires area || Coherent()
      modifies markmap, traceIndex, `diff, `lastErase, `screen
      ensures Valid() && Ordered() && Coherent()
      ensures if plot then Refreshed(TRACES_MAX, data, old(Memory())) else Memory() == old(Memory())
      ensures Complete(Now(), areaWidth, areaHeight, old(screen), screen)
    {
      hide UpToDate, Complete, Refreshed, Ordered, Pow2, Display.Valid, Display.Rows, StaysInBox;
      if plot { PlotIntoIndex(data); }
      DrawCells(area);
    }

    method DrawCells(area: bool)
      requires Valid() && Ordered() && (area || Coherent())
      modifies markmap, `screen
      ensures Valid() && Coherent()
      ensures Complete(Now(), areaWidth, areaHeight, old(screen), screen)
    {
      hide UpToDate, Complete, Redrawn, Ordered, Pow2, Display.Valid, Display.Rows, StaysInBox;
      ghost var before, scene := screen, Now();
      if areaWidth == 0 {
        NoArea(display, markmap[..], scene, areaHeight, screen);
        return;
      }
      if area { ForceSetMarkmap(); }
      ghost var marks := markmap[..];
      DrawAllCells();
      Finished(display, marks, markmap[..], scene, areaWidth, areaHeight, before, screen);
    }

    /** Everything that happens to the plot: a sweep, or new settings, which redraw the whole area. */
    method Run(events: seq<Event>)
      requires Valid() && Legal(events, kinds)
      requires (events != [] && events[0].Change?) || Coherent()
      modifies this, markmap, traceIndex
      ensures Valid() && (events != [] || old(Coherent()) ==> Coherent())
      ensures events != [] ==> Shows(Now(), areaWidth, areaHeight, screen)
    {
      hide UpToDate, Refreshed, Shows, Ordered, Legal, Display.Valid, MapFits, StaysInBox;
      for i := 0 to |events|
        invariant Valid() && Legal(events[i..], kinds)
        invariant (i < |events| && events[i].Change?) || (i == 0 && events == []) || Coherent()
        invariant i == 0 ==> old(Coherent()) == Coherent()
        invariant i > 0 ==> Coherent() && Shows(Now(), areaWidth, areaHeight, screen)
      {
        LegalStep(events, i, kinds);
        Serve(events[i]);
      }
    }

    method Serve(event: Event)
      requires Valid() && Allowed(event, kinds) && (event.Change? || Coherent())
      modifies this, markmap, traceIndex
      ensures Valid() && Coherent() && Shows(Now(), areaWidth, areaHeight, screen)
      ensures kinds == if event.Change? then event.kinds else old(kinds)
    {
      hide UpToDate, Refreshed, Shows, Ordered, Fixed, MapFits, StaysInBox;
      match event {
        case Sweep(data) =>
          DrawAll(true, data, false);
        case Change(kinds', paper', width', height', data) =>
          kinds, paper, areaWidth, areaHeight := kinds', paper', width', height';
          DrawAll(true, data, true);
      }
    }

    lemma LegalStep(events: seq<Event>, i: nat, kinds: seq<Kind>)
      requires AreKinds(kinds) && |traceIndex| == TRACES_MAX + STORED_TRACES
      requires i < |events| && Legal(events[i..], kinds)
      ensures Allowed(events[i], kinds)
      ensures Legal(events[i + 1..], if events[i].Change? then events[i].kinds else kinds)
    {
      assert events[i..][1..] == events[i + 1..];
    }

    ghost predicate Legal(events: seq<Event>, kinds: seq<Kind>)
      requires AreKinds(kinds) && |traceIndex| == TRACES_MAX + STORED_TRACES
    {
      events == [] ||
      (Allowed(events[0], kinds) && Legal(events[1..], if events[0].Change? then events[0].kinds else kinds))
    }

    ghost predicate Allowed(event: Event, kinds: seq<Kind>)
      requires AreKinds(kinds) && |traceIndex| == TRACES_MAX + STORED_TRACES
    {
      match event
      case Sweep(data) => AllFit(kinds, data)
      case Change(k, _, w, h, data) =>
        AreKinds(k) && w <= display.AreaWidth() && h <= display.AreaHeight() && AllFit(k, data)
    }

    ghost predicate AllFit(kinds: seq<Kind>, data: seq<Values>)
      requires AreKinds(kinds) && |traceIndex| == TRACES_MAX + STORED_TRACES
    {
      |data| == TRACES_MAX && forall t :: 0 <= t < TRACES_MAX ==> Fits(display, kinds[t], points, data[t])
    }
  }

  datatype Event =
    | Sweep(data: seq<Values>)
    | Change(kinds: seq<Kind>, paper: Point -> int, width: nat, height: nat, data: seq<Values>)

  ghost predicate Shows(s: Scene, width: nat, height: nat, screen: Point -> Ink) {
    forall p :: Inside(p, width, height) ==> screen(p) == s.At(p)
  }

  /** The area shows the scene, and outside it nothing was drawn. */
  ghost predicate Complete(s: Scene, width: nat, height: nat, before: Point -> Ink, screen: Point -> Ink) {
    Shows(s, width, height, screen) && forall p :: !Inside(p, width, height) ==> screen(p) == before(p)
  }

  lemma NoArea(d: Display, marks: seq<nat>, s: Scene, height: nat, screen: Point -> Ink)
    requires d.Valid()
    ensures UpToDate(d, marks, s, 0, height, screen) && Complete(s, 0, height, screen, screen)
  {}

  /** Drawing the marked cells of a screen that was up to date leaves no wrong pixel. */
  lemma Finished(d: Display, marks: seq<nat>, clear: seq<nat>, s: Scene, width: nat, height: nat,
                 before: Point -> Ink, screen: Point -> Ink)
    requires d.Valid() && UpToDate(d, marks, s, width, height, before)
    requires Redrawn(d, marks, s, width, height, before, screen)
    ensures UpToDate(d, clear, s, width, height, screen)
    ensures Complete(s, width, height, before, screen)
  {
    hide Lit, Scene.At, Display.Row, Display.Col;
  }

  /** Number of cells that n pixels need, of size c. */
  function CellsOf(n: nat, c: nat): nat { if c == 0 then 0 else Cells(n, c) }

  lemma RowsOfArea(d: Display, height: nat)
    requires d.Valid() && height <= d.AreaHeight()
    ensures CellsOf(height, d.cellHeight) <= d.Rows()
  {
    QuotientMonotone(height + d.cellHeight - 1, d.lcdHeight + d.cellHeight - 1, d.cellHeight);
  }

  /** The marked cells of rows 0 .. n - 1, and of row n up to column m, show the scene; the rest is as before. */
  ghost predicate Drawn(d: Display, marks: seq<nat>, s: Scene, width: nat, height: nat, before: Point -> Ink,
                        screen: Point -> Ink, n: nat, m: nat)
    requires d.Valid()
  {
    forall p :: screen(p) ==
      if Inside(p, width, height) && (d.Row(p.y) < n || (d.Row(p.y) == n && d.Col(p.x) < m)) &&
         Lit(marks, d.Row(p.y), d.Col(p.x))
      then s.At(p) else before(p)
  }

  /** Exactly the marked cells of the area were rendered. */
  ghost predicate Redrawn(d: Display, marks: seq<nat>, s: Scene, width: nat, height: nat, before: Point -> Ink,
                          screen: Point -> Ink)
    requires d.Valid()
  {
    forall p :: screen(p) ==
      if Inside(p, width, height) && Lit(marks, d.Row(p.y), d.Col(p.x)) then s.At(p) else before(p)
  }

  lemma NothingDrawn(d: Display, marks: seq<nat>, s: Scene, width: nat, height: nat, screen: Point -> Ink)
    requires d.Valid()
    ensures Drawn(d, marks, s, width, height, screen, screen, 0, 0)
  {}

  /** What is left of a mask after m shifts. */
  ghost predicate Tail(tail: nat, mask: nat, m: nat) { forall k: nat :: Bit(tail, k) <==> Bit(mask, m + k) }

  lemma ShiftTail(tail: nat, mask: nat, m: nat)
    requires Tail(tail, mask, m)
    ensures Tail(tail / 2, mask, m + 1) && (tail % 2 == 1 <==> Bit(mask, m))
  {
    assert Bit(tail, 0) <==> Bit(mask, m + 0);
    forall k: nat
      ensures Bit(tail / 2, k) <==> Bit(mask, m + 1 + k)
    {
      assert Bit(tail, k + 1) <==> Bit(mask, m + (k + 1));
    }
  }

  lemma CellDrawn(d: Display, marks: seq<nat>, s: Scene, width: nat, height: nat, before: Point -> Ink,
                  shown: Point -> Ink, screen: Point -> Ink, n: nat, m: nat, updateMap: nat)
    requires d.Valid() && n < |marks| && (updateMap % 2 == 1 <==> Bit(marks[n], m))
    requires Drawn(d, marks, s, width, height, before, shown, n, m)
    requires if updateMap % 2 == 1
      then forall p :: screen(p) ==
             if Inside(p, width, height) && d.Row(p.y) == n && d.Col(p.x) == m then s.At(p) else shown(p)
      else screen == shown
    ensures Drawn(d, marks, s, width, height, before, screen, n, m + 1)
  {
    hide Bit, Scene.At, Display.Row, Display.Col;
  }

  lemma RowDrawn(d: Display, marks: seq<nat>, s: Scene, width: nat, height: nat, before: Point -> Ink,
                 screen: Point -> Ink, n: nat, m: nat, updateMap: nat)
    requires d.Valid() && n < |marks| && Tail(updateMap, marks[n], m)
    requires updateMap == 0 || m == CellsOf(width, d.cellWidth)
    requires Drawn(d, marks, s, width, height, before, screen, n, m)
    ensures Drawn(d, marks, s, width, height, before, screen, n + 1, 0)
  {
    forall p | Inside(p, width, height) && d.Row(p.y) == n && m <= d.Col(p.x)
      ensures !Lit(marks, n, d.Col(p.x))
    {
      if updateMap == 0 {
        NoBits(d.Col(p.x) - m);
        assert Bit(updateMap, d.Col(p.x) - m) <==> Bit(marks[n], m + (d.Col(p.x) - m));
      } else {
        InCells(p.x, width, d.cellWidth);
        assert false;
      }
    }
    hide Bit, Scene.At, Display.Row, Display.Col;
  }

  lemma AllDrawn(d: Display, marks: seq<nat>, s: Scene, width: nat, height: nat, before: Point -> Ink,
                 screen: Point -> Ink)
    requires d.Valid() && Drawn(d, marks, s, width, height, before, screen, CellsOf(height, d.cellHeight), 0)
    ensures Redrawn(d, marks, s, width, height, before, screen)
  {
    forall p | Inside(p, width, height)
      ensures d.Row(p.y) < CellsOf(height, d.cellHeight)
    {
      InCells(p.y, height, d.cellHeight);
    }
    hide Bit, Scene.At, Display.Row, Display.Col, Cells;
  }

  lemma AllMarked(d: Display, marks: seq<nat>, s: Scene, width: nat, height: nat, screen: Point -> Ink)
    requires d.Valid() && |marks| == d.Rows() && forall row :: 0 <= row < |marks| ==> marks[row] == Ones(0, d.mapBits)
    requires width <= d.AreaWidth() && height <= d.AreaHeight()
    ensures UpToDate(d, marks, s, width, height, screen)
  {
    forall p | Inside(p, width, height)
      ensures Lit(marks, d.Row(p.y), d.Col(p.x))
    {
      InCells(p.x, d.lcdWidth, d.cellWidth);
      InCells(p.y, d.lcdHeight, d.cellHeight);
      BitOnes(0, d.mapBits, d.Col(p.x));
    }
  }

  lemma FirstPart(paints: Painter, pts: seq<Point>, n: nat, i0: nat, i1: nat, p: Point)
    requires i0 <= i1 < n <= |pts|
    ensures HitsIn(paints, pts[..n], i0, i1, p) <==> HitsIn(paints, pts, i0, i1, p)
  {
    var part := pts[..n];
    assert forall i :: 0 <= i < n ==> part[i] == pts[i];
  }

  lemma RangeIsAll(paints: Painter, pts: seq<Point>, part: seq<Point>, x1: int, x2: int, i0: nat, i1: nat)
    requires 1 <= |part| <= |pts| && part == pts[..|part|] && StaysInBox(paints)
    requires i0 <= i1 < |part| && Culls(part, x1, x2, i0, i1)
    ensures forall p: Point :: x1 <= p.x < x2 ==> (HitsIn(paints, pts, i0, i1, p) <==> Hits(paints, part, p))
  {
    hide Culls, HitsIn, Hits, StaysInBox;
    forall p: Point | x1 <= p.x < x2
      ensures HitsIn(paints, pts, i0, i1, p) <==> Hits(paints, part, p)
    {
      CullingIsSound(paints, part, x1, x2, i0, i1, p);
      FirstPart(paints, pts, |part|, i0, i1, p);
    }
  }

  /** Taking every segment culls nothing. */
  lemma AllCulled(pts: seq<Point>, x1: int, x2: int)
    requires 1 <= |pts|
    ensures Culls(pts, x1, x2, 0, |pts| - 1)
  {}

  /** A pixel is in cell m, n exactly when it lies in the cell's rectangle. */
  lemma CellBounds(d: Display, m: nat, n: nat, x0: nat, y0: nat)
    requires d.Valid() && x0 == m * d.cellWidth && y0 == n * d.cellHeight
    ensures 0 < d.cellWidth && 0 < d.cellHeight
    ensures forall p: Point :: d.Col(p.x) == m <==> x0 <= p.x < x0 + d.cellWidth
    ensures forall p: Point :: d.Row(p.y) == n <==> y0 <= p.y < y0 + d.cellHeight
  {
    forall p: Point
      ensures d.Col(p.x) == m <==> x0 <= p.x < x0 + d.cellWidth
      ensures d.Row(p.y) == n <==> y0 <= p.y < y0 + d.cellHeight
    {
      QuotientIs(p.x, d.cellWidth, m);
      QuotientIs(p.y, d.cellHeight, n);
    }
  }

  lemma MoreMarks(d: Display, marks: seq<nat>, more: seq<nat>, s: Scene, width: nat, height: nat, screen: Point -> Ink)
    requires d.Valid() && Grown(marks, more)
    ensures UpToDate(d, marks, s, width, height, screen) ==> UpToDate(d, more, s, width, height, screen)
  {
    hide Lit;
  }

  lemma PositionsSorted(d: Display, points: nat, ys: seq<nat>)
    requires 2 <= points == |ys|
    ensures Sorted(Positions(d, points, Heights(ys)))
  {
    hide FixedX;
    var r := Positions(d, points, Heights(ys));
    forall i, j | 0 <= i < j < |r|
      ensures r[i].x <= r[j].x
    {
      FixedXOrdered(d, points, i, j);
    }
  }

  ghost predicate AllInPlot(d: Display, pts: seq<Point>) { forall k :: 0 <= k < |pts| ==> d.InPlot(pts[k]) }

  /** The boxes of two segments were marked and nothing else changed. */
  ghost predicate BothBoxed(d: Display, was: seq<nat>, now: seq<nat>, a: Point, b: Point, e: Point, f: Point)
    requires d.Valid()
  {
    && |was| == |now|
    && forall row: nat, col: nat :: row < |was| ==>
         (Bit(now[row], col) <==> Bit(was[row], col) || d.Touches(a, b, row, col) || d.Touches(e, f, row, col))
  }

  lemma TwoBoxes(d: Display, was: seq<nat>, mid: seq<nat>, now: seq<nat>, a: Point, b: Point, e: Point, f: Point)
    requires d.Valid() && Boxed(d, was, mid, a, b) && Boxed(d, mid, now, e, f)
    ensures BothBoxed(d, was, now, a, b, e, f)
  {
    hide Bit, Display.Touches;
  }

  lemma PassStart(d: Display, marks: seq<nat>, was: seq<Point>, last: Point, diff: nat)
    requires d.Valid()
    ensures Passed(d, marks, was, was, 0) && Remembers(was, was, 0, last, diff) && Grown(marks, marks)
  {}

  lemma RememberedPoint(was: seq<Point>, now: seq<Point>, i: nat, last: Point, diff: nat)
    requires 0 < i <= |was| == |now| && Remembers(was, now, i, last, diff)
    ensures last == was[i - 1]
  {}

  lemma FixedXStart(d: Display, points: nat)
    requires 2 <= points
    ensures FixedX(d, points, 0) == CELL_OFFSET * 0x1_0000 + 0x8000
  {}

  lemma FixedXNext(d: Display, points: nat, i: nat)
    requires 2 <= points
    ensures FixedX(d, points, i + 1) == FixedX(d, points, i) + d.width * 0x1_0000 / (points - 1)
  {
    var dx := d.width * 0x1_0000 / (points - 1);
    assert dx * (i + 1) == dx * i + dx;
  }

  /** One call of MarkSetIndex advances the pass. */
  lemma PointDone(d: Display, start: seq<nat>, marks: seq<nat>, more: seq<nat>, was: seq<Point>, now: seq<Point>,
                  i: nat, p: Point, last: Point, diff: nat)
    requires d.Valid() && i < |was| && Passed(d, marks, was, now, i) && Remembers(was, now, i, last, diff)
    requires Grown(start, marks)
    requires if i > 0 && History(diff, now[i] != p) % 4 != 0
             then BothBoxed(d, marks, more, last, now[i], now[i - 1], p)
             else more == marks
    ensures |now| == |was| && Passed(d, more, was, now[i := p], i + 1) && Grown(start, more)
    ensures Remembers(was, now[i := p], i + 1, now[i], History(diff, now[i] != p))
  {
    assert now[i] == was[i] by { assert was[i..][0] == now[i..][0]; }
    hide Passed, Remembers, History;
    if i > 0 && History(diff, was[i] != p) % 4 != 0 { BoxesCover(d, marks, more, last, was[i], now[i - 1], p); }
    hide BothBoxed, Covered;
    assert Grown(marks, more);
    PassStep(d, marks, more, was, now, i, p, last, diff);
  }

  lemma BoxesCover(d: Display, was: seq<nat>, now: seq<nat>, a: Point, b: Point, e: Point, f: Point)
    requires d.Valid() && BothBoxed(d, was, now, a, b, e, f)
    ensures Covered(d, now, a, b) && Covered(d, now, e, f) && Grown(was, now)
  {
    hide Bit, Display.Touches;
  }

  /** The bits in rows top .. bottom - 1 and columns left .. right - 1 were set and no others changed. */
  ghost predicate Marked(was: seq<nat>, now: seq<nat>, top: nat, bottom: nat, left: nat, right: nat) {
    && |was| == |now|
    && forall row: nat, col: nat :: row < |was| ==>
         (Bit(now[row], col) <==> Bit(was[row], col) || (top <= row < bottom && left <= col < right))
  }

  /** Exactly the cells of the box around the segment were marked. */
  ghost predicate Boxed(d: Display, was: seq<nat>, now: seq<nat>, a: Point, b: Point)
    requires d.Valid()
  {
    && |was| == |now|
    && forall row: nat, col: nat :: row < |was| ==>
       (Bit(now[row], col) <==> Bit(was[row], col) || d.Touches(a, b, row, col))
  }

  lemma NothingMarked(was: seq<nat>, top: nat, left: nat, right: nat)
    ensures Marked(was, was, top, top, left, right + 1)
  {}

  lemma OneMoreRow(was: seq<nat>, before: seq<nat>, now: seq<nat>, top: nat, row: nat, left: nat, right: nat)
    requires top <= row && Marked(was, before, top, row, left, right) && Marked(before, now, row, row + 1, left, right)
    ensures Marked(was, now, top, row + 1, left, right)
  {
    hide Bit;
  }

  lemma MarkedIsBoxed(d: Display, was: seq<nat>, now: seq<nat>, a: Point, b: Point)
    requires d.Valid()
    requires var x1, x2, y1, y2 := d.Col(a.x), d.Col(b.x), d.Row(a.y), d.Row(b.y);
      Marked(was, now, if y1 < y2 then y1 else y2, if y1 < y2 then y2 + 1 else y1 + 1,
                       if x1 < x2 then x1 else x2, if x1 < x2 then x2 + 1 else x1 + 1)
    ensures Boxed(d, was, now, a, b)
  {
    hide Bit, Display.Row, Display.Col;
  }

  lemma PlotCells(d: Display, p: Point)
    requires d.Valid() && d.InPlot(p)
    ensures d.Col(p.x) < Cells(d.lcdWidth, d.cellWidth) <= d.mapBits && d.Row(p.y) < d.Rows()
  {
    InCells(p.x, d.lcdWidth, d.cellWidth);
    InCells(p.y, d.lcdHeight, d.cellHeight);
  }
}
