/** The line algorithm (lcd.c): a modified Bresenham that streams pixels into one-row windows of the display. */
module Line {
  import opened Arithmetic
  import Redraw

  datatype Pixel = Pixel(x: int, y: int)

  function Distance(u: int, v: int): nat { if u < v then v - u else u - v }
  function Max(u: nat, v: nat): nat { if u < v then v else u }

  /** Steps along the longer side. */
  function Steps(a: Pixel, b: Pixel): nat { Max(Distance(a.x, b.x), Distance(a.y, b.y)) }

  /** How far k moves along the shorter side m are from the ideal line after i steps along the longer side n,
      in units of 1 / n pixel. */
  function Gap(n: nat, m: nat, i: int, k: int): int { k * n - i * m }

  /** The number of moves whose gap lies in [-n/2, n - n/2). */
  function Minor(n: nat, m: nat, i: nat): int
    requires 0 < n
  {
    (i * m - n / 2 + n - 1) / n
  }

  lemma MinorGap(n: nat, m: nat, i: nat)
    requires 0 < n
    ensures 0 <= Gap(n, m, i, Minor(n, m, i)) + n / 2 < n
  {
    var a := i * m - n / 2 + n - 1;
    assert a == n * (a / n) + a % n;
  }

  lemma MinorIs(n: nat, m: nat, i: nat, k: int)
    requires 0 < n && 0 <= Gap(n, m, i, k) + n / 2 < n
    ensures k == Minor(n, m, i)
  {
    MinorGap(n, m, i);
    var j := Minor(n, m, i);
    hide Minor;
    Apart(n, k, j);
    Apart(n, j, k);
  }

  lemma Apart(n: nat, j: int, k: int)
    ensures j < k ==> j * n + n <= k * n
  {
    var d := k - j - 1;
    assert k * n == j * n + n + d * n;
    if 0 <= d { NotNegative(d, n); }
  }

  /** Moves along the shorter side start at 0, end at m and never leave 0 .. m. */
  lemma MinorRange(n: nat, m: nat, i: nat)
    requires 0 < n && m <= n && i <= n
    ensures Minor(n, m, 0) == 0 && Minor(n, m, n) == m && 0 <= Minor(n, m, i) <= m
  {
    assert Gap(n, m, 0, 0) == 0;
    assert Gap(n, m, n, m) == 0;
    MinorIs(n, m, 0, 0);
    MinorIs(n, m, n, m);
    MinorGap(n, m, i);
    var k := Minor(n, m, i);
    hide Minor;
    NotNegative(i, m);
    MulMono(i, n, m);
    Apart(n, m, k);
    Apart(n, k, 0);
  }

  // ---- the line as a set of pixels ----

  function Toward(u: int, v: int, k: int): int { if v < u then u - k else u + k }

  /** Pixel i from the left end a to the right end b. */
  function LinePixel(a: Pixel, b: Pixel, i: nat): Pixel
    requires a.x <= b.x
  {
    var n, w, h := Steps(a, b), b.x - a.x, Distance(a.y, b.y);
    if n == 0 then a
    else if h < w then Pixel(a.x + i, Toward(a.y, b.y, Minor(n, h, i)))
    else Pixel(a.x + Minor(n, w, i), Toward(a.y, b.y, i))
  }

  function Segment(a: Pixel, b: Pixel): (r: seq<Pixel>)
    requires a.x <= b.x
    ensures |r| == Steps(a, b) + 1
  {
    seq(Steps(a, b) + 1, i requires 0 <= i => LinePixel(a, b, i))
  }

  /** Lines run from left to right; a vertical one keeps its direction. */
  function Pixels(a: Pixel, b: Pixel): (r: seq<Pixel>)
    ensures |r| == Steps(a, b) + 1
  {
    if b.x < a.x then Segment(b, a) else Segment(a, b)
  }

  lemma Ends(a: Pixel, b: Pixel)
    requires a.x <= b.x
    ensures Segment(a, b)[0] == a && Segment(a, b)[Steps(a, b)] == b
  {
    hide LinePixel, Steps;
    EndPixels(a, b);
  }

  lemma EndPixels(a: Pixel, b: Pixel)
    requires a.x <= b.x
    ensures LinePixel(a, b, 0) == a && LinePixel(a, b, Steps(a, b)) == b
  {
    var n, w, h := Steps(a, b), b.x - a.x, Distance(a.y, b.y);
    hide Minor;
    if n > 0 {
      MinorRange(n, h, 0);
      MinorRange(n, w, 0);
    }
  }

  lemma InBox(a: Pixel, b: Pixel, i: nat)
    requires a.x <= b.x && i <= Steps(a, b)
    ensures var p := Segment(a, b)[i];
      a.x <= p.x <= b.x && (a.y <= p.y <= b.y || b.y <= p.y <= a.y)
  {
    var n, w, h := Steps(a, b), b.x - a.x, Distance(a.y, b.y);
    hide Minor;
    if n > 0 {
      MinorRange(n, h, i);
      MinorRange(n, w, i);
    }
  }

  /** Doubled and scaled by the longer side, the distance to the ideal line is at most one longer side. */
  lemma HalfPixel(a: Pixel, b: Pixel, i: nat)
    requires a.x <= b.x && i <= Steps(a, b)
    ensures var p, n: int := Segment(a, b)[i], Steps(a, b);
      Within(n, (p.x - a.x) * n - i * (b.x - a.x)) && Within(n, (p.y - a.y) * n - i * (b.y - a.y))
  {
    var n, w, h, p := Steps(a, b), b.x - a.x, Distance(a.y, b.y), Segment(a, b)[i];
    if n == 0 { return; }
    MinorGap(n, h, i);
    MinorGap(n, w, i);
    var k, l := Minor(n, h, i), Minor(n, w, i);
    assert p == if h < w then Pixel(a.x + i, Toward(a.y, b.y, k)) else Pixel(a.x + l, Toward(a.y, b.y, i));
    hide Minor, Segment, Steps, LinePixel;
    TowardGap(n, a.y, b.y, i, k);
    TowardGap(n, a.y, b.y, i, i);
    hide Distance, Gap;
    assert n == if h < w then w else h;
  }

  predicate Within(n: int, g: int) { -n <= 2 * g <= n }

  lemma TowardGap(n: nat, u: int, v: int, i: nat, k: int)
    ensures var g := (Toward(u, v, k) - u) * n - i * (v - u);
      g == if v < u then -Gap(n, Distance(u, v), i, k) else Gap(n, Distance(u, v), i, k)
  {
    assert (-k) * n - i * (v - u) == -(k * n - i * (u - v));
  }

  /** Next pixels touch: each step moves one pixel along the longer side and at most one along the shorter. */
  lemma Connected(a: Pixel, b: Pixel, i: nat)
    requires a.x <= b.x && i < Steps(a, b)
    ensures var p, q := Segment(a, b)[i], Segment(a, b)[i + 1];
      Distance(p.x, q.x) <= 1 && Distance(p.y, q.y) <= 1 && p != q
  {
    var n, w, h := Steps(a, b), b.x - a.x, Distance(a.y, b.y);
    MinorStep(n, h, i);
    MinorStep(n, w, i);
    hide Minor;
  }

  lemma MinorStep(n: nat, m: nat, i: nat)
    requires 0 < n && m <= n
    ensures Minor(n, m, i) <= Minor(n, m, i + 1) <= Minor(n, m, i) + 1
  {
    hide Minor;
    MinorGap(n, m, i);
    MinorGap(n, m, i + 1);
    var j, k := Minor(n, m, i), Minor(n, m, i + 1);
    NextGap(n, m, i, j);
    hide Gap;
    if Gap(n, m, i + 1, j) + n / 2 < 0 {
      MinorIs(n, m, i + 1, j + 1);
    } else {
      MinorIs(n, m, i + 1, j);
    }
  }

  /** So a plot drawn with these lines is redrawn correctly from its marked cells. */
  lemma LinesStayInBox(paints: Redraw.Painter)
    requires forall a, b, p :: paints(a, b, p) <==> Pixel(p.x, p.y) in Pixels(Pixel(a.x, a.y), Pixel(b.x, b.y))
    ensures Redraw.StaysInBox(paints)
  {
    forall a, b, p | paints(a, b, p)
      ensures Redraw.Between(a.x, b.x, p.x) && Redraw.Between(a.y, b.y, p.y)
    {
      var u, v := Pixel(a.x, a.y), Pixel(b.x, b.y);
      var i :| 0 <= i < |Pixels(u, v)| && Pixels(u, v)[i] == Pixel(p.x, p.y);
      if b.x < a.x { InBox(v, u, i); } else { InBox(u, v, i); }
    }
  }

  // ---- the algorithm ----

  /** The display: writes go to the column and row of a cursor, which moves right by itself inside a window one
      row high and returns to the window's left edge at its end. */
  class Lcd {
    const width: nat
    var left: int
    var col: int
    var row: int
    var sent: seq<Pixel>

    constructor (width: nat)
      ensures this.width == width && sent == []
    {
      this.width := width;
      left, col, row, sent := 0, 0, 0, [];
    }

    /** A window from column x to the right edge of the screen. */
    method SetWindow(x: int, y: int)
      requires 0 <= x < width
      modifies `left, `col, `row
      ensures left == x && col == x && row == y
    {
      left, col, row := x, x, y;
    }

    method Write()
      modifies `col, `sent
      ensures sent == old(sent) + [Pixel(old(col), row)]
      ensures col == if old(col) + 1 < width then old(col) + 1 else left
    {
      sent := sent + [Pixel(col, row)];
      col := col + 1;
      if col >= width { col := left; }
    }

    method DrawLine(a: Pixel, b: Pixel)
      requires 0 <= a.x < width && 0 <= b.x < width
      modifies this
      ensures sent == old(sent) + Pixels(a, b)
    {
      var from, to := a, b;
      if to.x < from.x { from, to := to, from; }
      var dx := -(to.x - from.x);
      var dy, sy := to.y - from.y, 1;
      if dy < 0 { dy, sy := -dy, -1; }
      var err := if dx + dy < 0 then -dx / 2 else -(dy / 2);
      Start(from, to);
      hide Reached, Segment;
      Stream(from, to, from.x, from.y, dx, dy, sy, err);
    }

    /** The two loops: one window per row, and in it one pixel after another until the row changes. */
    method Stream(a: Pixel, b: Pixel, x: int, y: int, dx: int, dy: int, sy: int, e: int)
      requires 0 <= a.x <= b.x < width && Reached(a, b, 0, x, y, e)
      requires dx == a.x - b.x && dy == Distance(a.y, b.y) && sy == if b.y < a.y then -1 else 1
      modifies this
      ensures sent == old(sent) + Segment(a, b)
    {
      hide *;
      var x0, y0, err := x, y, e;
      ghost var was, i, n, line := sent, 0, Steps(a, b), Segment(a, b);
      while true
        invariant Reached(a, b, i, x0, y0, err) && i <= n
        invariant sent == was + line[..i]
        decreases n - i
      {
        OnScreen(a, b, i, x0, y0, err);
        SetWindow(x0, y0);
        ghost var start := i;
        while true
          invariant start <= i <= n && Reached(a, b, i, x0, y0, err)
          invariant sent == was + line[..i] && col == x0 && row == y0
          decreases n - i
        {
          OnScreen(a, b, i, x0, y0, err);
          Write();
          OneMore(was, line, i);
          Arrived(a, b, i, x0, y0, err);
          if x0 == b.x && y0 == b.y { return; }
          Advance(a, b, i, x0, y0, err);
          i := i + 1;
          var e2 := err;
          if e2 > dx { err := err - dy; x0 := x0 + 1; }
          if e2 < dy { err := err - dx; y0 := y0 + sy; break; }
          OnScreen(a, b, i, x0, y0, err);
        }
      }
    }
  }

  lemma OneMore(was: seq<Pixel>, line: seq<Pixel>, i: nat)
    requires i < |line|
    ensures was + line[..i] + [line[i]] == was + line[..i + 1]
    ensures i + 1 == |line| ==> line[..i + 1] == line
  {}

  predicate Flat(a: Pixel, b: Pixel) { Distance(a.y, b.y) < Distance(a.x, b.x) }

  /** Pixel i of the line is next, and the error term tells how far it is from the ideal line. */
  ghost predicate Reached(a: Pixel, b: Pixel, i: nat, x: int, y: int, err: int)
    requires a.x <= b.x
  {
    var n, w, h := Steps(a, b), b.x - a.x, Distance(a.y, b.y);
    && i <= n && Pixel(x, y) == LinePixel(a, b, i)
    && if n == 0 then err == 0
       else if h < w then err == Gap(n, h, i, Minor(n, h, i)) + n / 2
       else -err == Gap(n, w, i, Minor(n, w, i)) + n / 2
  }

  lemma Start(a: Pixel, b: Pixel)
    requires a.x <= b.x
    ensures Reached(a, b, 0, a.x, a.y, if Flat(a, b) then (b.x - a.x) / 2 else -(Distance(a.y, b.y) / 2))
  {
    var n := Steps(a, b);
    if n > 0 {
      MinorRange(n, Distance(a.y, b.y), 0);
      MinorRange(n, b.x - a.x, 0);
      hide Minor;
      assert Gap(n, Distance(a.y, b.y), 0, 0) == 0 == Gap(n, b.x - a.x, 0, 0);
    }
  }

  lemma OnScreen(a: Pixel, b: Pixel, i: nat, x: int, y: int, err: int)
    requires a.x <= b.x && Reached(a, b, i, x, y, err)
    ensures a.x <= x <= b.x && i <= Steps(a, b) && Segment(a, b)[i] == Pixel(x, y)
  {
    InBox(a, b, i);
  }

  /** The end point is reached after Steps steps and not before; the error stays on its side of zero. */
  lemma Arrived(a: Pixel, b: Pixel, i: nat, x: int, y: int, err: int)
    requires a.x <= b.x && Reached(a, b, i, x, y, err)
    ensures Pixel(x, y) == b <==> i == Steps(a, b)
    ensures i < Steps(a, b) ==> if Flat(a, b) then 0 <= err < b.x - a.x else 0 - Distance(a.y, b.y) < err <= 0
  {
    var n, w, h := Steps(a, b), b.x - a.x, Distance(a.y, b.y);
    Ends(a, b);
    if n > 0 {
      MinorGap(n, h, i);
      MinorGap(n, w, i);
    }
    hide Minor, Gap;
  }

  /** One step of the loop. */
  lemma Advance(a: Pixel, b: Pixel, i: nat, x: int, y: int, err: int)
    requires a.x <= b.x && Reached(a, b, i, x, y, err) && i < Steps(a, b)
    ensures var w, h, s := b.x - a.x, Distance(a.y, b.y), if b.y < a.y then -1 else 1;
      && Reached(a, b, i + 1, if err > -w then x + 1 else x, if err < h then y + s else y,
                 err - (if err > -w then h else 0) + if err < h then w else 0)
      && (err > -w || err < h) && (Flat(a, b) ==> err > -w) && (!Flat(a, b) ==> err < h)
  {
    var n, w, h := Steps(a, b), b.x - a.x, Distance(a.y, b.y);
    MinorGap(n, h, i);
    MinorGap(n, w, i);
    var j, k := Minor(n, h, i), Minor(n, w, i);
    NextGap(n, h, i, j);
    NextGap(n, w, i, k);
    if h < w {
      MinorIs(n, h, i + 1, if err < h then j + 1 else j);
    } else {
      MinorIs(n, w, i + 1, if err > -w then k + 1 else k);
    }
    hide Minor, Gap;
  }

  lemma NextGap(n: nat, m: nat, i: nat, k: int)
    ensures Gap(n, m, i + 1, k) == Gap(n, m, i, k) - m && Gap(n, m, i + 1, k + 1) == Gap(n, m, i, k) - m + n
  {
    assert (i + 1) * m == i * m + m && (k + 1) * n == k * n + n;
  }
}
