/** Frequencies as text (chprintf.c): division by ten without a divider, digits grouped by three, and the
    copy that turns groups into a decimal fraction with a unit prefix. */
module Frequency {
  import opened Arithmetic
  import opened Numbers

  const MAX_FREQ_PRECISION := 14

  // ---- division by ten ----

  function AddShifted(x: nat, n: nat): nat
    requires 0 < n
  {
    x + x / n
  }

  /** The quotient estimated by shifts and additions. */
  function Estimate(v: nat): nat {
    AddShifted(AddShifted(AddShifted(AddShifted(v / 2, 2), 16), 256), 65536) / 8
  }

  /** It never exceeds the quotient, is at most one below it, and no sum on the way leaves 32 bits. */
  lemma EstimateIsClose(v: uint32)
    ensures Estimate(v) <= v / 10 <= Estimate(v) + 1 && v - 10 * Estimate(v) <= 15
    ensures AddShifted(AddShifted(AddShifted(AddShifted(v / 2, 2), 16), 256), 65536) < TWO_32
  {
    var a := v / 2;
    var b := AddShifted(a, 2);
    var c := AddShifted(b, 16);
    var d := AddShifted(c, 256);
    var e := AddShifted(d, 65536);
    assert 2 * a <= v <= 2 * a + 1;
    assert 2 * b <= 3 * a <= 2 * b + 1;
    assert 16 * c <= 17 * b <= 16 * c + 15;
    assert 256 * d <= 257 * c <= 256 * d + 255;
    assert 65536 * e <= 65537 * d <= 65536 * e + 65535;
  }

  method DivideByTen(v: uint32) returns (q: uint32, c: uint32)
    ensures q == v / 10 && c == v % 10
  {
    EstimateIsClose(v);
    q := v / 2;
    q := q + q / 2;
    q := q + q / 16;
    q := q + q / 256;
    q := q + q / 65536;
    q := q / 8;
    c := v - q * 10;
    while c >= 10
      invariant v == 10 * q + c && c <= 15
    {
      q := q + 1;
      c := c - 10;
    }
  }

  // ---- groups of three digits ----

  function Thousands(v: nat): nat { if v < 1000 then 0 else 1 + Thousands(v / 1000) }

  function Decimal(v: nat): string { Digits(v, 10, 1) }

  function Three(v: nat): string
    requires v < 1000
  {
    [Digit(v / 100), Digit(v / 10 % 10), Digit(v % 10)]
  }

  /** 1 234 567 */
  function Grouped(v: nat): (s: string)
  {
    if v < 1000 then Decimal(v) else Grouped(v / 1000) + " " + Three(v % 1000)
  }

  lemma DecimalStep(v: nat)
    ensures Decimal(v) == (if v < 10 then [] else Decimal(v / 10)) + [Digit(v % 10)]
  {
    if v >= 10 { SameWidth(v / 10); }
  }

  lemma SameWidth(v: nat)
    ensures Digits(v, 10, 0) == Digits(v, 10, 1)
  {}

  lemma DecimalThousand(v: nat)
    requires 1000 <= v
    ensures Decimal(v) == Decimal(v / 1000) + Three(v % 1000)
  {
    ThousandParts(v);
    DecimalStep(v);
    DecimalStep(v / 10);
    DecimalStep(v / 100);
    hide Decimal, Digit;
    var d, a, b, c := Decimal(v / 1000), Digit(v / 100 % 10), Digit(v / 10 % 10), Digit(v % 10);
    assert Three(v % 1000) == [a, b, c];
    assert ((d + [a]) + [b]) + [c] == d + [a, b, c];
  }

  lemma ThousandParts(v: nat)
    ensures v / 10 / 10 == v / 100 && v / 100 / 10 == v / 1000
    ensures v % 1000 / 100 == v / 100 % 10 && v % 1000 / 10 % 10 == v / 10 % 10 && v % 1000 % 10 == v % 10
  {
    var d, r := v / 1000, v % 1000;
    var c, b, a := r / 100, r % 100 / 10, r % 10;
    TenTimes(r, 10 * c + b, a);
    TenTimes(v, 100 * d + 10 * c + b, a);
    TenTimes(100 * d + 10 * c + b, 10 * d + c, b);
    TenTimes(10 * d + c, d, c);
    assert v / 100 == 10 * d + c;
  }

  lemma TenTimes(x: nat, y: nat, a: nat)
    requires x == 10 * y + a && a < 10
    ensures x / 10 == y && x % 10 == a
  {}

  /** t is n with a space in front of each of its m groups of three digits. */
  ghost predicate SpacedBy(t: string, n: string, m: nat) {
    && |t| == 4 * m && |n| == 3 * m && ' ' !in n
    && forall j :: 0 <= j < m ==> t[4 * j] == ' ' && t[4 * j + 1..4 * j + 4] == n[3 * j..3 * j + 3]
  }

  lemma SpacedSize(t: string, n: string, m: nat)
    requires SpacedBy(t, n, m)
    ensures |t| == 4 * m && |n| == 3 * m
  {}

  lemma OneMoreGroup(t: string, n: string, m: nat, x: string)
    requires SpacedBy(t, n, m) && |x| == 3 && ' ' !in x
    ensures SpacedBy(t + " " + x, n + x, m + 1)
  {
    var t', n' := t + " " + x, n + x;
    forall j | 0 <= j < m + 1
      ensures t'[4 * j] == ' ' && t'[4 * j + 1..4 * j + 4] == n'[3 * j..3 * j + 3]
    {
      if j < m {
        assert t'[4 * j + 1..4 * j + 4] == t[4 * j + 1..4 * j + 4];
        assert n'[3 * j..3 * j + 3] == n[3 * j..3 * j + 3];
      }
    }
  }

  /** The grouped text is the decimal digits with a space before the last three, the three before them, ... */
  lemma {:induction false} GroupedShape(v: nat)
    ensures var d, g, s := Decimal(v), Grouped(v), Thousands(v);
      3 * s + 1 <= |d| <= 3 * s + 3 && |g| == |d| + s && g[..|d| - 3 * s] == d[..|d| - 3 * s] &&
      SpacedBy(g[|d| - 3 * s..], d[|d| - 3 * s..], s)
  {
    hide Decimal, Grouped, Thousands, Three, SpacedBy;
    if v < 1000 {
      SmallShape(v);
    } else {
      ThreeSize(v % 1000);
      GroupedStep(v);
      DecimalThousand(v);
      var d, g, s, x := Decimal(v / 1000), Grouped(v / 1000), Thousands(v / 1000), Three(v % 1000);
      var l := |d| - 3 * s;
      GroupedShape(v / 1000);
      NoSpaceInThree(v % 1000);
      OneMoreGroup(g[l..], d[l..], s, x);
      Slices(g, d, x, l);
    }
  }

  lemma SmallShape(v: nat)
    requires v < 1000
    ensures var d := Decimal(v);
      1 <= |d| <= 3 && Grouped(v) == d && Thousands(v) == 0 && d[..|d|] == d && d[|d|..] == [] && SpacedBy([], [], 0)
  {
    UpToThree(v);
    hide Decimal;
  }

  lemma ThreeSize(v: nat)
    requires v < 1000
    ensures |Three(v)| == 3
  {}

  lemma GroupedStep(v: nat)
    requires 1000 <= v
    ensures Grouped(v) == Grouped(v / 1000) + " " + Three(v % 1000) && Thousands(v) == Thousands(v / 1000) + 1
  {}

  lemma Slices(g: string, d: string, x: string, l: nat)
    requires l <= |g| && l <= |d| && g[..l] == d[..l]
    ensures (g + " " + x)[..l] == (d + x)[..l]
    ensures (g + " " + x)[l..] == g[l..] + " " + x && (d + x)[l..] == d[l..] + x
  {}

  lemma NoSpaceInThree(v: nat)
    requires v < 1000
    ensures ' ' !in Three(v)
  {}

  lemma UpToThree(v: nat)
    requires v < 1000
    ensures 1 <= |Decimal(v)| <= 3
  {
    DecimalStep(v);
    DecimalStep(v / 10);
    DecimalStep(v / 100);
  }

  lemma {:induction false} NoSpace(v: nat)
    ensures ' ' !in Decimal(v)
  {
    DecimalStep(v);
    if v >= 10 { NoSpace(v / 10); }
    assert Digit(v % 10) != ' ';
  }

  // ---- the copy ----

  function At(src: string, k: nat): char { if k < |src| then src[k] else ' ' }

  /** The copy of i characters from position q on. Until the first space (`point` is still to come)
      characters are copied; that space becomes the decimal point. Later spaces stay when `spaced`, otherwise
      the character behind them is taken instead. From the point on `precision` characters follow it. */
  function Copy(src: string, q: nat, i: nat, point: bool, spaced: bool, precision: int): string
    decreases i
  {
    if i == 0 then [] else
    var c := At(src, q);
    if point && c != ' ' then [c] + Copy(src, q + 1, i - 1, true, spaced, precision)
    else if precision < 0 then []
    else if point then ['.'] + Copy(src, q + 1, i - 1, false, spaced, precision - 1)
    else if c == ' ' && !spaced then [At(src, q + 1)] + Copy(src, q + 2, i - 1, false, spaced, precision - 1)
    else [c] + Copy(src, q + 1, i - 1, false, spaced, precision - 1)
  }

  /** Before the point characters are copied as they are. */
  lemma {:induction false} CopyHead(src: string, q: nat, i: nat, n: nat, spaced: bool, precision: int)
    requires n <= i && q + n <= |src| && ' ' !in src[q..q + n]
    ensures Copy(src, q, i, true, spaced, precision) == src[q..q + n] + Copy(src, q + n, i - n, true, spaced, precision)
    decreases n
  {
    if n > 0 {
      assert src[q..q + n] == [src[q]] + src[q + 1..q + n];
      CopyHead(src, q + 1, i - 1, n - 1, spaced, precision);
    }
  }

  /** Behind the point, with spaces kept: characters until the precision is used up. */
  lemma {:induction false} CopySpaced(src: string, q: nat, i: nat, precision: nat)
    requires q + i <= |src| && i <= precision + 1
    ensures Copy(src, q, i, false, true, precision) == src[q..q + i]
    decreases i
  {
    if i > 0 {
      assert src[q..q + i] == [src[q]] + src[q + 1..q + i];
      if i > 1 { CopySpaced(src, q + 1, i - 1, precision - 1); }
    }
  }

  ghost predicate HasAt(src: string, q: nat, t: string) { q + |t| <= |src| && src[q..q + |t|] == t }

  /** Behind the point, without spaces: the digits of m groups, with k characters more to copy than they
      have. What is left over at the end is as many characters as spaces were skipped. */
  lemma {:induction false} CopyGroups(src: string, q: nat, t: string, n: string, m: nat, k: int, precision: int)
    requires -1 <= precision && 0 <= m + k && HasAt(src, q, t) && SpacedBy(t, n, m)
    ensures |t| == 4 * m && |n| == 3 * m
    ensures Copy(src, q, |t| + k, false, false, precision) ==
            Within(n, precision, Copy(src, q + |t|, m + k, false, false, precision - 3 * m))
    decreases m
  {
    hide Copy, At, HasAt, SpacedBy, Within;
    SpacedSize(t, n, m);
    if m == 0 {
      CopyRuns(src, q, k, precision);
      NoDigits(n, precision, Copy(src, q, k, false, false, precision));
    } else {
      FirstGroup(src, q, t, n, m);
      OneGroup(src, q, |t| + k, n[..3], precision);
      if precision < 3 {
        Join(n, precision, Copy(src, q + |t|, m + k, false, false, precision - 3 * m), []);
      } else {
        CopyGroups(src, q + 4, t[4..], n[3..], m - 1, k + 1, precision - 3);
        var q', i', k', p' := q + |t|, |t| + k - 3, m + k, precision - 3 * m;
        assert |t[4..]| + (k + 1) == i' && q + 4 + |t[4..]| == q' && m - 1 + (k + 1) == k' &&
               precision - 3 - 3 * (m - 1) == p';
        Join(n, precision, Copy(src, q', k', false, false, p'), Copy(src, q + 4, i', false, false, precision - 3));
      }
    }
  }

  /** Digits while the precision lasts, and the rest if they do not use it up. */
  function Within(n: string, precision: int, rest: string): string
    requires -1 <= precision
  {
    if precision + 1 <= |n| then n[..precision + 1] else n + rest
  }

  lemma NoDigits(n: string, precision: int, rest: string)
    requires n == [] && -1 <= precision
    ensures (precision < 0 ==> rest == []) ==> Within(n, precision, rest) == rest
  {}

  lemma Join(n: string, precision: int, z: string, r: string)
    requires -1 <= precision && |n| >= 3
    ensures precision < 3 ==> n[..3][..precision + 1] == Within(n, precision, z)
    ensures precision >= 3 && r == Within(n[3..], precision - 3, z) ==> n[..3] + r == Within(n, precision, z)
  {
    if precision >= 3 && precision + 1 > |n| { assert n[..3] + (n[3..] + z) == n + z; }
  }

  /** The first group of three and the groups behind it. */
  lemma FirstGroup(src: string, q: nat, t: string, n: string, m: nat)
    requires m > 0 && HasAt(src, q, t) && SpacedBy(t, n, m)
    ensures |n| >= 3 && |t| >= 4 && SpacedBy(t[4..], n[3..], m - 1)
    ensures At(src, q) == ' ' && HasAt(src, q + 1, n[..3]) && ' ' !in n[..3] && HasAt(src, q + 4, t[4..])
  {
    assert t[4 * 0] == ' ' && t[4 * 0 + 1..4 * 0 + 4] == n[3 * 0..3 * 0 + 3];
    forall j | 0 <= j < m - 1
      ensures t[4..][4 * j] == ' ' && t[4..][4 * j + 1..4 * j + 4] == n[3..][3 * j..3 * j + 3]
    {
      assert t[4 * (j + 1)] == ' ' && t[4 * (j + 1) + 1..4 * (j + 1) + 4] == n[3 * (j + 1)..3 * (j + 1) + 3];
      assert t[4..][4 * j + 1..4 * j + 4] == t[4 * j + 5..4 * j + 8];
      assert n[3..][3 * j..3 * j + 3] == n[3 * j + 3..3 * j + 6];
    }
    assert forall i :: 0 <= i < |t| ==> t[i] == src[q + i];
    assert src[q + 1..q + 4] == t[1..4];
  }

  lemma OneGroup(src: string, q: nat, i: nat, x: string, precision: int)
    requires -1 <= precision && 3 <= i && At(src, q) == ' ' && HasAt(src, q + 1, x) && |x| == 3 && ' ' !in x
    ensures var r := Copy(src, q, i, false, false, precision);
      if precision < 3 then r == x[..precision + 1]
      else r == x + Copy(src, q + 4, i - 3, false, false, precision - 3)
  {
    var y := src[q + 1..q + 4];
    assert y[0] == src[q + 1] && y[1] == src[q + 2] && y[2] == src[q + 3];
    assert x[0] in x && x[1] in x && x[2] in x;
    Skip1(src, q, i, precision);
    Digit1(src, q + 2, i - 1, precision - 1);
    Digit1(src, q + 3, i - 2, precision - 2);
    hide Copy;
    var rest := Copy(src, q + 4, i - 3, false, false, precision - 3);
    Taken(x, precision, rest);
    if precision == 2 { Cut(src, q + 4, i - 3); assert x + rest == x == x[..3]; }
  }

  lemma Taken(x: string, precision: int, rest: string)
    requires -1 <= precision && |x| == 3
    ensures var r2 := if precision - 2 < 0 then [] else [x[2]] + rest;
            var r1 := if precision - 1 < 0 then [] else [x[1]] + r2;
            var r0 := if precision < 0 then [] else [x[0]] + r1;
            if precision < 2 then r0 == x[..precision + 1] else r0 == x + rest
  {
    assert [x[0]] + ([x[1]] + ([x[2]] + rest)) == x + rest;
  }

  lemma Cut(src: string, q: nat, i: nat)
    ensures Copy(src, q, i, false, false, -1) == []
  {}

  lemma Skip1(src: string, q: nat, i: nat, precision: int)
    requires i > 0 && At(src, q) == ' '
    ensures Copy(src, q, i, false, false, precision) ==
            if precision < 0 then [] else [At(src, q + 1)] + Copy(src, q + 2, i - 1, false, false, precision - 1)
  {}

  lemma Digit1(src: string, q: nat, i: nat, precision: int)
    requires i > 0 && At(src, q) != ' '
    ensures Copy(src, q, i, false, false, precision) ==
            if precision < 0 then [] else [At(src, q)] + Copy(src, q + 1, i - 1, false, false, precision - 1)
  {}

  // ---- the text of a frequency ----

  const PREFIXES := " kMG"

  /** The spaced form fits the 14 characters in front of the copy. */
  lemma FrequencyFits(v: uint32)
    ensures |Grouped(v)| <= 13 && Thousands(v) <= 3
  {
    TenDigits();
    DigitsFit(v, 10, 1, 10);
    GroupedShape(v);
    hide SpacedBy;
    if Thousands(v) > 3 { assert false; }
  }

  lemma TenDigits()
    ensures TWO_32 <= Power(10, 10)
  {
    assert Power(10, 3) == 10 * (10 * (10 * Power(10, 0)));
    assert Power(10, 6) == 10 * (10 * (10 * Power(10, 3)));
    assert Power(10, 9) == 10 * (10 * (10 * Power(10, 6)));
    assert Power(10, 10) == 10 * Power(10, 9);
  }

  function Shown(precision: nat): nat {
    if precision == 0 || precision > MAX_FREQ_PRECISION then MAX_FREQ_PRECISION else precision
  }

  /** What is printed when the buffer holds `junk` behind the grouped digits. */
  function Text(v: uint32, precision: nat, junk: string): string {
    FrequencyFits(v);
    var g := Grouped(v);
    Copy(g + junk, 0, |g|, true, precision == 0, Shown(precision)) + Suffix(v, precision == 0)
  }

  function Suffix(v: uint32, spaced: bool): string {
    FrequencyFits(v);
    var s := Thousands(v);
    (if spaced && s != 0 then " " else "") + [PREFIXES[s]]
  }

  /** The number of digits before the point. */
  function Lead(v: nat): (l: nat)
    ensures 1 <= l <= 3 && l + 3 * Thousands(v) == |Decimal(v)|
  {
    GroupedShape(v);
    |Decimal(v)| - 3 * Thousands(v)
  }

  /** Without a precision every digit is shown, in groups; the point stands before the last 3 n digits and the
      unit prefix is the n-th. */
  lemma FullText(v: uint32, junk: string)
    ensures var d, g, l := Decimal(v), Grouped(v), Lead(v);
      Text(v, 0, junk) == d[..l] + (if Thousands(v) == 0 then "" else "." + g[l + 1..]) + Suffix(v, true)
    ensures var d, g, l := Decimal(v), Grouped(v), Lead(v);
      |g| == l + 4 * Thousands(v) && SpacedBy(g[l..], d[l..], Thousands(v))
  {
    hide Decimal, Grouped, Thousands, Lead, Suffix, Copy, SpacedBy;
    GroupedShape(v);
    FrequencyFits(v);
    CopyToPoint(v, junk, true, 14);
    var d, g, s, l := Decimal(v), Grouped(v), Thousands(v), Lead(v);
    if s > 0 {
      CopySpaced(g + junk, l + 1, 4 * s - 1, 13);
      InFront(g, junk, l + 1, 4 * s - 1);
    }
  }

  lemma InFront(g: string, junk: string, i: nat, n: nat)
    requires i + n <= |g|
    ensures (g + junk)[i..i + n] == g[i..i + n]
    ensures i + n == |g| ==> g[i..i + n] == g[i..]
  {}

  /** The copy up to the point. */
  lemma CopyToPoint(v: nat, junk: string, spaced: bool, precision: nat)
    ensures var d, g, s, l := Decimal(v), Grouped(v), Thousands(v), Lead(v);
      Copy(g + junk, 0, |g|, true, spaced, precision) ==
        d[..l] + if s == 0 then [] else ['.'] + Copy(g + junk, l + 1, |g| - l - 1, false, spaced, precision - 1)
  {
    hide Decimal, Grouped, Thousands, Lead, SpacedBy;
    GroupedShape(v);
    NoSpace(v);
    var d, g, s, l := Decimal(v), Grouped(v), Thousands(v), Lead(v);
    var src := g + junk;
    InFront(g, junk, 0, l);
    assert g[0..0 + l] == g[..l];
    CopyHead(src, 0, |g|, l, spaced, precision);
    if s > 0 {
      FirstSpace(g, junk, l, d[l..], s);
    }
  }

  /** What a precision asks for: that many digits behind the point, or as many as there are. */
  function Rounded(v: uint32, precision: nat): string {
    var d, l, n := Decimal(v), Lead(v), 3 * Thousands(v);
    d[..l] +
    (if n == 0 then "" else "." + d[l..][..if Shown(precision) < n then Shown(precision) else n]) +
    Suffix(v, false)
  }

  /** That is printed exactly when the precision asks for no more digits than there are, or there is at most one
      group behind the point. Otherwise the copy runs past the digits by the spaces it has skipped, and shows
      what the buffer held there. */
  lemma RoundedIff(v: uint32, precision: nat, junk: string)
    requires precision != 0
    ensures Text(v, precision, junk) == Rounded(v, precision) <==>
            Thousands(v) <= 1 || Shown(precision) <= 3 * Thousands(v)
  {
    hide Decimal, Grouped, Thousands, Lead, Suffix, Copy, SpacedBy;
    var p: int := Shown(precision);
    hide Shown;
    assert 1 <= p by { assert p == Shown(precision); ShownPositive(precision); }
    var d, g, s, l := Decimal(v), Grouped(v), Thousands(v), Lead(v);
    CopyToPoint(v, junk, false, p);
    if s > 0 {
      DigitsBehindPoint(v, junk, p - 1);
      var z := Copy(g + junk, |g|, s - 1, false, false, p - 1 - 3 * s);
      CopyRuns(g + junk, |g|, s - 1, p - 1 - 3 * s);
      var head, tail := d[..l] + ".", Suffix(v, false);
      if 3 * s < p {
        assert d[l..][..3 * s] == d[l..];
        assert Text(v, precision, junk) == d[..l] + (['.'] + (d[l..] + z)) + tail;
        Lengths(d[..l], d[l..], z, tail);
      }
    }
  }

  // ---- reading the text back ----

  predicate IsDigit(c: char) { '0' <= c <= '9' }

  /** The digits of a text, without point, spaces and unit. */
  function Significant(s: string): string
  {
    if s == [] then [] else (if IsDigit(s[0]) then [s[0]] else []) + Significant(s[1..])
  }

  /** The number of digits behind the first point. */
  function Decimals(s: string): nat
  {
    if s == [] then 0 else if s[0] == '.' then |Significant(s[1..])| else Decimals(s[1..])
  }

  /** What a unit prefix stands for. */
  function Factor(unit: char): nat {
    if unit == 'k' then 1_000 else if unit == 'M' then 1_000_000 else if unit == 'G' then 1_000_000_000 else 1
  }

  /** The number that digits stand for. */
  function Horner(s: string): int
  {
    if s == [] then 0 else 10 * Horner(s[..|s| - 1]) + (s[|s| - 1] as int - '0' as int)
  }

  lemma {:induction false} SignificantJoin(a: string, b: string)
    ensures Significant(a + b) == Significant(a) + Significant(b)
  {
    if a == [] {
      assert a + b == b;
    } else {
      assert (a + b)[1..] == a[1..] + b;
      SignificantJoin(a[1..], b);
      SignificantStep(a);
      SignificantStep(a + b);
      hide Significant;
      Chain(Significant(a[..1]), Significant(a[1..]), Significant(b));
      assert (a + b)[..1] == a[..1];
    }
  }

  lemma SignificantStep(s: string)
    requires s != []
    ensures Significant(s) == Significant(s[..1]) + Significant(s[1..])
  {
    assert s[..1][1..] == [] && s[..1][0] == s[0];
  }

  lemma Chain(x: string, y: string, z: string)
    ensures (x + y) + z == x + (y + z)
  {}

  lemma {:induction false} AllSignificant(s: string)
    requires forall k :: 0 <= k < |s| ==> IsDigit(s[k])
    ensures Significant(s) == s && Decimals(s) == 0
  {
    if s != [] { AllSignificant(s[1..]); }
  }

  lemma {:induction false} DecimalsPoint(a: string, b: string)
    requires forall k :: 0 <= k < |a| ==> IsDigit(a[k])
    ensures Decimals(a + "." + b) == |Significant(b)|
  {
    var t := a + "." + b;
    if a == [] {
      assert t[1..] == b;
    } else {
      assert t[1..] == a[1..] + "." + b;
      DecimalsPoint(a[1..], b);
    }
  }

  lemma {:induction false} DecimalsNone(a: string, b: string)
    requires (forall k :: 0 <= k < |a| ==> IsDigit(a[k])) && '.' !in b
    ensures Decimals(a + b) == 0
    decreases |a| + |b|
  {
    var t := a + b;
    if a != [] {
      assert t[1..] == a[1..] + b;
      DecimalsNone(a[1..], b);
    } else if b != [] {
      assert t[1..] == [] + b[1..];
      DecimalsNone([], b[1..]);
    }
  }

  lemma {:induction false} SpacedReads(t: string, n: string, m: nat)
    requires SpacedBy(t, n, m) && forall k :: 0 <= k < |n| ==> IsDigit(n[k])
    ensures Significant(t) == n
    decreases m
  {
    if m > 0 {
      var x, t', n' := n[..3], t[4..], n[3..];
      assert t[4 * 0] == ' ' && t[1..4] == n[0..3];
      assert t == ([' '] + x) + t' && n == x + n';
      forall j | 0 <= j < m - 1
        ensures t'[4 * j] == ' ' && t'[4 * j + 1..4 * j + 4] == n'[3 * j..3 * j + 3]
      {
        assert t[4 * (j + 1)] == ' ' && t[4 * (j + 1) + 1..4 * (j + 1) + 4] == n[3 * (j + 1)..3 * (j + 1) + 3];
        assert t'[4 * j + 1..4 * j + 4] == t[4 * (j + 1) + 1..4 * (j + 1) + 4];
        assert n'[3 * j..3 * j + 3] == n[3 * (j + 1)..3 * (j + 1) + 3];
      }
      SpacedReads(t', n', m - 1);
      AllSignificant(x);
      SignificantJoin([' '], x);
      SignificantJoin([' '] + x, t');
    }
  }

  lemma DecimalIsDigits(v: nat)
    ensures forall k :: 0 <= k < |Decimal(v)| ==> IsDigit(Decimal(v)[k])
  {
    forall k | 0 <= k < |Decimal(v)| ensures IsDigit(Decimal(v)[k]) { DecimalDigits(v, 1, k); }
  }

  /** The unit stands for as many digits as stand in the groups, and is none itself. */
  lemma UnitReads(v: uint32, spaced: bool)
    ensures var u := Suffix(v, spaced);
      && u != [] && Significant(u) == [] && '.' !in u && Factor(u[|u| - 1]) == Power(10, 3 * Thousands(v))
      && if spaced && Thousands(v) > 0 then |u| == 2 && u[0] == ' ' else |u| == 1
  {
    hide Thousands, Significant, Power, Factor;
    FrequencyFits(v);
    UnitLetter(Thousands(v));
    SignificantJoin(" ", [PREFIXES[Thousands(v)]]);
    Blank();
    var s := Thousands(v);
    if spaced && s != 0 { assert Suffix(v, spaced) == " " + [PREFIXES[s]]; } else {
      assert Suffix(v, spaced) == [PREFIXES[s]];
    }
  }

  lemma Blank()
    ensures Significant(" ") == []
  {
    assert Significant(" ") == [] + Significant([]);
  }

  lemma UnitLetter(n: nat)
    requires n <= 3
    ensures var u := PREFIXES[n];
      Significant([u]) == [] && u != '.' && Factor(u) == Power(10, 3 * n)
  {
    assert Power(10, 3) == 10 * (10 * (10 * Power(10, 0))) && Power(10, 6) == 10 * (10 * (10 * Power(10, 3)));
    assert Power(10, 9) == 10 * (10 * (10 * Power(10, 6)));
    assert PREFIXES[0] == ' ' && PREFIXES[1] == 'k' && PREFIXES[2] == 'M' && PREFIXES[3] == 'G';
    assert [PREFIXES[n]][1..] == [];
  }

  /** Digits d[..l], a point with the groups behind it, and the unit. */
  lemma TextReads(a: string, b: string, u: string)
    requires (forall k :: 0 <= k < |a| ==> IsDigit(a[k])) && u != [] && Significant(u) == [] && '.' !in u
    ensures Significant(a + "." + b + u) == a + Significant(b) && Decimals(a + "." + b + u) == |Significant(b)|
    ensures Significant(a + u) == a && Decimals(a + u) == 0
  {
    hide Significant, Decimals;
    AllSignificant(a);
    SignificantJoin(b, u);
    SignificantJoin(a, u);
    DecimalsNone(a, u);
    DecimalsPoint(a, b + u);
    Chain(a + ".", b, u);
    Chain(a, ".", b + u);
    SignificantJoin(a, "." + (b + u));
    SignificantJoin(".", b + u);
    PointReads();
    assert a + [] == a && Significant(b) + [] == Significant(b) && [] + Significant(b) == Significant(b);
  }

  lemma PointReads()
    ensures Significant(".") == []
  {
    assert Significant(".") == [] + Significant([]);
  }

  /** Without a precision the text is read back exactly: its digits are those of the number, and the unit, set apart by
      a space, makes up for the digits behind the point. */
  lemma FullReads(v: uint32, junk: string)
    ensures var t := Text(v, 0, junk);
      && t != [] && Significant(t) == Decimal(v) && Factor(t[|t| - 1]) == Power(10, Decimals(t))
      && (Thousands(v) > 0 ==> 2 <= |t| && t[|t| - 2] == ' ')
  {
    hide Decimal, Grouped, Thousands, Lead, Suffix, Text, SpacedBy, Significant, Decimals, Factor, Power;
    FullText(v, junk);
    UnitReads(v, true);
    DecimalIsDigits(v);
    var d, g, l, u := Decimal(v), Grouped(v), Lead(v), Suffix(v, true);
    if Thousands(v) == 0 {
      TextReads(d[..l], "", u);
      assert d[..l] == d && d[..l] + "" == d[..l];
    } else {
      TextReads(d[..l], g[l + 1..], u);
      SpacedReads(g[l..], d[l..], Thousands(v));
      SpaceSkipped(g[l..], d[l..], Thousands(v));
      assert g[l..][1..] == g[l + 1..];
      assert d[..l] + "." + g[l + 1..] + u == d[..l] + ("." + g[l + 1..]) + u;
    }
  }

  lemma SpaceSkipped(t: string, n: string, m: nat)
    requires SpacedBy(t, n, m) && 0 < m
    ensures Significant(t) == Significant(t[1..])
  {
    assert t[4 * 0] == ' ';
    assert Significant(t) == [] + Significant(t[1..]);
  }

  /** With a precision the digits shown are the first ones, and the unit makes up for those behind the point together
      with those left out: the number is cut off behind them. */
  lemma RoundedReads(v: uint32, precision: nat)
    ensures var t, d := Rounded(v, precision), Decimal(v);
      && 2 <= |t| && IsDigit(t[|t| - 2]) && Significant(t) <= d
      && Factor(t[|t| - 1]) == Power(10, Decimals(t) + |d| - |Significant(t)|)
  {
    hide Decimal, Thousands, Lead, Suffix, Significant, Decimals, Factor, Power, Shown;
    UnitReads(v, false);
    DecimalIsDigits(v);
    var d, l, u, n := Decimal(v), Lead(v), Suffix(v, false), 3 * Thousands(v);
    var k := if Shown(precision) < n then Shown(precision) else n;
    var b := d[l..][..k];
    TextReads(d[..l], b, u);
    AllSignificant(b);
    if n == 0 {
      assert d[..l] == d && d[..l] + "" == d[..l];
      assert Rounded(v, precision)[l - 1] == d[l - 1];
    } else {
      ShownPositive(precision);
      assert d[..l] + b == d[..l + k];
      assert d[..l] + "." + b + u == d[..l] + ("." + b) + u;
      assert Rounded(v, precision)[l + k] == b[k - 1] == d[l + k - 1];
    }
  }

  /** The first digits of a number stand for it without its last k digits. */
  lemma {:induction false} CutOff(v: nat, k: nat)
    requires k < |Decimal(v)|
    ensures 1 <= Power(10, k) && Horner(Decimal(v)[..|Decimal(v)| - k]) == v / Power(10, k)
    decreases v
  {
    hide Decimal;
    var d := Decimal(v);
    DecimalStep(v);
    if k == 0 {
      assert d[..|d|] == d;
      DecimalValue(v);
    } else {
      assert 10 <= v;
      assert d[..|d| - k] == Decimal(v / 10)[..|Decimal(v / 10)| - (k - 1)];
      CutOff(v / 10, k - 1);
      PowerPositive(k - 1);
      DivideTwice(v, Power(10, k - 1));
    }
  }

  lemma {:induction false} PowerPositive(k: nat)
    ensures 1 <= Power(10, k)
  {
    if k > 0 { PowerPositive(k - 1); }
  }

  lemma DivideTwice(v: nat, p: nat)
    requires 1 <= p
    ensures v / 10 / p == v / (10 * p)
  {
    var q := v / 10 / p;
    QuotientIs(v / 10, p, q);
    TimesTen(q, p);
    QuotientIs(v, 10 * p, q);
  }

  lemma TimesTen(q: nat, p: nat)
    ensures q * (10 * p) == 10 * (q * p)
  {}

  lemma {:induction false} DecimalValue(v: nat)
    ensures Horner(Decimal(v)) == v
    decreases v
  {
    hide Decimal;
    DecimalStep(v);
    var d := Decimal(v);
    if v < 10 {
      assert d == [Digit(v)] && d[..|d| - 1] == [];
    } else {
      DecimalValue(v / 10);
      assert d[..|d| - 1] == Decimal(v / 10);
    }
  }

  lemma ShownPositive(precision: nat)
    ensures 1 <= Shown(precision) <= 14
  {}

  lemma Lengths(a: string, b: string, z: string, tail: string)
    ensures a + (['.'] + (b + z)) + tail == a + ("." + b) + tail <==> z == []
  {
    if z != [] { assert |a + (['.'] + (b + z)) + tail| > |a + ("." + b) + tail|; }
  }

  lemma CopyRuns(src: string, q: nat, i: nat, precision: int)
    ensures Copy(src, q, i, false, false, precision) == [] <==> i == 0 || precision < 0
  {}

  lemma DigitsBehindPoint(v: nat, junk: string, precision: nat)
    requires Thousands(v) > 0
    ensures var d, g, s, l := Decimal(v), Grouped(v), Thousands(v), Lead(v);
      Copy(g + junk, l + 1, |g| - l - 1, false, false, precision) ==
        Within(d[l..], precision, Copy(g + junk, |g|, s - 1, false, false, precision - 3 * s))
  {
    hide Decimal, Grouped, Thousands, Lead, Copy, SpacedBy, Within;
    GroupedShape(v);
    BehindPoint(Grouped(v), junk, Lead(v), Decimal(v)[Lead(v)..], Thousands(v), precision);
  }

  lemma BehindPoint(g: string, junk: string, l: nat, n: string, s: nat, precision: nat)
    requires l <= |g| && s > 0 && SpacedBy(g[l..], n, s)
    ensures |g| == l + 4 * s
    ensures Copy(g + junk, l + 1, |g| - l - 1, false, false, precision) ==
            Within(n, precision, Copy(g + junk, |g|, s - 1, false, false, precision - 3 * s))
  {
    hide Copy, Within, At, SpacedBy, HasAt;
    SpacedSize(g[l..], n, s);
    FirstSpace(g, junk, l, n, s);
    FromSpace(g + junk, l, g[l..], n, s, precision, |g|);
  }

  lemma FromSpace(src: string, l: nat, t: string, n: string, s: nat, precision: nat, end: nat)
    requires s > 0 && HasAt(src, l, t) && SpacedBy(t, n, s) && At(src, l) == ' ' && At(src, l + 1) != ' '
    requires end == l + 4 * s
    ensures Copy(src, l + 1, end - l - 1, false, false, precision) ==
            Within(n, precision, Copy(src, end, s - 1, false, false, precision - 3 * s))
  {
    hide Copy, Within, At, SpacedBy, HasAt;
    SpacedSize(t, n, s);
    SkipsSpace(src, l, 4 * s - 1, precision);
    CopyGroups(src, l, t, n, s, -1, precision);
    var i := end - l - 1;
    assert i == 4 * s - 1 == |t| + -1 && l + |t| == end && s + -1 == s - 1;
  }

  lemma FirstSpace(g: string, junk: string, l: nat, n: string, s: nat)
    requires l <= |g| && s > 0 && SpacedBy(g[l..], n, s)
    ensures HasAt(g + junk, l, g[l..]) && At(g + junk, l) == ' ' && At(g + junk, l + 1) != ' '
  {
    FirstGroup(g, l, g[l..], n, s);
    assert n[..3][0] == g[l + 1..l + 4][0];
  }

  /** The digit behind a space is reached either way. */
  lemma SkipsSpace(src: string, q: nat, i: nat, precision: int)
    requires At(src, q) == ' ' && At(src, q + 1) != ' '
    ensures Copy(src, q, i, false, false, precision) == Copy(src, q + 1, i, false, false, precision)
  {}

  // ---- the two loops ----

  /** The text of what is left of a number of which `phase` digits of the current group are written. */
  function Left(v: nat, phase: nat): (r: string)
    requires phase < 3
    ensures 1 <= |r|
  {
    if v < 10 then [Digit(v)] else Left(v / 10, (phase + 1) % 3) + Gap(phase) + [Digit(v % 10)]
  }

  function Gap(phase: nat): string { if phase == 2 then " " else "" }

  function GapsLeft(v: nat, phase: nat): nat
    requires phase < 3
  {
    if v < 10 then 0 else GapsLeft(v / 10, (phase + 1) % 3) + |Gap(phase)|
  }

  lemma {:induction false} LeftIsGrouped(v: nat)
    ensures Left(v, 0) == Grouped(v) && GapsLeft(v, 0) == Thousands(v)
  {
    LeftSmall(v);
    if v >= 1000 {
      LeftIsGrouped(v / 1000);
      GroupedStep(v);
      LeftStep(v);
    }
  }

  lemma LeftTwo(v: nat)
    requires 10 <= v < 100
    ensures Left(v, 0) == Decimal(v) && GapsLeft(v, 0) == 0
  {
    hide Decimal, Digit, Left, GapsLeft;
    DecimalStep(v);
    DecimalStep(v / 10);
    LeftOnce(v, 0);
    LeftOne(v / 10, 1);
  }

  lemma LeftThree(v: nat)
    requires 100 <= v < 1000
    ensures Left(v, 0) == Decimal(v) && GapsLeft(v, 0) == 0
  {
    hide Decimal, Digit, Left, GapsLeft;
    var w := v / 10;
    DecimalStep(v);
    DecimalStep(w);
    DecimalStep(w / 10);
    LeftOnce(v, 0);
    LeftOnce(w, 1);
    LeftOne(w / 10, 2);
  }

  lemma LeftSmall(v: nat)
    ensures v < 1000 ==> Left(v, 0) == Grouped(v) && GapsLeft(v, 0) == 0
  {
    hide Decimal, Digit, Left, GapsLeft;
    if v < 10 {
      DecimalStep(v);
      LeftOne(v, 0);
    } else if v < 100 {
      LeftTwo(v);
    } else if v < 1000 {
      LeftThree(v);
    }
  }

  lemma LeftOne(v: nat, phase: nat)
    requires phase < 3 && v < 10
    ensures Left(v, phase) == [Digit(v)] && GapsLeft(v, phase) == 0
  {}

  lemma LeftStep(v: nat)
    requires 1000 <= v
    ensures Left(v, 0) == Left(v / 1000, 0) + " " + Three(v % 1000)
    ensures GapsLeft(v, 0) == GapsLeft(v / 1000, 0) + 1
  {
    hide Left, Digit, GapsLeft;
    ThousandParts(v);
    LeftOnce(v, 0);
    LeftOnce(v / 10, 1);
    LeftOnce(v / 100, 2);
    var d, a, b, c := Left(v / 1000, 0), Digit(v / 100 % 10), Digit(v / 10 % 10), Digit(v % 10);
    assert Three(v % 1000) == [a, b, c];
    InThree(d + " ", a, b, c);
  }

  lemma InThree(d: string, a: char, b: char, c: char)
    ensures d + [a] + "" + [b] + "" + [c] == d + [a, b, c]
  {}

  lemma LeftOnce(v: nat, phase: nat)
    requires phase < 3 && 10 <= v
    ensures Left(v, phase) == Left(v / 10, (phase + 1) % 3) + Gap(phase) + [Digit(v % 10)]
    ensures GapsLeft(v, phase) == GapsLeft(v / 10, (phase + 1) % 3) + |Gap(phase)|
  {}

  /** The format word after j shifts: a set bit at every third place. */
  function Format(j: nat): nat { if j == 0 then 0x4924 else Format(j - 1) / 2 }

  lemma FormatBit(j: nat)
    requires j < 15
    ensures Format(j) % 2 == 1 <==> j % 3 == 2
  {
    assert Format(3) == 0x924;
    assert Format(6) == 0x124;
    assert Format(9) == 0x24;
    assert Format(12) == 4;
  }

  /** Digits from the last to the first, with a space in front of each full group that something precedes. */
  method PutGroups(buffer: array<char>, b: nat, value: uint32) returns (q: nat, s: nat)
    requires MAX_FREQ_PRECISION <= b <= buffer.Length
    modifies buffer
    ensures q + |Grouped(value)| == b && buffer[q..b] == Grouped(value) && s == Thousands(value)
    ensures forall k :: 0 <= k < buffer.Length && (k < q || b <= k) ==> buffer[k] == old(buffer[k])
  {
    FrequencyFits(value);
    Begin(value, []);
    hide *;
    q, s := b, 0;
    var freq: nat, format: nat := value, 0x4924;
    ghost var j: nat, tail: string := 0, [];
    while true
      invariant q + |tail| == b && buffer[q..b] == tail && Writing(value, freq, j, format, s, tail)
      invariant forall k :: 0 <= k < buffer.Length && (k < q || b <= k) ==> buffer[k] == old(buffer[k])
      decreases freq
    {
      WritingStep(value, freq, j, format, s, tail);
      var rest, c := DivideByTen(freq);
      q, tail := PutBefore(buffer, q, b, Digit(c), tail);
      if rest == 0 { return; }
      if format % 2 == 1 {
        q, tail := PutBefore(buffer, q, b, ' ', tail);
        s := s + 1;
      }
      format, freq, j := format / 2, rest, j + 1;
    }
  }

  /** The digits and spaces of `tail` are written, j of them digits and s spaces; v is left. */
  ghost predicate Writing(value: nat, v: nat, j: nat, format: nat, s: nat, tail: string) {
    && j <= |tail| && format == Format(j) && s + GapsLeft(v, j % 3) == Thousands(value)
    && Grouped(value) == Left(v, j % 3) + tail
  }

  lemma Begin(value: nat, tail: string)
    requires tail == []
    ensures Writing(value, value, 0, 0x4924, 0, tail)
  {
    LeftIsGrouped(value);
  }

  lemma WritingStep(value: nat, v: nat, j: nat, format: nat, s: nat, tail: string)
    requires Writing(value, v, j, format, s, tail) && |Grouped(value)| <= 13
    ensures var r := [Digit(v % 10)] + tail;
      && |r| <= |Grouped(value)| && (v < 10 ==> r == Grouped(value) && s == Thousands(value))
      && (v >= 10 ==> |r| < |Grouped(value)|)
      && (v >= 10 && format % 2 == 1 ==>
          |r| + 1 < |Grouped(value)| && Writing(value, v / 10, j + 1, format / 2, s + 1, [' '] + r))
      && (v >= 10 && format % 2 == 0 ==> Writing(value, v / 10, j + 1, format / 2, s, r))
  {
    hide Digit, Left, GapsLeft, Grouped, Thousands, Format;
    var phase := j % 3;
    if v < 10 {
      LeftOne(v, phase);
    } else {
      LeftOnce(v, phase);
      FormatBit(j);
      NextFormat(j);
      Behind(Left(v / 10, (phase + 1) % 3), [Digit(v % 10)], tail);
    }
  }

  lemma NextFormat(j: nat)
    ensures Format(j + 1) == Format(j) / 2 && (j + 1) % 3 == (j % 3 + 1) % 3
  {}

  lemma Behind(l: string, d: string, tail: string)
    ensures l + " " + d + tail == l + ([' '] + (d + tail)) && l + "" + d + tail == l + (d + tail)
  {}

  function Spaces(s: string): nat
  {
    if s == [] then 0 else Spaces(s[..|s| - 1]) + if s[|s| - 1] == ' ' then 1 else 0
  }

  lemma {:induction false} SpacesJoin(a: string, b: string)
    ensures Spaces(a + b) == Spaces(a) + Spaces(b)
  {
    if b == [] {
      assert a + b == a;
    } else {
      assert (a + b)[..|a + b| - 1] == a + b[..|b| - 1];
      SpacesJoin(a, b[..|b| - 1]);
    }
  }

  lemma {:induction false} SpacesGrouped(v: nat)
    ensures Spaces(Grouped(v)) == Thousands(v)
  {
    if v < 1000 {
      NoSpace(v);
      SpaceFree(Decimal(v));
    } else {
      SpacesGrouped(v / 1000);
      GroupedStep(v);
      NoSpaceInThree(v % 1000);
      SpaceFree(Three(v % 1000));
      hide Grouped, Three;
      SpacesJoin(Grouped(v / 1000) + " ", Three(v % 1000));
      SpacesJoin(Grouped(v / 1000), " ");
    }
  }

  lemma {:induction false} SpaceFree(s: string)
    requires ' ' !in s
    ensures Spaces(s) == 0
  {
    if s != [] { SpaceFree(s[..|s| - 1]); }
  }

  /** How far the copy may be: it has read one character more for each space it has passed. */
  ghost predicate Room(src: string, n: nat, at: nat, i: nat) {
    if at <= n then n <= |src| && i <= n - at + Spaces(src[..at]) && Spaces(src[..n]) <= 3 else at + 2 * i <= n + 7
  }

  lemma StartRoom(src: string, n: nat)
    requires n <= |src| && Spaces(src[..n]) <= 3
    ensures Room(src, n, 0, n)
  {}

  lemma NextRoom(src: string, n: nat, at: nat, i: nat)
    requires Room(src, n, at, i) && 0 < i && n + 7 <= |src|
    ensures at + 1 < |src| && Room(src, n, at + 1, i - 1) && (src[at] == ' ' ==> Room(src, n, at + 2, i - 1))
  {
    if at < n {
      MoreSpaces(src, at, n);
      assert src[..at + 1][..at] == src[..at];
      if at + 1 < n {
        MoreSpaces(src, at + 1, n);
        assert src[..at + 2][..at + 1] == src[..at + 1];
      }
    }
  }

  lemma {:induction false} MoreSpaces(src: string, k: nat, n: nat)
    requires k < n <= |src|
    ensures Spaces(src[..k]) <= Spaces(src[..n])
    decreases n
  {
    assert src[..n][..n - 1] == src[..n - 1];
    if k < n - 1 { MoreSpaces(src, k, n - 1); }
  }

  /** The copy to the front of the buffer; the areas overlap. */
  method CopyOut(buffer: array<char>, p: nat, q: nat, b: nat, spaced: bool, precision: nat) returns (r: nat)
    requires p <= q < b && b + 7 <= buffer.Length && Spaces(buffer[q..b]) <= 3
    modifies buffer
    ensures p <= r <= p + (b - q) && buffer[p..r] == Copy(old(buffer[q..]), 0, b - q, true, spaced, precision)
    ensures buffer[..p] == old(buffer[..p])
  {
    ghost var src, n := buffer[q..], b - q;
    ghost var text := Copy(src, 0, n, true, spaced, precision);
    assert src[..n] == buffer[q..b];
    StartRoom(src, n);
    StartCopy(text, src, n, [], spaced, precision);
    hide *;
    r := CopyLoop(buffer, p, q, b - q, spaced, precision, src, text);
  }

  method CopyLoop(buffer: array<char>, p: nat, q: nat, n: nat, spaced: bool, precision: nat, ghost src: string,
                  ghost text: string)
    returns (r: nat)
    requires p <= q && q + |src| == buffer.Length && forall k :: 0 <= k < |src| ==> buffer[q + k] == src[k]
    requires Copying(text, src, n, [], 0, n, true, spaced, precision)
    modifies buffer
    ensures p <= r <= p + n && r <= buffer.Length && buffer[p..r] == text
    ensures forall k :: 0 <= k < p ==> buffer[k] == old(buffer[k])
  {
    hide *;
    var i: nat, from: nat, point, left: int, more := n, q, true, precision, true;
    ghost var done: string, at: nat := [], 0;
    r := p;
    while more && i > 0
      invariant p <= r <= from <= buffer.Length && r + i <= p + n && from == q + at && |done| == r - p
      invariant forall k :: 0 <= k < |done| ==> buffer[p + k] == done[k]
      invariant if more then Copying(text, src, n, done, at, i, point, spaced, left) else text == done
      invariant forall k :: at <= k < |src| ==> buffer[q + k] == src[k]
      invariant forall k :: 0 <= k < p ==> buffer[k] == old(buffer[k])
    {
      CopyRoom(text, src, n, done, at, i, point, spaced, left);
      var c, next, still := NextChar(buffer, from, src[at], src[at + 1], point, spaced);
      ghost var d := next - from;
      CopyStep(text, src, n, done, at, i, point, spaced, left, c, d, still);
      more := still || left >= 0;
      if more {
        if !still { left := left - 1; }
        buffer[r] := c;
        r, i, done := r + 1, i - 1, done + [c];
      }
      at, from, point := at + d, next, still;
    }
    if more { CopyEnd(text, src, n, done, at, point, spaced, left); }
  }

  /** The character to copy after reading c and perhaps d, how many were read, and whether the point is still
      to come. */
  predicate Fetched(c: char, d: char, point: bool, spaced: bool, copied: char, count: nat, still: bool) {
    if c != ' ' then copied == c && count == 1 && still == point
    else if point then copied == '.' && count == 1 && !still
    else if spaced then copied == c && count == 1 && !still
    else copied == d && count == 2 && !still
  }

  method NextChar(buffer: array<char>, from: nat, ghost a: char, ghost b: char, point: bool, spaced: bool)
    returns (c: char, next: nat, still: bool)
    requires from + 1 < buffer.Length && buffer[from] == a && buffer[from + 1] == b
    ensures from < next && Fetched(a, b, point, spaced, c, next - from, still)
  {
    c, next, still := buffer[from], from + 1, point;
    if c == ' ' {
      if point {
        c, still := '.', false;
      } else if !spaced {
        c, next := buffer[next], next + 1;
      }
    }
  }

  /** `done` of the text is copied, and the copy goes on at position `at` for i more characters. */
  ghost predicate Copying(text: string, src: string, n: nat, done: string, at: nat, i: nat, point: bool, spaced: bool,
                          left: int) {
    && n + 7 <= |src| && Room(src, n, at, i)
    && text == done + Copy(src, at, i, point, spaced, left)
  }

  lemma StartCopy(text: string, src: string, n: nat, done: string, spaced: bool, left: int)
    requires done == [] && n + 7 <= |src| && Room(src, n, 0, n) && text == Copy(src, 0, n, true, spaced, left)
    ensures Copying(text, src, n, done, 0, n, true, spaced, left)
  {}

  lemma CopyEnd(text: string, src: string, n: nat, done: string, at: nat, point: bool, spaced: bool, left: int)
    requires Copying(text, src, n, done, at, 0, point, spaced, left)
    ensures text == done
  {}

  lemma CopyRoom(text: string, src: string, n: nat, done: string, at: nat, i: nat, point: bool, spaced: bool, left: int)
    requires Copying(text, src, n, done, at, i, point, spaced, left) && 0 < i
    ensures at + 1 < |src|
  {
    NextRoom(src, n, at, i);
  }

  lemma CopyStep(text: string, src: string, n: nat, done: string, at: nat, i: nat, point: bool, spaced: bool, left: int,
                 c: char, d: nat, still: bool)
    requires Copying(text, src, n, done, at, i, point, spaced, left) && 0 < i
    requires at + 1 < |src| && Fetched(src[at], src[at + 1], point, spaced, c, d, still)
    ensures if !still && left < 0 then text == done
            else Copying(text, src, n, done + [c], at + d, i - 1, still, spaced, if still then left else left - 1)
  {
    NextRoom(src, n, at, i);
    hide Room;
    Further(done, c, Copy(src, at + d, i - 1, still, spaced, if still then left else left - 1));
  }

  lemma Further(done: string, c: char, rest: string)
    ensures done + ([c] + rest) == done + [c] + rest && done + [] == done
  {}

  /** Frequency text: grouped digits at the end of 14 characters, the copy to the front, and the prefix. */
  method UlongFreq(buffer: array<char>, p: nat, freq: uint32, precision: nat) returns (r: nat)
    requires p + MAX_FREQ_PRECISION + 7 <= buffer.Length
    modifies buffer
    ensures p <= r <= p + MAX_FREQ_PRECISION + 1
    ensures buffer[p..r] == Text(freq, precision, old(buffer[p + MAX_FREQ_PRECISION..]))
    ensures buffer[..p] == old(buffer[..p])
  {
    var spaced, shown := precision == 0, precision;
    if precision == 0 || precision > MAX_FREQ_PRECISION { shown := MAX_FREQ_PRECISION; }
    ghost var junk, was := buffer[p + MAX_FREQ_PRECISION..], buffer[..];
    SpacesGrouped(freq);
    FrequencyFits(freq);
    hide Copy, Grouped, Thousands, Spaces;
    var b := p + MAX_FREQ_PRECISION;
    var q, s := PutGroups(buffer, b, freq);
    SplitAt(was, buffer[..], p, q, b);
    assert buffer[..][q..b] == buffer[q..b] && buffer[..][q..] == buffer[q..] && buffer[..][..p] == buffer[..p];
    r := CopyOut(buffer, p, q, b, spaced, shown);
    ghost var front := buffer[p..r];
    r := PutSuffix(buffer, p, r, s, spaced);
    assert Thousands(freq) == s;
  }

  lemma SplitAt(was: string, now: string, p: nat, q: nat, b: nat)
    requires |was| == |now| && p <= q <= b <= |now|
    requires forall k :: 0 <= k < |now| && (k < q || b <= k) ==> now[k] == was[k]
    ensures now[q..] == now[q..b] + was[b..] && now[..p] == was[..p]
  {}

  method PutSuffix(buffer: array<char>, p: nat, r: nat, s: nat, spaced: bool) returns (e: nat)
    requires p <= r && r + 2 <= buffer.Length && s <= 3
    modifies buffer
    ensures r < e <= r + 2 && (e == r + 2 <==> spaced && s != 0)
    ensures buffer[p..e] == old(buffer[p..r]) + ((if spaced && s != 0 then " " else "") + [PREFIXES[s]])
    ensures buffer[..p] == old(buffer[..p])
  {
    e := r;
    if spaced && s != 0 {
      buffer[e] := ' ';
      e := e + 1;
    }
    buffer[e] := PREFIXES[s];
    e := e + 1;
  }
}
