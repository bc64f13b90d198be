/** Numbers to text and back: the digit printer of chprintf.c and the parser of common.c, on 32-bit words. */
module Numbers {
  import opened Arithmetic

  const MAX_FILLER := 11

  function Digit(c: nat): char
    requires c < 36
  {
    (if c > 9 then 'A' as int + c - 10 else '0' as int + c) as char
  }

  /** v without its last digit, in radix b. */
  function Front(v: nat, b: nat): (q: nat)
    requires 2 <= b
    ensures v > 0 ==> q < v
    ensures q == 0 <==> v < b
  {
    QuotientFacts(v, b);
    v / b
  }

  /** Its last digit. */
  function Last(v: nat, b: nat): (c: nat)
    requires 2 <= b
    ensures c < b && (v < b ==> c == v)
  {
    QuotientFacts(v, b);
    v % b
  }

  lemma QuotientFacts(v: nat, b: nat)
    requires 2 <= b
    ensures 0 <= v / b && 0 <= v % b < b && v == b * (v / b) + v % b
    ensures v < b ==> v / b == 0 && v % b == v
    ensures b <= v ==> 0 < v / b < v
  {
    var q, c := v / b, v % b;
    assert v == b * q + c && 0 <= c < b;
    Factors(b, q);
  }

  lemma Factors(b: nat, q: int)
    requires 2 <= b
    ensures q < 0 ==> b * q <= -1 * b
    ensures q > 0 ==> b <= b * q && 2 * q <= b * q
  {
    if q < 0 { assert b * q == -1 * b - b * (-q - 1) && 0 <= b * (-q - 1); }
    if q > 0 { assert b * q == b + b * (q - 1) && b * q == 2 * q + (b - 2) * q; }
  }

  lemma Recompose(v: nat, b: nat)
    requires 2 <= b
    ensures v == b * Front(v, b) + Last(v, b)
  {
    QuotientFacts(v, b);
  }

  /** The digits of v in a radix, most significant first, at least w of them and at least one. */
  function Digits(v: nat, radix: nat, w: nat): (s: string)
    requires 2 <= radix <= 36
    ensures 1 <= |s| && w <= |s|
    decreases v + w
  {
    if w <= 1 && v < radix then [Digit(v)]
    else Digits(Front(v, radix), radix, Less(w)) + [Digit(Last(v, radix))]
  }

  function Less(w: nat): nat { if w == 0 then 0 else w - 1 }

  function Power(b: nat, n: nat): nat { if n == 0 then 1 else b * Power(b, n - 1) }

  lemma {:induction false} DigitsFit(v: nat, radix: nat, w: nat, n: nat)
    requires 2 <= radix <= 36 && w <= n && 1 <= n && v < Power(radix, n)
    ensures |Digits(v, radix, w)| <= n
    decreases n
  {
    hide Front;
    if w > 1 || v >= radix {
      Recompose(v, radix);
      Smaller(v, radix, Front(v, radix), Power(radix, n - 1));
      if n > 1 { DigitsFit(Front(v, radix), radix, Less(w), n - 1); }
    }
  }

  lemma Smaller(v: nat, b: nat, q: nat, p: nat)
    ensures b * q <= v < b * p ==> q < p
  {
    if p <= q { assert b * q == b * p + b * (q - p); }
  }

  /** A word needs at most 11 digits in each radix that is printed. */
  lemma WordFits(v: uint32, radix: nat, w: nat)
    requires radix == 8 || radix == 10 || radix == 16
    requires w <= MAX_FILLER
    ensures |Digits(v, radix, w)| <= MAX_FILLER
  {
    ElevenDigits(radix);
    DigitsFit(v, radix, w, MAX_FILLER);
  }

  lemma ElevenDigits(radix: nat)
    requires radix == 8 || radix == 10 || radix == 16
    ensures TWO_32 <= Power(radix, MAX_FILLER)
  {
    assert Power(radix, 3) == radix * (radix * (radix * Power(radix, 0)));
    assert Power(radix, 6) == radix * (radix * (radix * Power(radix, 3)));
    assert Power(radix, 9) == radix * (radix * (radix * Power(radix, 6)));
    assert Power(radix, 11) == radix * (radix * Power(radix, 9));
  }

  /** Writes the digits from the end of the buffer backwards, then moves them to its start. */
  method LongToString(buffer: array<char>, p: nat, value: uint32, radix: nat, precision: nat) returns (r: nat)
    requires radix == 8 || radix == 10 || radix == 16
    requires precision <= MAX_FILLER && p + MAX_FILLER <= buffer.Length
    modifies buffer
    ensures p <= r <= p + MAX_FILLER && buffer[p..r] == Digits(value, radix, precision)
    ensures buffer[..p] == old(buffer[..p]) && buffer[p + MAX_FILLER..] == old(buffer[p + MAX_FILLER..])
  {
    hide Digits;
    WordFits(value, radix, precision);
    var b := p + MAX_FILLER;
    var q := PutDigits(buffer, b, value, radix, precision);
    MoveDown(buffer, p, q, b);
    r := p + (b - q);
  }

  method PutDigits(buffer: array<char>, b: nat, value: nat, radix: nat, precision: nat) returns (q: nat)
    requires 2 <= radix <= 36 && |Digits(value, radix, precision)| <= b <= buffer.Length
    modifies buffer
    ensures q + |Digits(value, radix, precision)| == b && buffer[q..b] == Digits(value, radix, precision)
    ensures forall k :: 0 <= k < buffer.Length && (k < q || b <= k) ==> buffer[k] == old(buffer[k])
  {
    ghost var text, was := Digits(value, radix, precision), buffer[..];
    var num, more, w := value, true, precision;
    q := b;
    hide Front, Last, Digit, Digits, Rest;
    ghost var tail: string := [];
    StartRest(value, radix, precision, tail);
    while more
      invariant q + |tail| == b && buffer[q..b] == tail && |text| <= b && text == Rest(num, radix, w, more) + tail
      invariant forall k :: 0 <= k < buffer.Length && (k < q || b <= k) ==> buffer[k] == was[k]
      decreases if more then num + w + 1 else 0
    {
      Split(num, radix, w, tail);
      q, tail := PutBefore(buffer, q, b, Digit(Last(num, radix)), tail);
      num, w := Front(num, radix), Less(w);
      more := w > 0 || num > 0;
    }
    NoRest(num, radix, w);
  }

  /** *--q = c, in front of what has been written up to b. */
  method Put(buffer: array<char>, q: nat, b: nat, c: char)
    requires q < b <= buffer.Length
    modifies buffer
    ensures buffer[q..b] == [c] + old(buffer[q + 1..b])
    ensures forall k :: 0 <= k < buffer.Length && k != q ==> buffer[k] == old(buffer[k])
  {
    buffer[q] := c;
  }

  /** One character more in front of the text. */
  method PutBefore(buffer: array<char>, q: nat, b: nat, c: char, ghost tail: string)
    returns (q': nat, ghost tail': string)
    requires 0 < q <= b <= buffer.Length && buffer[q..b] == tail
    modifies buffer
    ensures q' == q - 1 && tail' == [c] + tail && buffer[q'..b] == tail' && q' + |tail'| == b
    ensures forall k :: 0 <= k < buffer.Length && (k < q' || b <= k) ==> buffer[k] == old(buffer[k])
  {
    q', tail' := q - 1, [c] + tail;
    Put(buffer, q', b, c);
  }

  /** What remains to be written before the digits that are there. */
  function Rest(num: nat, radix: nat, w: nat, more: bool): string
    requires 2 <= radix <= 36
  {
    if more then Digits(num, radix, w) else []
  }

  lemma StartRest(v: nat, radix: nat, w: nat, tail: string)
    requires 2 <= radix <= 36 && tail == []
    ensures Digits(v, radix, w) == Rest(v, radix, w, true) + tail
  {}

  lemma NoRest(v: nat, radix: nat, w: nat)
    requires 2 <= radix <= 36
    ensures Rest(v, radix, w, false) == []
  {}

  lemma Split(v: nat, radix: nat, w: nat, tail: string)
    requires 2 <= radix <= 36
    ensures 1 <= |Rest(v, radix, w, true)|
    ensures var u, q := Less(w), Front(v, radix);
      Rest(v, radix, w, true) + tail == Rest(q, radix, u, u > 0 || q > 0) + ([Digit(Last(v, radix))] + tail)
  {
    hide Front, Last;
  }

  /** Copies buffer[q..b] to p, first character first; the areas may overlap. */
  method MoveDown(buffer: array<char>, p: nat, q: nat, b: nat)
    requires p <= q < b <= buffer.Length
    modifies buffer
    ensures buffer[p..p + (b - q)] == old(buffer[q..b])
    ensures buffer[..p] == old(buffer[..p]) && buffer[b..] == old(buffer[b..])
  {
    ghost var was := buffer[..];
    var i, to, from := b - q, p, q;
    while i > 0
      invariant 0 <= i <= b - q && from == b - i && to == p + (b - q - i)
      invariant forall k :: 0 <= k < buffer.Length && (k < p || from <= k) ==> buffer[k] == was[k]
      invariant buffer[p..to] == was[q..from]
    {
      buffer[to] := buffer[from];
      to, from, i := to + 1, from + 1, i - 1;
    }
  }

  // ---- the parser ----

  /** The value of a character as the parser takes it: the difference with '0' in 32 bits, and from 'A' on
      with bit 5 of that difference cleared and 'A' moved to 10. */
  function DigitValue(c: char): nat {
    var d := (c as int - '0' as int) % TWO_32;
    if d >= 'A' as int - '0' as int then
      ((if d / 0x20 % 2 == 1 then d - 0x20 else d) - ('A' as int - '0' as int) + 10) % TWO_32
    else d
  }

  /** Exactly these bytes are taken for digits of a radix. Besides the usual ones these are ':' to '?' in
      hexadecimal, and as many characters from 'W' on as the radix has digits, because bit 5 is cleared
      after '0' was subtracted. */
  lemma TakenIff(c: char, radix: nat)
    requires c < 256 as char && (radix == 2 || radix == 8 || radix == 10 || radix == 16)
    ensures DigitValue(c) < radix <==>
            || '0' as int <= c as int < '0' as int + radix
            || (radix == 16 && 'A' <= c <= 'F')
            || 'W' as int <= c as int < 'W' as int + radix
  {
    DigitCases(c);
    hide DigitValue;
  }

  lemma DigitCases(c: char)
    requires c < 256 as char
    ensures var v, d := DigitValue(c), c as int - '0' as int;
      if d < 0 then 36 <= v else if d < 17 then v == d else if d < 32 then v == d - 7
      else if d < 39 then 36 <= v else if d < 64 then v == d - 39 else 36 <= v
  {
    var d := c as int - '0' as int;
    Word(d);
    if 17 <= d { Word(d - 7); Word(d - 39); BitFive(d); }
    if d < 0 { Word(d + TWO_32 - 7); Word(d + TWO_32 - 39); }
  }

  lemma Word(d: int)
    ensures 0 <= d < TWO_32 ==> d % TWO_32 == d
    ensures -TWO_32 <= d < 0 ==> d % TWO_32 == d + TWO_32
  {}

  lemma BitFive(d: nat)
    ensures d < 0x20 ==> d / 0x20 % 2 == 0
    ensures 0x20 <= d < 0x40 ==> d / 0x20 % 2 == 1
  {}

  /** So "1X" reads as 11. */
  lemma LettersTaken()
    ensures Parse("1X" + [0 as char]) == 11
  {
    var s := "1X" + [0 as char];
    assert s[1..][0] == 'X' && s[1..][1..][0] == 0 as char;
    assert DigitValue('1') == 1 && DigitValue('X') == 1 && DigitValue(0 as char) >= 10;
    assert Accumulate(s[1..], 10, 1) == Accumulate(s[1..][1..], 10, 11);
  }

  /** Reads digits until a character is none, in 32 bits. */
  function Accumulate(s: string, radix: nat, value: uint32): uint32
    requires 0 as char in s && radix <= 16
  {
    NulEnds(s);
    var c := DigitValue(s[0]);
    if c >= radix then value else Accumulate(s[1..], radix, (value * radix + c) % TWO_32)
  }

  /** The terminator is no digit. */
  lemma NulEnds(s: string)
    requires 0 as char in s
    ensures 0 < |s| && (DigitValue(s[0]) < 16 ==> 0 as char in s[1..])
  {
    var i :| 0 <= i < |s| && s[i] == 0 as char;
    if i > 0 { assert s[1..][i - 1] == 0 as char; }
  }

  /** Radix prefix, if there is one. */
  function Radix(s: string): nat
    requires 2 <= |s|
  {
    if s[0] != '0' then 10 else if s[1] == 'x' then 16 else if s[1] == 'o' then 8 else if s[1] == 'b' then 2 else 10
  }

  function Parse(s: string): uint32
    requires 0 as char in s
  {
    var t := if s[0] == '+' then s[1..] else s;
    if |t| < 2 || Radix(t) == 10 then Accumulate(t, 10, 0) else Accumulate(t[2..], Radix(t), 0)
  }

  method MyAtoui(s: string) returns (value: uint32)
    requires 0 as char in s
    ensures value == Parse(s)
  {
    var p, radix := 0, 10;
    if s[p] == '+' { p := p + 1; }
    ghost var t := s[p..];
    assert 0 as char in t;
    if s[p] == '0' {
      match s[p + 1] {
        case 'x' => radix := 16; p := p + 2;
        case 'o' => radix := 8; p := p + 2;
        case 'b' => radix := 2; p := p + 2;
        case _ =>
      }
    }
    assert s[p..] == if |t| < 2 || Radix(t) == 10 then t else t[2..];
    hide DigitValue, Accumulate;
    value := ReadDigits(s, p, radix);
  }

  method ReadDigits(s: string, start: nat, radix: nat) returns (value: uint32)
    requires start < |s| && 0 as char in s[start..] && radix <= 16
    ensures value == Accumulate(s[start..], radix, 0)
  {
    value := 0;
    var p := start;
    hide DigitValue;
    while true
      invariant p < |s| && 0 as char in s[p..]
      invariant Accumulate(s[start..], radix, 0) == Accumulate(s[p..], radix, value)
      decreases |s| - p
    {
      NulEnds(s[p..]);
      var c := DigitValue(s[p]);
      p := p + 1;
      if c >= radix { return; }
      assert s[p - 1..][1..] == s[p..];
      value := (value * radix + c) % TWO_32;
    }
  }

  // ---- what is printed reads back ----

  lemma WrapStep(x: nat, radix: nat, d: nat)
    ensures (x % TWO_32 * radix + d) % TWO_32 == (x * radix + d) % TWO_32
  {
    var k, y := x / TWO_32, x % TWO_32;
    assert x * radix + d == TWO_32 * (k * radix) + (y * radix + d) by {
      assert x * radix == (TWO_32 * k + y) * radix == TWO_32 * (k * radix) + y * radix;
    }
    WrapMultiple(y * radix + d, k * radix);
  }

  lemma WrapMultiple(x: nat, k: nat)
    ensures (TWO_32 * k + x) % TWO_32 == x % TWO_32
  {}

  lemma DigitReads(c: nat)
    requires c < 16
    ensures DigitValue(Digit(c)) == c
  {}

  lemma AccumulateOne(c: nat, rest: string, radix: nat, value: uint32)
    requires c < radix <= 16 && 0 as char in rest
    ensures Accumulate([Digit(c)] + rest, radix, value) == Accumulate(rest, radix, (value * radix + c) % TWO_32)
  {
    DigitReads(c);
    hide DigitValue;
    assert ([Digit(c)] + rest)[1..] == rest;
  }

  /** Reading the printed digits continues the value in 32 bits. */
  lemma {:induction false} AccumulateDigits(v: nat, radix: nat, w: nat, rest: string, value: uint32)
    requires 2 <= radix <= 16 && 0 as char in rest
    ensures var d := Digits(v, radix, w);
      Accumulate(d + rest, radix, value) == Accumulate(rest, radix, (value * Power(radix, |d|) + v) % TWO_32)
    decreases v + w
  {
    hide Front, Last, Digit, Accumulate, DigitValue, Power;
    var c, q, d := Last(v, radix), Front(v, radix), Digits(v, radix, w);
    Recompose(v, radix);
    if w <= 1 && v < radix {
      AccumulateOne(v, rest, radix, value);
      PowerNext(radix, 0);
    } else {
      var e := Digits(q, radix, Less(w));
      assert d + rest == e + ([Digit(c)] + rest);
      hide Digits;
      AccumulateDigits(q, radix, Less(w), [Digit(c)] + rest, value);
      PowerNext(radix, |e|);
      var p := Power(radix, |e|);
      AccumulateOne(c, rest, radix, (value * p + q) % TWO_32);
      WrapDigit(value, p, radix, q, c, v);
    }
  }

  lemma PowerNext(b: nat, n: nat)
    ensures Power(b, n + 1) == b * Power(b, n) && Power(b, 0) == 1
  {}

  lemma WrapDigit(value: nat, p: nat, radix: nat, q: nat, c: nat, v: nat)
    requires v == radix * q + c
    ensures ((value * p + q) % TWO_32 * radix + c) % TWO_32 == (value * (radix * p) + v) % TWO_32
  {
    WrapStep(value * p + q, radix, c);
    assert (value * p + q) * radix + c == value * (radix * p) + v;
  }

  lemma Stops(rest: string, radix: nat, value: uint32)
    requires 0 as char in rest && radix <= 16 && radix <= DigitValue(rest[0])
    ensures Accumulate(rest, radix, value) == value
  {
    hide DigitValue;
  }

  lemma AccumulateAll(v: uint32, radix: nat, w: nat, rest: string)
    requires 2 <= radix <= 16 && 0 as char in rest && radix <= DigitValue(rest[0])
    ensures Accumulate(Digits(v, radix, w) + rest, radix, 0) == v
  {
    hide Digits, DigitValue, Power, Accumulate;
    AccumulateDigits(v, radix, w, rest, 0);
    Stops(rest, radix, v);
    var p := Power(radix, |Digits(v, radix, w)|);
    assert 0 * p == 0;
  }

  lemma {:induction false} DecimalDigits(v: nat, w: nat, i: nat)
    requires i < |Digits(v, 10, w)|
    ensures '0' <= Digits(v, 10, w)[i] <= '9'
    decreases v + w
  {
    hide Front, Last;
    if !(w <= 1 && v < 10) && i < |Digits(v, 10, w)| - 1 { DecimalDigits(Front(v, 10), Less(w), i); }
  }

  /** Decimal digits, however many leading zeros they have, read back as the number that was printed, unless
      a single 0 is followed by a letter that makes it a radix prefix. */
  lemma DecimalRoundTrip(v: uint32, w: nat, rest: string)
    requires 0 as char in rest && 10 <= DigitValue(rest[0])
    requires Digits(v, 10, w) == "0" ==> rest[0] != 'x' && rest[0] != 'o' && rest[0] != 'b'
    ensures Parse(Digits(v, 10, w) + rest) == v
  {
    hide DigitValue, Digits, Accumulate;
    var d := Digits(v, 10, w);
    AccumulateAll(v, 10, w, rest);
    DecimalDigits(v, w, 0);
    if |d| > 1 { DecimalDigits(v, w, 1); } else { assert d == [d[0]]; }
    ParsesDecimal(d + rest);
  }

  lemma ParsesDecimal(s: string)
    requires 0 as char in s && 2 <= |s| && s[0] != '+'
    requires s[0] == '0' ==> s[1] != 'x' && s[1] != 'o' && s[1] != 'b'
    ensures Parse(s) == Accumulate(s, 10, 0)
  {
    hide Accumulate;
  }

  function Prefix(radix: nat): string
    requires radix == 2 || radix == 8 || radix == 16
  {
    if radix == 2 then "0b" else if radix == 8 then "0o" else "0x"
  }

  /** So do binary, octal and hexadecimal digits behind their prefix, with or without a plus sign. */
  lemma PrefixRoundTrip(v: uint32, radix: nat, w: nat, plus: bool, rest: string)
    requires radix == 2 || radix == 8 || radix == 16
    requires 0 as char in rest && radix <= DigitValue(rest[0])
    ensures var s := Prefix(radix) + (Digits(v, radix, w) + rest);
      Parse(if plus then "+" + s else s) == v
  {
    hide DigitValue, Digits, Accumulate;
    AccumulateAll(v, radix, w, rest);
    ParsesPrefixed(radix, Digits(v, radix, w) + rest);
  }

  lemma ParsesPrefixed(radix: nat, d: string)
    requires radix == 2 || radix == 8 || radix == 16
    requires 0 as char in d
    ensures var s := Prefix(radix) + d;
      0 as char in s && 0 as char in "+" + s && Parse(s) == Accumulate(d, radix, 0) == Parse("+" + s)
  {
    hide Accumulate;
    var s := Prefix(radix) + d;
    assert s[2..] == d && ("+" + s)[1..] == s;
    assert s[0] == '0' && Radix(s) == radix;
  }
}
