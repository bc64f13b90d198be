/** Saving the screen to a TIFF file and loading it back (ui.c, save_tiff and load_tiff): two pixel
    conversions in place in one buffer, a PackBits code per row, and the row decoder. */
module Screenshot {
  import opened Arithmetic
  import opened Bytes
  import opened PackBits

  type word = x: int | 0 <= x < 0x1_0000

  /** A row of display words as the 16-bit little-endian buffer holds it. */
  function RowBytes(row: seq<word>): (r: seq<byte>)
    ensures |r| == 2 * |row|
  {
    seq(2 * |row|, j requires 0 <= j < 2 * |row| => (if j % 2 == 0 then row[j / 2] % 256 else row[j / 2] / 256) as byte)
  }

  // ---- pixels ----

  /** The three 8-bit channels of a display word RRRRRGGG GGGBBBBB (low byte first), each stretched to the
      full range above its middle. */
  function Red(p: word): byte { var c := p % 256 / 8 * 8; if c > 128 then c + 7 else c }
  function Green(p: word): byte { var c := (p % 8 * 8 + p / 256 / 32) * 4; if c > 128 then c + 3 else c }
  function Blue(p: word): byte { var c := p / 256 % 32 * 8; if c > 128 then c + 7 else c }

  /** RGB565 in display byte order. */
  function Rgb565(r: byte, g: byte, b: byte): word {
    (r / 8 * 8 + g / 32) + 256 * (g / 4 % 8 * 32 + b / 8)
  }

  /** No display colour is changed by the trip through 24 bits. */
  lemma PixelRoundTrip(p: word)
    ensures Rgb565(Red(p), Green(p), Blue(p)) == p
  {
    var low, high := p % 256, p / 256;
    assert p % 8 == low % 8;
    var g := low % 8 * 8 + high / 32;
    assert Green(p) / 4 == g;
    assert Green(p) / 32 == low % 8 by { assert Green(p) / 32 == Green(p) / 4 / 8; }
    assert Red(p) / 8 == low / 8;
    assert Blue(p) / 8 == high % 32;
    assert g % 8 == high / 32;
  }

  /** The colour a word stands for, its bytes in the other order: five bits of red, six of green, five of blue. */
  function Colour(p: word): word { p % 256 * 256 + p / 256 }

  /** The upper bits of each channel are the field of the colour; the bits below are all set above the middle, so that
      full intensity is 255, and clear up to there, so that none is 0. */
  lemma FullScale(p: word)
    ensures var r, g, b := Colour(p) / 2048, Colour(p) / 32 % 64, Colour(p) % 32;
      && Red(p) == 8 * r + (if r > 16 then 7 else 0)
      && Green(p) == 4 * g + (if g > 32 then 3 else 0)
      && Blue(p) == 8 * b + (if b > 16 then 7 else 0)
    ensures Colour(p) == 0xFFFF ==> Red(p) == Green(p) == Blue(p) == 255
    ensures Colour(p) == 0 ==> Red(p) == Green(p) == Blue(p) == 0
  {
    var low, high := p % 256, p / 256;
    Fields(low, high);
    assert p % 8 == low % 8;
    RedFull(low);
    GreenFull(low % 8 * 8 + high / 32);
    RedFull(high % 32 * 8);
  }

  lemma Fields(low: nat, high: nat)
    requires low < 256 && high < 256
    ensures (low * 256 + high) / 2048 == low / 8 && (low * 256 + high) % 32 == high % 32
    ensures (low * 256 + high) / 32 % 64 == low % 8 * 8 + high / 32
  {
    assert (low * 256 + high) / 32 == low * 8 + high / 32;
    RemainderIs(low * 8 + high / 32, 64, low / 8, low % 8 * 8 + high / 32);
  }

  lemma RedFull(c: nat)
    requires c < 256
    ensures c / 8 * 8 > 128 <==> c / 8 > 16
    ensures c / 8 < 32
  {}

  lemma GreenFull(g: nat)
    requires g < 64
    ensures g * 4 > 128 <==> g > 32
  {}

  /** The 24-bit row. */
  function Channel(p: word, k: nat): byte
    requires k < 3
  {
    if k == 0 then Red(p) else if k == 1 then Green(p) else Blue(p)
  }

  function RgbRow(row: seq<word>): (r: seq<byte>)
    ensures |r| == 3 * |row|
  {
    seq(3 * |row|, j requires 0 <= j < 3 * |row| => Channel(row[j / 3], j % 3))
  }

  /** The words a 24-bit row of w pixels packs into. */
  function PackedRow(rgb: seq<byte>, w: nat): (r: seq<word>)
    requires |rgb| == 3 * w
    ensures |r| == w
  {
    seq(w, x requires 0 <= x < w => Rgb565(rgb[3 * x], rgb[3 * x + 1], rgb[3 * x + 2]))
  }

  lemma RowBytesAt(row: seq<word>, x: nat)
    requires x < |row|
    ensures RowBytes(row)[2 * x] == row[x] % 256 && RowBytes(row)[2 * x + 1] == row[x] / 256
  {}

  lemma RgbRowAt(row: seq<word>, x: nat)
    requires x < |row|
    ensures RgbRow(row)[3 * x] == Red(row[x]) && RgbRow(row)[3 * x + 1] == Green(row[x])
    ensures RgbRow(row)[3 * x + 2] == Blue(row[x])
  {
    assert (3 * x + 1) / 3 == x && (3 * x + 2) / 3 == x;
  }

  lemma RowRoundTrip(row: seq<word>)
    ensures PackedRow(RgbRow(row), |row|) == row
  {
    hide Rgb565, Red, Green, Blue, RgbRow;
    forall x | 0 <= x < |row| ensures PackedRow(RgbRow(row), |row|)[x] == row[x] {
      RgbRowAt(row, x);
      PixelRoundTrip(row[x]);
    }
  }

  /** Where save_tiff puts the 24-bit row: above the words it is expanded from. */
  const RGB_OFFSET := 128

  /** Expand the row in place, last pixel first, so that no word is overwritten before it is read. */
  method ExpandRow(buf: array<byte>, w: nat, ghost row: seq<word>)
    requires |row| == w && RGB_OFFSET + 3 * w <= buf.Length && buf[..2 * w] == RowBytes(row)
    modifies buf
    ensures buf[RGB_OFFSET..RGB_OFFSET + 3 * w] == RgbRow(row)
    ensures forall k :: RGB_OFFSET + 3 * w <= k < buf.Length ==> buf[k] == old(buf[k])
  {
    hide RowBytes, RgbRow, Red, Green, Blue;
    ghost var words := RowBytes(row);
    var x := w;
    while x > 0
      invariant 0 <= x <= w
      invariant forall k :: 0 <= k < 2 * x ==> buf[k] == words[k]
      invariant forall j :: RGB_OFFSET + 3 * x <= j < RGB_OFFSET + 3 * w ==> buf[j] == RgbRow(row)[j - RGB_OFFSET]
      invariant forall k :: RGB_OFFSET + 3 * w <= k < buf.Length ==> buf[k] == old(buf[k])
    {
      x := x - 1;
      RowBytesAt(row, x);
      RgbRowAt(row, x);
      var p: word := buf[2 * x] as int + 256 * buf[2 * x + 1] as int;
      var at := RGB_OFFSET + 3 * x;
      buf[at] := Red(p);
      buf[at + 1] := Green(p);
      buf[at + 2] := Blue(p);
    }
  }

  /** Pack any 24-bit row back in place, first pixel first. */
  method CompressRow(buf: array<byte>, w: nat)
    requires 3 * w <= buf.Length
    modifies buf
    ensures buf[..2 * w] == RowBytes(PackedRow(old(buf[..3 * w]), w))
  {
    hide RowBytes, Rgb565;
    ghost var rgb: seq<byte> := buf[..3 * w];
    ghost var row := PackedRow(rgb, w);
    var x := 0;
    while x < w
      invariant 0 <= x <= w
      invariant forall k :: 0 <= k < 2 * x ==> buf[k] == RowBytes(row)[k]
      invariant forall j :: 3 * x <= j < 3 * w ==> buf[j] == rgb[j]
    {
      var at := 3 * x;
      var p := Rgb565(buf[at], buf[at + 1], buf[at + 2]);
      assert p == row[x];
      RowBytesAt(row, x);
      buf[2 * x] := p % 256;
      buf[2 * x + 1] := p / 256;
      x := x + 1;
    }
  }

  // ---- the file ----

  function Low16(v: nat): seq<byte> { [(v % 256) as byte, (v / 256 % 256) as byte] }
  function Low32(v: nat): seq<byte> { Low16(v) + Low16(v / 0x1_0000) }

  const SHORT := 3
  const LONG := 4
  const PACKBITS_COMPRESSION := 0x8005
  const HEADER_SIZE := 104

  /** A directory entry of a TIFF file: tag, type, count, value. */
  function Entry(tag: nat, kind: nat, count: nat, value: nat): (e: seq<byte>)
    ensures |e| == 12
  {
    Low16(tag) + Low16(kind) + Low32(count) + Low32(value)
  }

  function Header(w: nat, h: nat): (b: seq<byte>)
    ensures |b| == HEADER_SIZE
  {
    [0x49 as byte, 0x49] + Low16(0x2A) + Low32(8) + Low16(7) +
    Entry(0x100, SHORT, 1, w) + Entry(0x101, SHORT, 1, h) + Entry(0x102, SHORT, 3, 98) +
    Entry(0x103, SHORT, 1, PACKBITS_COMPRESSION) + Entry(0x106, SHORT, 1, 2) + Entry(0x111, LONG, 1, 104) +
    Entry(0x115, SHORT, 1, 3) + Low32(0) + Low16(8) + Low16(8) + Low16(8)
  }

  function WordAt(b: seq<byte>, k: nat): nat
    requires 2 * k + 1 < |b|
  {
    b[2 * k] as int + 256 * b[2 * k + 1] as int
  }

  /** The quick check of load_tiff: byte order, width, height, compression. */
  predicate Accepted(b: seq<byte>, w: nat, h: nat)
    requires HEADER_SIZE <= |b|
  {
    WordAt(b, 0) == 0x4949 && WordAt(b, 9) == w && WordAt(b, 15) == h && WordAt(b, 27) == PACKBITS_COMPRESSION
  }

  /** A header is accepted for its own picture size and for no other. */
  lemma HeaderAccepted(w: nat, h: nat, w1: nat, h1: nat)
    requires w < 0x1_0000 && h < 0x1_0000
    ensures Accepted(Header(w, h), w1, h1) <==> w1 == w && h1 == h
  {
    var b := Header(w, h);
    assert b[18] == w % 256 && b[19] == w / 256;
    assert b[30] == h % 256 && b[31] == h / 256;
    assert b[54] == 0x05 && b[55] == 0x80;
  }

  // ---- a reader of the format ----

  function U16(f: seq<byte>, at: nat): nat
    requires at + 2 <= |f|
  {
    f[at] as int + 256 * f[at + 1] as int
  }

  function U32(f: seq<byte>, at: nat): nat
    requires at + 4 <= |f|
  {
    U16(f, at) + 0x1_0000 * U16(f, at + 2)
  }

  /** A directory entry as a reader takes it: the value of a single short is in the first two bytes, any other value or
      offset in all four. */
  datatype Tag = Tag(kind: nat, count: nat, value: nat)

  function TagAt(f: seq<byte>, at: nat): Tag
    requires at + 12 <= |f|
  {
    var kind, count := U16(f, at + 2), U32(f, at + 4);
    Tag(kind, count, if kind == 3 && count == 1 then U16(f, at + 8) else U32(f, at + 8))
  }

  /** The first of n entries from `at` on with this tag. */
  function FindTag(f: seq<byte>, at: nat, n: nat, tag: nat): Option<Tag>
    decreases n
  {
    if n == 0 || |f| < at + 12 then None
    else if U16(f, at) == tag then Some(TagAt(f, at))
    else FindTag(f, at + 12, n - 1, tag)
  }

  /** A tag of the first directory of a little-endian file. */
  function Lookup(f: seq<byte>, tag: nat): Option<Tag> {
    if |f| < 8 || f[0] != 0x49 || f[1] != 0x49 || U16(f, 2) != 42 then None else
    var directory := U32(f, 4);
    if |f| < directory + 2 then None else FindTag(f, directory + 2, U16(f, directory), tag)
  }

  lemma EntryReads(f: seq<byte>, at: nat, tag: nat, kind: nat, count: nat, value: nat)
    requires at + 12 <= |f| && f[at..at + 12] == Entry(tag, kind, count, value)
    requires tag < 0x1_0000 && kind < 0x1_0000 && count < 0x1_0000 && value < 0x1_0000
    ensures U16(f, at) == tag && TagAt(f, at) == Tag(kind, count, value)
  {
    var e := f[at..at + 12];
    assert forall k :: 0 <= k < 12 ==> f[at + k] == e[k];
    assert e[0..2] == Low16(tag) && e[2..4] == Low16(kind) && e[4..8] == Low32(count) && e[8..12] == Low32(value);
    Low16Reads(tag);
    Low16Reads(kind);
    Low16Reads(count);
    Low16Reads(value);
  }

  lemma Low16Reads(v: nat)
    requires v < 0x1_0000
    ensures v % 256 + 256 * (v / 256 % 256) == v && v / 0x1_0000 == 0
  {}

  /** The entry k of the header's directory. */
  function HeaderEntry(w: nat, h: nat, k: nat): (nat, nat, nat, nat)
    requires k < 7
  {
    match k
    case 0 => (0x100, SHORT, 1, w)
    case 1 => (0x101, SHORT, 1, h)
    case 2 => (0x102, SHORT, 3, 98)
    case 3 => (0x103, SHORT, 1, PACKBITS_COMPRESSION)
    case 4 => (0x106, SHORT, 1, 2)
    case 5 => (0x111, LONG, 1, 104)
    case _ => (0x115, SHORT, 1, 3)
  }

  lemma HeaderParts(w: nat, h: nat, k: nat)
    requires k < 7
    ensures var b, (tag, kind, count, value) := Header(w, h), HeaderEntry(w, h, k);
            b[10 + 12 * k..22 + 12 * k] == Entry(tag, kind, count, value)
    ensures var b := Header(w, h);
      b[0] == b[1] == 0x49 && U16(b, 2) == 42 && U32(b, 4) == 8 && U16(b, 8) == 7 && U32(b, 94) == 0
      && U16(b, 98) == U16(b, 100) == U16(b, 102) == 8
  {
    hide Entry;
  }

  lemma HeaderAt(f: seq<byte>, w: nat, h: nat, k: nat)
    requires HEADER_SIZE <= |f| && f[..HEADER_SIZE] == Header(w, h) && w < 0x1_0000 && h < 0x1_0000 && k < 7
    ensures var (tag, kind, count, value) := HeaderEntry(w, h, k);
            U16(f, 10 + 12 * k) == tag && TagAt(f, 10 + 12 * k) == Tag(kind, count, value)
  {
    hide Header, Entry;
    HeaderParts(w, h, k);
    var (tag, kind, count, value) := HeaderEntry(w, h, k);
    assert f[..HEADER_SIZE][10 + 12 * k..22 + 12 * k] == f[10 + 12 * k..22 + 12 * k];
    EntryReads(f, 10 + 12 * k, tag, kind, count, value);
  }

  lemma {:induction false} FindFrom(f: seq<byte>, w: nat, h: nat, j: nat, k: nat)
    requires HEADER_SIZE <= |f| && f[..HEADER_SIZE] == Header(w, h) && w < 0x1_0000 && h < 0x1_0000 && j <= k < 7
    ensures var (tag, kind, count, value) := HeaderEntry(w, h, k);
            FindTag(f, 10 + 12 * j, 7 - j, tag) == Some(Tag(kind, count, value))
    decreases k - j
  {
    hide Header, U16, TagAt;
    HeaderAt(f, w, h, j);
    if j < k {
      assert HeaderEntry(w, h, j).0 != HeaderEntry(w, h, k).0;
      FindFrom(f, w, h, j + 1, k);
    }
  }

  lemma HeaderLookup(f: seq<byte>, w: nat, h: nat, k: nat)
    requires HEADER_SIZE <= |f| && f[..HEADER_SIZE] == Header(w, h) && w < 0x1_0000 && h < 0x1_0000 && k < 7
    ensures var (tag, kind, count, value) := HeaderEntry(w, h, k); Lookup(f, tag) == Some(Tag(kind, count, value))
  {
    hide Header, FindTag;
    HeaderParts(w, h, k);
    FixedFields(f, Header(w, h));
    FindFrom(f, w, h, 0, k);
  }

  lemma FixedFields(f: seq<byte>, b: seq<byte>)
    requires HEADER_SIZE <= |f| && b == f[..HEADER_SIZE]
    ensures forall k :: 0 <= k < HEADER_SIZE ==> f[k] == b[k]
    ensures forall k :: 0 <= k < HEADER_SIZE - 1 ==> U16(f, k) == U16(b, k)
    ensures U32(f, 4) == U32(b, 4) && U32(f, 94) == U32(b, 94)
  {}

  /** A reader that follows the directory finds an RGB picture of the right size with three samples of eight bits,
      PackBits coded, and the strip where the coded rows begin; no directory follows. */
  lemma ReaderFindsPicture(rows: seq<seq<word>>, w: nat)
    requires w < 0x1_0000 && |rows| < 0x1_0000
    ensures var f := TiffFile(rows, w);
      && Lookup(f, 256) == Some(Tag(3, 1, w)) && Lookup(f, 257) == Some(Tag(3, 1, |rows|))
      && Lookup(f, 259) == Some(Tag(3, 1, 32773)) && Lookup(f, 262) == Some(Tag(3, 1, 2))
      && Lookup(f, 277) == Some(Tag(3, 1, 3))
      && Lookup(f, 258).Some? && Lookup(f, 273).Some?
      && var depths, strip := Lookup(f, 258).value, Lookup(f, 273).value;
      && depths.kind == 3 && depths.count == 3 && depths.value + 6 <= |f|
      && U16(f, depths.value) == U16(f, depths.value + 2) == U16(f, depths.value + 4) == 8
      && strip.kind == 4 && strip.count == 1 && strip.value <= |f| && f[strip.value..] == Codes(rows)
      && U32(f, 10 + 12 * 7) == 0
  {
    hide Header, Lookup, Codes, U16, U32;
    var f := TiffFile(rows, w);
    assert f[..HEADER_SIZE] == Header(w, |rows|);
    HeaderLookup(f, w, |rows|, 0);
    HeaderLookup(f, w, |rows|, 1);
    HeaderLookup(f, w, |rows|, 2);
    HeaderLookup(f, w, |rows|, 3);
    HeaderLookup(f, w, |rows|, 4);
    HeaderLookup(f, w, |rows|, 5);
    HeaderLookup(f, w, |rows|, 6);
    HeaderParts(w, |rows|, 0);
    FixedFields(f, Header(w, |rows|));
  }

  /** The samples of all rows. */
  function Samples(rows: seq<seq<word>>): seq<byte> {
    if rows == [] then [] else RgbRow(rows[0]) + Samples(rows[1..])
  }

  lemma {:induction false} CodesDecode(rows: seq<seq<word>>, skip: bool)
    ensures Decode(Codes(rows), skip) == Some(Samples(rows))
  {
    hide RgbRow, Encode, Decode;
    if rows == [] {
      DecodeNothing(skip);
    } else {
      CodesDecode(rows[1..], skip);
      DecodeEncode(RgbRow(rows[0]), skip);
      DecodeAppend(Encode(RgbRow(rows[0])), Codes(rows[1..]), skip);
    }
  }

  /** Where the samples of a pixel begin. */
  function SampleOf(w: nat, x: nat, y: nat): nat {
    NotNegative(y, w);
    3 * (y * w + x)
  }

  lemma {:induction false} SampleAt(rows: seq<seq<word>>, w: nat, x: nat, y: nat)
    requires Rectangular(rows, w) && x < w && y < |rows|
    ensures var s, at, p := Samples(rows), SampleOf(w, x, y), rows[y][x];
            at + 2 < |s| && s[at] == Red(p) && s[at + 1] == Green(p) && s[at + 2] == Blue(p)
  {
    hide RgbRow, Red, Green, Blue;
    var s := Samples(rows);
    if y == 0 {
      RgbRowAt(rows[0], x);
      assert SampleOf(w, x, y) == 3 * x;
    } else {
      SampleAt(rows[1..], w, x, y - 1);
      assert SampleOf(w, x, y) == 3 * w + SampleOf(w, x, y - 1) by { assert y * w == w + (y - 1) * w; }
      assert rows[1..][y - 1] == rows[y];
    }
  }

  /** What the reader decodes, from its strip offset on. */
  function Picture(f: seq<byte>, skip: bool): Option<seq<byte>> {
    match Lookup(f, 273)
    case None => None
    case Some(strip) => if |f| < strip.value then None else Decode(f[strip.value..], skip)
  }

  lemma PictureIs(rows: seq<seq<word>>, w: nat, skip: bool)
    requires w < 0x1_0000 && |rows| < 0x1_0000
    ensures Picture(TiffFile(rows, w), skip) == Some(Samples(rows))
  {
    hide Codes, Decode, Samples, U16, U32, Lookup, TiffFile;
    ReaderFindsPicture(rows, w);
    CodesDecode(rows, skip);
  }

  /** It is the picture of the screen, with either reading of header -128: row by row and pixel by pixel red, green and
      blue, stretched to eight bits. */
  lemma ReaderSeesPixel(rows: seq<seq<word>>, w: nat, x: nat, y: nat, skip: bool)
    requires w < 0x1_0000 && |rows| < 0x1_0000 && Rectangular(rows, w) && x < w && y < |rows|
    ensures var picture, at := Picture(TiffFile(rows, w), skip), SampleOf(w, x, y);
      && picture.Some? && at + 2 < |picture.value|
      && ShowsColour(picture.value[at], picture.value[at + 1], picture.value[at + 2], Colour(rows[y][x]))
  {
    hide Samples, ShowsColour, TiffFile, Picture, Colour, SampleOf;
    PictureIs(rows, w, skip);
    SampleAt(rows, w, x, y);
    ChannelsShow(rows[y][x]);
  }

  /** Red, green and blue carry the fields of a colour. */
  predicate ShowsColour(r: byte, g: byte, b: byte, colour: word) {
    r / 8 == colour / 2048 && g / 4 == colour / 32 % 64 && b / 8 == colour % 32
  }

  lemma ChannelsShow(p: word)
    ensures ShowsColour(Red(p), Green(p), Blue(p), Colour(p))
  {
    hide Red, Green, Blue, Colour;
    FullScale(p);
    FieldBounds(Colour(p));
  }

  lemma FieldBounds(c: word)
    ensures c / 2048 < 32 && c / 32 % 64 < 64 && c % 32 < 32
  {}

  /** The coded rows, one after the other. */
  function Codes(rows: seq<seq<word>>): seq<byte> {
    if rows == [] then [] else Encode(RgbRow(rows[0])) + Codes(rows[1..])
  }

  function TiffFile(rows: seq<seq<word>>, w: nat): seq<byte> { Header(w, |rows|) + Codes(rows) }

  ghost predicate Rectangular(rows: seq<seq<word>>, w: nat) {
    forall y :: 0 <= y < |rows| ==> |rows[y]| == w
  }

  /** The widths the shared buffer serves: the row fits above the code and the code never overtakes it. */
  ghost predicate BufferServes(w: nat, length: nat) {
    Overhead(3 * w) <= RGB_OFFSET && RGB_OFFSET + 3 * w + Overhead(3 * w) <= length
  }

  /** Both displays, with the 4096-byte cell buffer. */
  lemma DisplaysServed()
    ensures BufferServes(320, 4096) && BufferServes(480, 4096)
  {}

  /** Read a row of display memory into the start of the buffer. */
  method ReadMemory(row: seq<word>, buf: array<byte>)
    requires 2 * |row| <= buf.Length
    modifies buf
    ensures buf[..2 * |row|] == RowBytes(row)
  {
    var bytes := RowBytes(row);
    forall k | 0 <= k < |bytes| {
      buf[k] := bytes[k];
    }
  }

  /** One row of the file, through the shared buffer: read, expand in place, pack in place. */
  method CodeRow(row: seq<word>, w: nat, buf: array<byte>) returns (code: seq<byte>)
    requires |row| == w && BufferServes(w, buf.Length)
    modifies buf
    ensures code == Encode(RgbRow(row))
  {
    hide RgbRow, RowBytes, Encode, Overlay;
    ReadMemory(row, buf);
    ExpandRow(buf, w, row);
    var size := Pack(buf, RGB_OFFSET, 0, 3 * w);
    code := buf[..size];
  }

  lemma CodesStep(rows: seq<seq<word>>, y: nat)
    requires y < |rows|
    ensures Codes(rows[y..]) == Encode(RgbRow(rows[y])) + Codes(rows[y + 1..])
  {
    assert rows[y..][0] == rows[y] && rows[y..][1..] == rows[y + 1..];
  }

  lemma CodesEnd(rows: seq<seq<word>>)
    ensures Codes(rows[|rows|..]) == []
  {}

  /** Save the screen row by row; a progress mark then overwrites the last pixel of the row just saved. */
  method SaveTiff(screen: array<seq<word>>, w: nat, mark: word, buf: array<byte>) returns (file: seq<byte>)
    requires 1 <= w && Rectangular(screen[..], w) && BufferServes(w, buf.Length)
    modifies screen, buf
    ensures file == TiffFile(old(screen[..]), w)
    ensures screen.Length == |old(screen[..])| &&
            forall y :: 0 <= y < screen.Length ==> screen[y] == old(screen[y])[w - 1 := mark]
  {
    hide Header, RgbRow, Encode, Codes, BufferServes;
    ghost var rows: seq<seq<word>> := screen[..];
    file := Header(w, screen.Length);
    assert rows[0..] == rows;
    for y := 0 to screen.Length
      invariant forall k :: 0 <= k < y ==> screen[k] == rows[k][w - 1 := mark]
      invariant forall k :: y <= k < screen.Length ==> screen[k] == rows[k]
      invariant TiffFile(rows, w) == file + Codes(rows[y..])
    {
      var code := CodeRow(screen[y], w, buf);
      CodesStep(rows, y);
      assert file + (code + Codes(rows[y + 1..])) == (file + code) + Codes(rows[y + 1..]);
      file := file + code;
      screen[y] := screen[y][w - 1 := mark];
    }
    CodesEnd(rows);
  }

  // ---- loading ----

  /** The first block of a code, in the firmware's reading. */
  lemma DecodeStep(code: seq<byte>, row: seq<byte>)
    requires Decode(code, false) == Some(row)
    ensures row == [] <==> code == []
    ensures row != [] ==> 2 <= |code|
    ensures row != [] ==>
      var n := Signed(code[0]);
      if n >= 0 then
        n + 2 <= |code| && n + 1 <= |row| && row[..n + 1] == code[1..n + 2] &&
        Decode(code[n + 2..], false) == Some(row[n + 1..])
      else
        1 - n <= |row| && row[..1 - n] == Copies(code[1], 1 - n) && Decode(code[2..], false) == Some(row[1 - n..])
  {
    if code != [] {
      var n := Signed(code[0]);
      if n >= 0 {
        var rest := Decode(code[n + 2..], false).value;
        assert row == code[1..n + 2] + rest;
        assert row[n + 1..] == rest;
      } else {
        var rest := Decode(code[2..], false).value;
        assert row == Copies(code[1], 1 - n) + rest;
        assert row[1 - n..] == rest;
      }
    }
  }

  /** f_read of n bytes: what is left of the file when it is shorter. */
  function Left(file: seq<byte>, pos: nat, n: nat): (m: nat)
    requires pos <= |file|
    ensures m <= n && pos + m <= |file|
  {
    Min(n, |file| - pos)
  }

  /** One block of the row decoder: count and first byte, then the other bytes or the repeats. A file that
      ends inside the block leaves what it did not deliver as it happens to be. */
  method ReadBlock(file: seq<byte>, start: nat, buf: array<byte>, at: nat) returns (pos: nat, x: nat)
    requires start <= |file| && at + BLOCK + 1 <= buf.Length
    modifies buf
    ensures start <= pos <= |file| && at < x <= at + BLOCK + 1
    ensures forall k :: 0 <= k < at ==> buf[k] == old(buf[k])
    ensures start + 1 < |file| ==>
      var n := Signed(file[start]);
      if n >= 0 then
        x == at + n + 1 && pos == start + 2 + Left(file, start + 2, n) &&
        forall k :: at <= k < x && start + 1 + (k - at) < |file| ==> buf[k] == file[start + 1 + (k - at)]
      else
        x == at + 1 - n && pos == start + 2 && forall k :: at <= k < x ==> buf[k] == file[start + 1]
  {
    var data0: byte, data1: byte := *, *;
    if start < |file| { data0 := file[start]; }
    if start + 1 < |file| { data1 := file[start + 1]; }
    pos := start + Left(file, start, 2);
    var count := Signed(data0);
    x := at;
    buf[x] := data1;
    x := x + 1;
    if count > 0 {
      var n := Left(file, pos, count);
      forall k | 0 <= k < n {
        buf[x + k] := file[pos + k];
      }
      pos := pos + n;
      x := x + count;
    } else {
      ghost var all := 1 - count;
      while count < 0
        invariant count <= 0 && x - count == at + all
        invariant forall k :: 0 <= k < at ==> buf[k] == old(buf[k])
        invariant forall k :: at <= k < x ==> buf[k] == data1
      {
        buf[x] := data1;
        x := x + 1;
        count := count + 1;
      }
    }
  }

  /** The decoder at position pos of the file and x of the row: the code still to come decodes to the rest. */
  ghost predicate Midway(file: seq<byte>, pos: nat, rest: seq<byte>, row: seq<byte>, x: nat, now: seq<byte>) {
    && pos <= |file| && x <= |row| && x <= |now|
    && rest <= file[pos..] && Decode(rest, false) == Some(row[x..])
    && now[..x] == row[..x]
  }

  /** One block moves it on. */
  lemma MidwayStep(file: seq<byte>, pos: nat, rest: seq<byte>, row: seq<byte>, x: nat, before: seq<byte>,
                   pos1: nat, x1: nat, after: seq<byte>) returns (rest1: seq<byte>)
    requires Midway(file, pos, rest, row, x, before) && x < |row|
    requires x < x1 <= |after| && pos <= pos1 <= |file|
    requires |after| == |before| && forall k :: 0 <= k < x ==> after[k] == before[k]
    requires pos + 1 < |file| ==>
      var n := Signed(file[pos]);
      if n >= 0 then
        x1 == x + n + 1 && pos1 == pos + 2 + Left(file, pos + 2, n) &&
        forall k :: x <= k < x1 && pos + 1 + (k - x) < |file| ==> after[k] == file[pos + 1 + (k - x)]
      else
        x1 == x + 1 - n && pos1 == pos + 2 && forall k :: x <= k < x1 ==> after[k] == file[pos + 1]
    ensures Midway(file, pos1, rest1, row, x1, after)
    ensures pos1 + |rest1| == pos + |rest|
  {
    hide Decode, Signed;
    DecodeStep(rest, row[x..]);
    Within(rest, file, pos);
    var n := Signed(rest[0]);
    assert n == Signed(file[pos]);
    var shown := x1 - x;
    var used := if n >= 0 then n + 2 else 2;
    rest1 := rest[used..];
    if n >= 0 {
      LiteralShown(file, pos, rest, n, row[x..], x, after);
    } else {
      assert forall k :: x <= k < x1 ==> after[k] == row[x..][..shown][k - x];
    }
    hide Left, Midway;
    MidwayMove(file, pos, rest, row, x, before, used, shown, after);
  }

  lemma LiteralShown(file: seq<byte>, pos: nat, rest: seq<byte>, n: nat, row: seq<byte>, x: nat, after: seq<byte>)
    requires n + 2 <= |rest| && n + 1 <= |row| && row[..n + 1] == rest[1..n + 2] && x + n + 1 <= |after|
    requires pos + |rest| <= |file| && forall k :: 0 <= k < |rest| ==> rest[k] == file[pos + k]
    requires forall k :: x <= k < x + n + 1 && pos + 1 + (k - x) < |file| ==> after[k] == file[pos + 1 + (k - x)]
    ensures forall k :: x <= k < x + n + 1 ==> after[k] == row[..n + 1][k - x]
  {
    forall k | x <= k < x + n + 1
      ensures after[k] == row[..n + 1][k - x]
    {
      assert row[..n + 1][k - x] == rest[1..n + 2][k - x] == rest[k - x + 1] == file[pos + (k - x + 1)];
    }
  }

  /** `used` bytes of code that decode to `shown` bytes of the row, which are in place. */
  lemma MidwayMove(file: seq<byte>, pos: nat, rest: seq<byte>, row: seq<byte>, x: nat, before: seq<byte>,
                   used: nat, shown: nat, after: seq<byte>)
    requires Midway(file, pos, rest, row, x, before) && used <= |rest|
    requires x + shown <= |row| && x + shown <= |after| == |before| && forall k :: 0 <= k < x ==> after[k] == before[k]
    requires Decode(rest[used..], false) == Some(row[x..][shown..])
    requires forall k :: x <= k < x + shown ==> after[k] == row[x..][..shown][k - x]
    ensures Midway(file, pos + used, rest[used..], row, x + shown, after)
  {
    hide Decode;
    assert row[x..][shown..] == row[x + shown..];
    forall k | x <= k < x + shown ensures after[k] == row[k] {
      assert row[k] == row[x..][..shown][k - x];
    }
    DropBoth(rest, file, pos, used);
    KeepBoth(row, before, after, x, x + shown);
  }

  lemma DropBoth(rest: seq<byte>, file: seq<byte>, pos: nat, used: nat)
    requires pos <= |file| && rest <= file[pos..] && used <= |rest|
    ensures pos + used <= |file| && rest[used..] <= file[pos + used..]
  {
    assert file[pos..][used..] == file[pos + used..];
  }

  lemma KeepBoth(row: seq<byte>, before: seq<byte>, after: seq<byte>, x: nat, x1: nat)
    requires x <= x1 <= |row| && x1 <= |after| == |before| && before[..x] == row[..x]
    requires forall k :: 0 <= k < x ==> after[k] == before[k]
    requires forall k :: x <= k < x1 ==> after[k] == row[k]
    ensures after[..x1] == row[..x1]
  {
    assert forall k :: 0 <= k < x ==> before[..x][k] == row[..x][k];
  }

  /** The row decoder of load_tiff. It stops at the first block that fills the row, stays within the buffer on
      any file, and reads one coded row exactly. */
  method DecodeRow(file: seq<byte>, start: nat, buf: array<byte>, want: nat, ghost code: seq<byte>,
                   ghost row: seq<byte>)
    returns (pos: nat)
    requires start <= |file| && want + BLOCK <= buf.Length
    modifies buf
    ensures start <= pos <= |file|
    ensures code <= file[start..] && Decode(code, false) == Some(row) && |row| == want ==>
              pos == start + |code| && buf[..want] == row
  {
    hide Decode, Left;
    ghost var good := code <= file[start..] && Decode(code, false) == Some(row) && |row| == want;
    ghost var rest := code;
    pos := start;
    var x := 0;
    assert row[0..] == row;
    while x < want
      decreases want - x
      invariant start <= pos <= |file| && 0 <= x <= want + BLOCK
      invariant good ==> Midway(file, pos, rest, row, x, buf[..]) && pos + |rest| == start + |code|
    {
      ghost var x0, pos0, before: seq<byte> := x, pos, buf[..];
      pos, x := ReadBlock(file, pos, buf, x);
      if good {
        rest := MidwayStep(file, pos0, rest, row, x0, before, pos, x, buf[..]);
      }
    }
    if good {
      DecodeStep(rest, row[x..]);
    }
  }

  /** A prefix of the rest of the file, byte by byte. */
  lemma Within(code: seq<byte>, file: seq<byte>, pos: nat)
    requires pos <= |file| && code <= file[pos..]
    ensures pos + |code| <= |file|
    ensures forall k :: 0 <= k < |code| ==> code[k] == file[pos + k]
  {
    forall k | 0 <= k < |code| ensures code[k] == file[pos + k] {
      assert code[k] == file[pos..][k];
    }
  }

  /** Write the words at the start of the buffer to a row of display memory. */
  method BulkRow(buf: array<byte>, w: nat, ghost row: seq<word>) returns (shown: seq<word>)
    requires 2 * w <= buf.Length && |row| == w && buf[..2 * w] == RowBytes(row)
    ensures shown == row
  {
    hide RowBytes;
    shown := [];
    for x := 0 to w
      invariant shown == row[..x]
    {
      RowBytesAt(row, x);
      assert buf[2 * x] == RowBytes(row)[2 * x] && buf[2 * x + 1] == RowBytes(row)[2 * x + 1];
      shown := shown + [buf[2 * x] as int + 256 * buf[2 * x + 1] as int];
    }
  }

  /** The rest of the file from row y on is the code of `rows` from row y on. */
  ghost predicate RowsAhead(file: seq<byte>, pos: nat, rows: seq<seq<word>>, y: nat) {
    pos <= |file| && y <= |rows| && file[pos..] == Codes(rows[y..])
  }

  lemma RowAhead(file: seq<byte>, pos: nat, rows: seq<seq<word>>, y: nat)
    requires RowsAhead(file, pos, rows, y) && y < |rows|
    ensures var rgb := RgbRow(rows[y]);
      && Encode(rgb) <= file[pos..] && Decode(Encode(rgb), false) == Some(rgb)
      && RowsAhead(file, pos + |Encode(rgb)|, rows, y + 1)
  {
    hide Codes, Encode, Decode, RgbRow;
    CodesStep(rows, y);
    DecodeEncode(RgbRow(rows[y]), false);
    assert file[pos..][|Encode(RgbRow(rows[y]))|..] == file[pos + |Encode(RgbRow(rows[y]))|..];
  }

  lemma AfterHeader(rows: seq<seq<word>>, w: nat)
    requires w < 0x1_0000 && |rows| < 0x1_0000
    ensures var file := TiffFile(rows, w);
      HEADER_SIZE <= |file| && Accepted(file[..HEADER_SIZE], w, |rows|) && RowsAhead(file, HEADER_SIZE, rows, 0)
  {
    HeaderAccepted(w, |rows|, w, |rows|);
    hide Header, Codes;
    assert rows[0..] == rows;
    assert TiffFile(rows, w)[..HEADER_SIZE] == Header(w, |rows|);
  }

  /** Load a file onto the screen. Whatever picture of this size the file was saved from comes back, pixel by
      pixel; a file with another header changes nothing. */
  method LoadTiff(file: seq<byte>, screen: array<seq<word>>, w: nat, buf: array<byte>, ghost rows: seq<seq<word>>)
    returns (ok: bool)
    requires w < 0x1_0000 && screen.Length < 0x1_0000
    requires 3 * w + BLOCK <= buf.Length && HEADER_SIZE <= buf.Length
    modifies screen, buf
    ensures HEADER_SIZE <= |file| ==> (ok <==> Accepted(file[..HEADER_SIZE], w, screen.Length))
    ensures !ok ==> screen[..] == old(screen[..])
    ensures |rows| == screen.Length && Rectangular(rows, w) && file == TiffFile(rows, w) ==> ok && screen[..] == rows
  {
    hide Codes, Encode, Decode, RgbRow, Header, RowBytes, Accepted, PackedRow;
    ghost var good := |rows| == screen.Length && Rectangular(rows, w) && file == TiffFile(rows, w);
    var pos: nat := Left(file, 0, HEADER_SIZE);
    forall k | 0 <= k < pos {
      buf[k] := file[k];
    }
    assert pos == HEADER_SIZE ==> buf[..HEADER_SIZE] == file[..HEADER_SIZE];
    if good { AfterHeader(rows, w); }
    if !Accepted(buf[..HEADER_SIZE], w, screen.Length) {
      return false;
    }
    for y := 0 to screen.Length
      invariant pos <= |file|
      invariant good ==> RowsAhead(file, pos, rows, y) && forall k :: 0 <= k < y ==> screen[k] == rows[k]
    {
      ghost var row: seq<word> := if good then rows[y] else [];
      if good { RowAhead(file, pos, rows, y); }
      pos := DecodeRow(file, pos, buf, 3 * w, Encode(RgbRow(row)), RgbRow(row));
      ghost var packed := PackedRow(buf[..3 * w], w);
      if good { RowRoundTrip(row); }
      CompressRow(buf, w);
      screen[y] := BulkRow(buf, w, packed);
    }
    return true;
  }

  /** Save, then load into another display: the picture as it was before saving. */
  method SaveThenLoad(screen: array<seq<word>>, other: array<seq<word>>, w: nat, mark: word, buf: array<byte>)
    returns (ok: bool)
    requires 1 <= w < 0x1_0000 && screen.Length == other.Length < 0x1_0000 && screen != other
    requires Rectangular(screen[..], w) && BufferServes(w, buf.Length) && HEADER_SIZE <= buf.Length
    modifies screen, other, buf
    ensures ok && other[..] == old(screen[..])
  {
    hide TiffFile;
    ghost var rows := screen[..];
    var file := SaveTiff(screen, w, mark, buf);
    ok := LoadTiff(file, other, w, buf, rows);
  }

  // ---- the palette capture of the shell ----

  /** Where capture_rle8 reads a row, and where it packs it: behind the length word. */
  const DATA_OFFSET := 64
  const CODE_OFFSET := 2

  /** A palette index for every pixel, 0 for a colour the palette lacks. */
  ghost predicate Indexed(palette: seq<word>, row: seq<word>, indices: seq<byte>) {
    && |indices| == |row|
    && forall x :: 0 <= x < |row| ==>
         if row[x] in palette then indices[x] < |palette| && palette[indices[x]] == row[x] else indices[x] == 0
  }

  /** Search the palette for a colour, trying the last index first. */
  method FindColour(palette: seq<word>, colour: word, last: byte) returns (idx: byte)
    requires 1 <= |palette| <= 256 && last < |palette|
    ensures idx < |palette|
    ensures if colour in palette then palette[idx] == colour else idx == 0
  {
    idx := last;
    if palette[idx] != colour {
      var k := 0;
      while k < |palette| && palette[k] != colour
        invariant 0 <= k <= |palette|
        invariant forall j :: 0 <= j < k ==> palette[j] != colour
      {
        k := k + 1;
      }
      idx := if k >= |palette| then 0 else k;
    }
  }

  lemma NoIndices(palette: seq<word>)
    ensures Indexed(palette, [], [])
  {}

  lemma OneMoreIndex(palette: seq<word>, row: seq<word>, x: nat, found: seq<byte>, idx: byte)
    requires x < |row| && Indexed(palette, row[..x], found)
    requires if row[x] in palette then idx < |palette| && palette[idx] == row[x] else idx == 0
    ensures Indexed(palette, row[..x + 1], found + [idx])
  {
    assert row[..x + 1] == row[..x] + [row[x]];
  }

  lemma FirstWord(rest: seq<byte>, words: seq<byte>, n: nat)
    requires n + 2 <= |words| && rest == words[n..]
    ensures |rest| >= 2 && rest[0] == words[n] && rest[1] == words[n + 1] && rest[2..] == words[n + 2..]
  {}

  /** The word at x is read, and its index stored at or before it. */
  method IndexWord(palette: seq<word>, buf: array<byte>, x: nat, w: nat, last: byte, ghost colour: word)
    returns (idx: byte)
    requires 1 <= |palette| <= 256 && last < |palette| && x < w && DATA_OFFSET + 2 * w <= buf.Length
    requires buf[DATA_OFFSET + 2 * x] as int + 256 * buf[DATA_OFFSET + 2 * x + 1] as int == colour
    modifies buf
    ensures idx < |palette| && if colour in palette then palette[idx] == colour else idx == 0
    ensures buf[DATA_OFFSET..DATA_OFFSET + x + 1] == old(buf[DATA_OFFSET..DATA_OFFSET + x]) + [idx]
    ensures buf[DATA_OFFSET + 2 * x + 2..DATA_OFFSET + 2 * w] ==
            old(buf[DATA_OFFSET + 2 * x..DATA_OFFSET + 2 * w])[2..]
  {
    var at := DATA_OFFSET + 2 * x;
    idx := FindColour(palette, buf[at] as int + 256 * buf[at + 1] as int, last);
    buf[DATA_OFFSET + x] := idx;
  }

  /** The words of a row become the indices of their colours, in place: the index of a word never goes behind it. */
  method IndexRow(palette: seq<word>, row: seq<word>, w: nat, last: byte, buf: array<byte>) returns (idx: byte)
    requires 1 <= |palette| <= 256 && last < |palette| && |row| == w && DATA_OFFSET + 2 * w <= buf.Length
    requires buf[DATA_OFFSET..DATA_OFFSET + 2 * w] == RowBytes(row)
    modifies buf
    ensures idx < |palette| && Indexed(palette, row, buf[DATA_OFFSET..DATA_OFFSET + w])
  {
    ghost var words := RowBytes(row);
    idx := last;
    hide RowBytes, Indexed;
    NoIndices(palette);
    assert row[..0] == [] && buf[DATA_OFFSET..DATA_OFFSET] == [];
    for x := 0 to w
      invariant idx < |palette|
      invariant buf[DATA_OFFSET + 2 * x..DATA_OFFSET + 2 * w] == words[2 * x..]
      invariant Indexed(palette, row[..x], buf[DATA_OFFSET..DATA_OFFSET + x])
    {
      RowBytesAt(row, x);
      ghost var rest: seq<byte> := buf[DATA_OFFSET + 2 * x..DATA_OFFSET + 2 * w];
      ghost var found: seq<byte> := buf[DATA_OFFSET..DATA_OFFSET + x];
      FirstWord(rest, words, 2 * x);
      assert buf[DATA_OFFSET + 2 * x] == rest[0] && buf[DATA_OFFSET + 2 * x + 1] == rest[1];
      idx := IndexWord(palette, buf, x, w, idx, row[x]);
      OneMoreIndex(palette, row, x, found, idx);
    }
    assert row[..w] == row;
  }

  /** One row of the capture: words to indices in place, then packed in place 62 bytes below. */
  method CaptureRow(palette: seq<word>, row: seq<word>, w: nat, last: byte, buf: array<byte>)
    returns (out: seq<byte>, idx: byte, ghost indices: seq<byte>)
    requires 1 <= |palette| <= 256 && last < |palette| && |row| == w
    requires Overhead(w) <= DATA_OFFSET - CODE_OFFSET && DATA_OFFSET + 2 * w + 1 <= buf.Length
    modifies buf
    ensures idx < |palette|
    ensures Indexed(palette, row, indices)
    ensures out == Low16(|Encode(indices)|) + Encode(indices)
  {
    hide RowBytes, Encode, Overlay;
    var bytes := RowBytes(row);
    forall k | 0 <= k < |bytes| {
      buf[DATA_OFFSET + k] := bytes[k];
    }
    idx := IndexRow(palette, row, w, last, buf);
    indices := buf[DATA_OFFSET..DATA_OFFSET + w];
    var size := Pack(buf, DATA_OFFSET, CODE_OFFSET, w);
    out := Low16(size) + buf[CODE_OFFSET..CODE_OFFSET + size];
  }
}
