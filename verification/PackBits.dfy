/** The PackBits run-length code (TIFF 6.0, Section 9): the one-pass encoder of common.c, which may run in
    place on an overlapping buffer, against the decoder of the format. */
module PackBits {
  import opened Arithmetic
  import opened Bytes

  /** Longest run or literal block. */
  const BLOCK := 128

  /** How many bytes after s[i] repeat it, looking no further than a block. */
  function Repeats(s: seq<byte>, i: nat, r: nat): (n: nat)
    requires i < |s| && r < Min(BLOCK, |s| - i)
    requires forall k :: i <= k <= i + r ==> s[k] == s[i]
    ensures r <= n < Min(BLOCK, |s| - i)
    ensures forall k :: i <= k <= i + n ==> s[k] == s[i]
    decreases BLOCK - r
  {
    if r + 1 < Min(BLOCK, |s| - i) && s[i + r + 1] == s[i] then Repeats(s, i, r + 1) else r
  }

  /** A literal block; an empty one is not written at all. */
  function Literal(lit: seq<byte>): seq<byte>
    requires |lit| <= BLOCK
  {
    if lit == [] then [] else [(|lit| - 1) as byte] + lit
  }

  /** A run of r + 1 equal bytes: the header is -r. */
  function Run(c: byte, r: nat): seq<byte>
    requires 1 <= r < BLOCK
  {
    [(256 - r) as byte, c]
  }

  /** The run the encoder takes at i: inside a literal block, only from three equal bytes on. */
  function TakenRun(s: seq<byte>, i: nat, open: bool): (r: nat)
    requires i < |s|
    ensures r < Min(BLOCK, |s| - i)
    ensures forall k :: i <= k <= i + r ==> s[k] == s[i]
  {
    var r := Repeats(s, i, 0);
    if open && r < 2 then 0 else r
  }

  /** The code of s[i..] with a literal block `lit` still open. */
  function EncodeFrom(s: seq<byte>, i: nat, lit: seq<byte>): seq<byte>
    requires i <= |s| && |lit| < BLOCK
    decreases |s| - i
  {
    if i == |s| then Literal(lit) else
    var r := TakenRun(s, i, lit != []);
    if r > 0 then Literal(lit) + Run(s[i], r) + EncodeFrom(s, i + r + 1, [])
    else if |lit| + 1 == BLOCK then Literal(lit + [s[i]]) + EncodeFrom(s, i + 1, [])
    else EncodeFrom(s, i + 1, lit + [s[i]])
  }

  /** The code of s, written apart from it. */
  function Encode(s: seq<byte>): seq<byte> { EncodeFrom(s, 0, []) }

  datatype Option<+T> = None | Some(value: T)

  function Copies(c: byte, n: nat): (r: seq<byte>)
    ensures |r| == n && forall k :: 0 <= k < n ==> r[k] == c
  {
    seq(n, _ => c)
  }

  /** The decoder of the format: header n in 0..127 copies the next n + 1 bytes, -1..-127 repeats the next
      byte 1 - n times; a code that stops inside a block has no meaning. Header -128 does nothing in the
      format; the firmware's own decoder treats it as one more repeat count. */
  function Decode(b: seq<byte>, skip128: bool): Option<seq<byte>> {
    if b == [] then Some([]) else
    var n := Signed(b[0]);
    if n == -128 && skip128 then Decode(b[1..], skip128)
    else if n >= 0 then
      if |b| < n + 2 then None else
      match Decode(b[n + 2..], skip128)
      case None => None
      case Some(rest) => Some(b[1..n + 2] + rest)
    else if |b| < 2 then None else
      match Decode(b[2..], skip128)
      case None => None
      case Some(rest) => Some(Copies(b[1], 1 - n) + rest)
  }

  lemma DecodeLiteral(lit: seq<byte>, code: seq<byte>, rest: seq<byte>, skip: bool)
    requires |lit| <= BLOCK && Decode(code, skip) == Some(rest)
    ensures Decode(Literal(lit) + code, skip) == Some(lit + rest)
  {
    if lit == [] {
      assert Literal(lit) + code == code;
      assert lit + rest == rest;
    } else {
      var b := Literal(lit) + code;
      assert b[|lit| + 1..] == code;
      assert b[1..|lit| + 1] == lit;
    }
  }

  lemma DecodeRun(c: byte, r: nat, code: seq<byte>, rest: seq<byte>, skip: bool)
    requires 1 <= r < BLOCK && Decode(code, skip) == Some(rest)
    ensures Decode(Run(c, r) + code, skip) == Some(Copies(c, r + 1) + rest)
  {
    var b := Run(c, r) + code;
    assert b[2..] == code;
    assert Signed(b[0]) == -(r as int);
  }

  lemma DecodeLast(lit: seq<byte>, skip: bool)
    requires |lit| <= BLOCK
    ensures Decode(Literal(lit), skip) == Some(lit)
  {
    DecodeLiteral(lit, [], [], skip);
    assert Literal(lit) + [] == Literal(lit);
    assert lit + [] == lit;
  }

  /** A literal block closed by the run of r + 1 bytes at i. */
  lemma DecodeLiteralRun(lit: seq<byte>, s: seq<byte>, i: nat, r: nat, tail: seq<byte>, skip: bool)
    requires |lit| <= BLOCK && 1 <= r < BLOCK && i + r < |s|
    requires forall k :: i <= k <= i + r ==> s[k] == s[i]
    requires Decode(tail, skip) == Some(s[i + r + 1..])
    ensures Decode(Literal(lit) + Run(s[i], r) + tail, skip) == Some(lit + s[i..])
  {
    hide Decode, Literal, Run;
    DecodeRun(s[i], r, tail, s[i + r + 1..], skip);
    assert Copies(s[i], r + 1) + s[i + r + 1..] == s[i..];
    DecodeLiteral(lit, Run(s[i], r) + tail, s[i..], skip);
    assert Literal(lit) + (Run(s[i], r) + tail) == Literal(lit) + Run(s[i], r) + tail;
  }

  /** The three ways the code of s[i..] continues. */
  lemma EncodeUnfolds(s: seq<byte>, i: nat, lit: seq<byte>, done: seq<byte>)
    requires i < |s| && |lit| < BLOCK
    ensures var r := TakenRun(s, i, lit != []);
            var more := lit + [s[i]];
            done + EncodeFrom(s, i, lit) ==
            if r > 0 then (done + Literal(lit) + Run(s[i], r)) + EncodeFrom(s, i + r + 1, [])
            else if |lit| + 1 == BLOCK then (done + Literal(more)) + EncodeFrom(s, i + 1, [])
            else done + EncodeFrom(s, i + 1, more)
  {
    hide TakenRun, Literal, Run;
  }

  lemma EncodeEnds(s: seq<byte>, lit: seq<byte>)
    requires |lit| < BLOCK
    ensures EncodeFrom(s, |s|, lit) == Literal(lit)
  {}

  lemma Plus(done: seq<byte>, rest: seq<byte>)
    ensures [] + done == done && [] + rest == rest && ([] + done) + rest == done + rest
  {}

  /** Nothing is lost, wherever the encoder is and whatever block it has open. */
  lemma {:induction false} EncodeFromDecodes(s: seq<byte>, i: nat, lit: seq<byte>, skip: bool)
    requires i <= |s| && |lit| < BLOCK
    ensures Decode(EncodeFrom(s, i, lit), skip) == Some(lit + s[i..])
    decreases |s| - i
  {
    hide Decode, EncodeFrom, Literal, Run, TakenRun, Copies;
    if i == |s| {
      EncodeEnds(s, lit);
      DecodeLast(lit, skip);
      assert lit + s[i..] == lit;
      return;
    }
    var r, more := TakenRun(s, i, lit != []), lit + [s[i]];
    EncodeUnfolds(s, i, lit, []);
    Plus([], EncodeFrom(s, i, lit));
    if r > 0 {
      var tail := EncodeFrom(s, i + r + 1, []);
      EncodeFromDecodes(s, i + r + 1, [], skip);
      Plus(s[i + r + 1..], []);
      DecodeLiteralRun(lit, s, i, r, tail, skip);
      Plus(Literal(lit), []);
    } else {
      assert lit + s[i..] == more + s[i + 1..];
      if |more| == BLOCK {
        var tail := EncodeFrom(s, i + 1, []);
        EncodeFromDecodes(s, i + 1, [], skip);
        Plus(s[i + 1..], []);
        DecodeLiteral(more, tail, s[i + 1..], skip);
        Plus(Literal(more), tail);
      } else {
        EncodeFromDecodes(s, i + 1, more, skip);
        Plus([], EncodeFrom(s, i + 1, more));
      }
    }
  }

  /** Decoding undoes encoding, for every input and for both readings of header -128. */
  lemma DecodeEncode(s: seq<byte>, skip: bool)
    ensures Decode(Encode(s), skip) == Some(s)
  {
    EncodeFromDecodes(s, 0, [], skip);
    assert [] + s[0..] == s;
  }

  /** The length of the first block of a code, and what it stands for. */
  function BlockLength(b: seq<byte>, skip: bool): nat
    requires b != []
  {
    var n := Signed(b[0]);
    if n == -128 && skip then 1 else if n >= 0 then n + 2 else 2
  }

  function BlockData(b: seq<byte>, skip: bool): seq<byte>
    requires b != [] && BlockLength(b, skip) <= |b|
  {
    var n := Signed(b[0]);
    if n == -128 && skip then [] else if n >= 0 then b[1..n + 2] else Copies(b[1], 1 - n)
  }

  lemma FirstBlock(b: seq<byte>, skip: bool)
    requires b != [] && (Decode(b, skip).Some? || BlockLength(b, skip) <= |b|)
    ensures var m := BlockLength(b, skip);
      && m <= |b| && (Decode(b, skip).Some? <==> Decode(b[m..], skip).Some?)
      && (Decode(b, skip).Some? ==> Decode(b, skip).value == BlockData(b, skip) + Decode(b[m..], skip).value)
  {}

  /** Codes behind each other decode to what they stand for, behind each other. */
  lemma {:induction false} DecodeAppend(a: seq<byte>, b: seq<byte>, skip: bool)
    requires Decode(a, skip).Some? && Decode(b, skip).Some?
    ensures Decode(a + b, skip) == Some(Decode(a, skip).value + Decode(b, skip).value)
  {
    hide Decode, BlockData, BlockLength;
    if a == [] {
      DecodeNothing(skip);
      Plus(b, Decode(b, skip).value);
    } else {
      FirstBlock(a, skip);
      AppendBlock(a, b, skip);
      var m := BlockLength(a, skip);
      DecodeAppend(a[m..], b, skip);
      FirstBlock(a + b, skip);
      Join(BlockData(a, skip), Decode(a[m..], skip).value, Decode(b, skip).value);
    }
  }

  lemma DecodeNothing(skip: bool)
    ensures Decode([], skip) == Some([])
  {}

  lemma AppendBlock(a: seq<byte>, b: seq<byte>, skip: bool)
    requires a != [] && BlockLength(a, skip) <= |a|
    ensures a + b != [] && BlockLength(a + b, skip) == BlockLength(a, skip) > 0
    ensures BlockData(a + b, skip) == BlockData(a, skip)
    ensures (a + b)[BlockLength(a, skip)..] == a[BlockLength(a, skip)..] + b
  {
    hide Copies;
  }

  lemma Join(x: seq<byte>, y: seq<byte>, z: seq<byte>)
    ensures (x + y) + z == x + (y + z)
  {}

  /** The example of the format's description: runs and literals, with the signs of the headers. */
  lemma StandardExample()
    ensures Decode([0xFE, 0xAA, 0x02, 0x80, 0x00, 0x2A, 0xFD, 0xAA], true) ==
            Some([0xAA, 0xAA, 0xAA, 0x80, 0x00, 0x2A, 0xAA, 0xAA, 0xAA, 0xAA])
  {
    var lit: seq<byte> := [0x80, 0x00, 0x2A];
    assert Run(0xAA, 2) + (Literal(lit) + (Run(0xAA, 3) + [])) ==
           [0xFE, 0xAA, 0x02, 0x80, 0x00, 0x2A, 0xFD, 0xAA];
    assert Copies(0xAA, 3) + (lit + (Copies(0xAA, 4) + [])) ==
           [0xAA, 0xAA, 0xAA, 0x80, 0x00, 0x2A, 0xAA, 0xAA, 0xAA, 0xAA];
    assert Decode([], true) == Some([]);
    hide Decode, Run, Literal, Copies;
    DecodeRun(0xAA, 3, [], [], true);
    DecodeLiteral(lit, Run(0xAA, 3) + [], Copies(0xAA, 4) + [], true);
    DecodeRun(0xAA, 2, Literal(lit) + (Run(0xAA, 3) + []), lit + (Copies(0xAA, 4) + []), true);
  }

  /** Three equal bytes in a row at k. */
  predicate Triple(s: seq<byte>, k: nat) { k + 2 < |s| && s[k] == s[k + 1] == s[k + 2] }

  ghost predicate NoTriple(s: seq<byte>) { forall k: nat :: !Triple(s, k) }

  /** No block of the code could have taken more: literals hold no three equal bytes in a row and are full when another
      literal follows, and a run that is not full is followed by another byte. */
  ghost predicate Frugal(b: seq<byte>) {
    b == [] ||
    var n := Signed(b[0]);
    if n >= 0 then
      && n + 2 <= |b| && NoTriple(b[1..n + 2])
      && (n < BLOCK - 1 && n + 2 < |b| ==> Signed(b[n + 2]) < 0) && Frugal(b[n + 2..])
    else
      2 <= |b| && (1 - n < BLOCK && 3 < |b| ==> b[3] != b[1]) && Frugal(b[2..])
  }

  /** What the encoder keeps while a literal block is open: no triple begins in it. */
  ghost predicate OpenFrugal(s: seq<byte>, i: nat, lit: seq<byte>)
    requires i <= |s|
  {
    forall k: nat :: k < |lit| ==> !Triple(lit + s[i..], k)
  }

  lemma TripleIsRun(s: seq<byte>, i: nat)
    requires Triple(s, i)
    ensures Repeats(s, i, 0) >= 2
  {
    assert Repeats(s, i, 0) == Repeats(s, i, 1) == Repeats(s, i, 2);
  }

  lemma StaysFrugal(s: seq<byte>, i: nat, lit: seq<byte>)
    requires i < |s| && OpenFrugal(s, i, lit) && TakenRun(s, i, lit != []) == 0
    ensures OpenFrugal(s, i + 1, lit + [s[i]])
  {
    hide Repeats;
    assert lit + s[i..] == (lit + [s[i]]) + s[i + 1..];
    if Triple(lit + s[i..], |lit|) {
      var w, l := lit + s[i..], |lit|;
      assert w[l] == s[i] && w[l + 1] == s[i + 1] && w[l + 2] == s[i + 2];
      TripleIsRun(s, i);
    }
  }

  lemma FrugalLiteral(lit: seq<byte>, code: seq<byte>)
    requires |lit| <= BLOCK && NoTriple(lit) && Frugal(code)
    requires code == [] || Signed(code[0]) < 0 || |lit| == BLOCK
    ensures Frugal(Literal(lit) + code)
  {
    var b := Literal(lit) + code;
    if lit == [] {
      assert b == code;
    } else {
      assert b[1..|lit| + 1] == lit && b[|lit| + 1..] == code;
    }
  }

  lemma FrugalRun(c: byte, r: nat, code: seq<byte>)
    requires 1 <= r < BLOCK && Frugal(code) && (r + 1 < BLOCK && 1 < |code| ==> code[1] != c)
    ensures Frugal(Run(c, r) + code)
  {
    var b := Run(c, r) + code;
    assert b[2..] == code && Signed(b[0]) == -(r as int);
    if 3 < |b| { assert b[3] == code[1]; }
  }

  /** A code begins with the data it stands for, behind one header. */
  lemma {:induction false} FirstByte(s: seq<byte>, i: nat, lit: seq<byte>)
    requires i <= |s| && |lit| < BLOCK
    ensures var e := EncodeFrom(s, i, lit); if lit == [] && i == |s| then e == []
            else 2 <= |e| && e[1] == if lit == [] then s[i] else lit[0]
    decreases |s| - i
  {
    if i < |s| {
      EncodeUnfolds(s, i, lit, []);
      Plus([], EncodeFrom(s, i, lit));
      var r := TakenRun(s, i, lit != []);
      if r == 0 && |lit| + 1 < BLOCK { FirstByte(s, i + 1, lit + [s[i]]); }
    }
  }

  /** A run that stops before a full block stops at another byte. */
  lemma {:induction false} RunStops(s: seq<byte>, i: nat, r: nat)
    requires i < |s| && r < Min(BLOCK, |s| - i) && forall k :: i <= k <= i + r ==> s[k] == s[i]
    ensures var n := Repeats(s, i, r); n + 1 < BLOCK && i + n + 1 < |s| ==> s[i + n + 1] != s[i]
    decreases BLOCK - r
  {
    if r + 1 < Min(BLOCK, |s| - i) && s[i + r + 1] == s[i] { RunStops(s, i, r + 1); }
  }

  /** The encoder wastes nothing it could see: its code is frugal. */
  lemma {:induction false} EncodeFromFrugal(s: seq<byte>, i: nat, lit: seq<byte>)
    requires i <= |s| && |lit| < BLOCK && OpenFrugal(s, i, lit)
    ensures Frugal(EncodeFrom(s, i, lit))
    decreases |s| - i
  {
    hide EncodeFrom, Frugal, Run, Literal, Repeats, OpenFrugal;
    OpenHasNone(s, i, lit);
    if i == |s| {
      EncodeEnds(s, lit);
      NoCode();
      FrugalLiteral(lit, []);
      assert Literal(lit) + [] == Literal(lit);
      return;
    }
    EncodeUnfolds(s, i, lit, []);
    Plus([], EncodeFrom(s, i, lit));
    var r := TakenRun(s, i, lit != []);
    if r > 0 {
      NothingOpen(s, i + r + 1);
      EncodeFromFrugal(s, i + r + 1, []);
      FrugalAfterRun(s, i, lit, r);
    } else {
      StaysFrugal(s, i, lit);
      if |lit| + 1 == BLOCK {
        OpenHasNone(s, i + 1, lit + [s[i]]);
        NothingOpen(s, i + 1);
        EncodeFromFrugal(s, i + 1, []);
        FrugalLiteral(lit + [s[i]], EncodeFrom(s, i + 1, []));
        Plus(Literal(lit + [s[i]]), EncodeFrom(s, i + 1, []));
      } else {
        EncodeFromFrugal(s, i + 1, lit + [s[i]]);
        Plus([], EncodeFrom(s, i + 1, lit + [s[i]]));
      }
    }
  }

  lemma FrugalAfterRun(s: seq<byte>, i: nat, lit: seq<byte>, r: nat)
    requires i < |s| && |lit| < BLOCK && 0 < r == TakenRun(s, i, lit != []) && NoTriple(lit)
    ensures EncodeFrom(s, i, lit) == Literal(lit) + (Run(s[i], r) + EncodeFrom(s, i + r + 1, []))
    ensures Frugal(EncodeFrom(s, i + r + 1, [])) ==> Frugal(EncodeFrom(s, i, lit))
    decreases |s| - i, 0
  {
    hide EncodeFrom, Frugal, Literal, Repeats;
    EncodeUnfolds(s, i, lit, []);
    Plus([], EncodeFrom(s, i, lit));
    Plus(Literal(lit), []);
    var tail := EncodeFrom(s, i + r + 1, []);
    assert Literal(lit) + Run(s[i], r) + tail == Literal(lit) + (Run(s[i], r) + tail);
    RunStops(s, i, 0);
    FirstByte(s, i + r + 1, []);
    if Frugal(tail) {
      FrugalRun(s[i], r, tail);
      FrugalLiteral(lit, Run(s[i], r) + tail);
    }
  }

  lemma NoCode()
    ensures Frugal([])
  {}

  lemma NothingOpen(s: seq<byte>, i: nat)
    requires i <= |s|
    ensures OpenFrugal(s, i, [])
  {}

  lemma OpenHasNone(s: seq<byte>, i: nat, lit: seq<byte>)
    requires i <= |s| && OpenFrugal(s, i, lit)
    ensures NoTriple(lit)
  {
    forall k: nat
      ensures !Triple(lit, k)
    {
      if k + 2 < |lit| {
        var w := lit + s[i..];
        assert w[k] == lit[k] && w[k + 1] == lit[k + 1] && w[k + 2] == lit[k + 2];
        assert !Triple(w, k);
      }
    }
  }

  /** So the code of every input is frugal: besides meaning the same it holds no waste in its blocks. */
  lemma EncodeFrugal(s: seq<byte>)
    ensures Frugal(Encode(s))
  {
    NothingOpen(s, 0);
    EncodeFromFrugal(s, 0, []);
  }

  /** One extra byte for every block begun. */
  function Overhead(size: nat): nat { (size + BLOCK - 1) / BLOCK }

  /** Where the two regions may lie: the source far enough above the destination, or clear of it. */
  predicate Placed(source: nat, dest: nat, size: nat) {
    dest + Overhead(size) <= source || source + size <= dest
  }

  /** The buffer `orig` with `out` laid over it from `at` on. */
  ghost function Overlay(orig: seq<byte>, at: nat, out: seq<byte>): seq<byte>
    requires at + |out| <= |orig|
  {
    orig[..at] + out + orig[at + |out|..]
  }

  /** Two bytes more, the second written first; or one more and one changed. */
  lemma OverlaySteps(orig: seq<byte>, at: nat, out: seq<byte>, h: byte, c: byte, k: int)
    requires at + |out| < |orig|
    ensures at + |out| + 1 < |orig| ==>
              Overlay(orig, at, out)[at + |out| + 1 := c][at + |out| := h] == Overlay(orig, at, out + [h, c])
    ensures 0 <= k < |out| ==>
              Overlay(orig, at, out)[at + |out| := c][at + k := h] == Overlay(orig, at, (out + [c])[k := h])
  {}

  /** The byte that extends a literal block and the header that counts it. */
  lemma LiteralSteps(done: seq<byte>, lit: seq<byte>, c: byte)
    requires |lit| < BLOCK
    ensures lit == [] ==> done + Literal(lit) + [0, c] == done + Literal(lit + [c])
    ensures lit != [] ==> (done + Literal(lit) + [c])[|done| := |lit|] == done + Literal(lit + [c])
    ensures |Literal(lit)| == if lit == [] then 0 else |lit| + 1
  {
    if lit != [] {
      var l := |lit|;
      assert [l - 1] + lit == Literal(lit) && [l] + (lit + [c]) == Literal(lit + [c]);
      Patched(done, [l - 1] + lit, [c], l);
    }
  }

  lemma Patched(done: seq<byte>, block: seq<byte>, more: seq<byte>, b: byte)
    requires block != []
    ensures (done + block + more)[|done| := b] == done + ([b] + (block[1..] + more))
  {}

  lemma OverlayShows(orig: seq<byte>, at: nat, out: seq<byte>)
    requires at + |out| <= |orig|
    ensures |Overlay(orig, at, out)| == |orig| && Overlay(orig, at, out)[at..at + |out|] == out
  {}

  /** What has not been read yet is still there. */
  lemma ReadAhead(orig: seq<byte>, source: nat, dest: nat, size: nat, out: seq<byte>, i: nat)
    requires source + size <= |orig| && dest + |out| <= |orig| && i <= size
    requires dest + |out| <= source + i || source + size <= dest
    ensures forall k {:trigger orig[source..source + size][k]} :: i <= k < size ==>
              Overlay(orig, dest, out)[source + k] == orig[source..source + size][k]
  {}

  /** How far the code may be ahead of the source after i bytes with m of them in an open block. */
  ghost predicate Paced(i: nat, m: nat, pk: nat) {
    m < BLOCK && m <= i && pk <= i + (i - m) / BLOCK + if m == 0 then 0 else 1
  }

  lemma PaceRun(i: nat, m: nat, pk: nat, r: nat)
    requires Paced(i, m, pk) && 1 <= r && (m > 0 ==> 2 <= r)
    ensures Paced(i + r + 1, 0, pk + 2)
  {
    assert (i - m) / BLOCK <= (i + r + 1) / BLOCK;
  }

  lemma PaceLiteral(i: nat, m: nat, pk: nat)
    requires Paced(i, m, pk)
    ensures m == 0 ==> Paced(i + 1, 1, pk + 2)
    ensures 0 < m < BLOCK - 1 ==> Paced(i + 1, m + 1, pk + 1)
    ensures m == BLOCK - 1 ==> Paced(i + 1, 0, pk + 1)
  {}

  lemma PaceBound(i: nat, m: nat, pk: nat, size: nat)
    requires Paced(i, m, pk) && i <= size
    ensures pk <= i + Overhead(i) <= i + Overhead(size)
  {}

  lemma Beginning(orig: seq<byte>, dest: nat)
    requires dest <= |orig|
    ensures Overlay(orig, dest, [] + Literal([])) == orig && [] + Literal([]) == [] && Paced(0, 0, 0)
  {}

  lemma TakenIs(s: seq<byte>, i: nat, open: bool)
    requires i < |s|
    ensures TakenRun(s, i, open) == if open && Repeats(s, i, 0) < 2 then 0 else Repeats(s, i, 0)
  {}

  lemma RunIs(c: byte, r: nat)
    requires 1 <= r < BLOCK
    ensures Run(c, r) == [(256 - r) as byte, c]
  {}

  /** The encoder between two bytes: `done` closed blocks and the open block `lit` lie at dest, they are paced,
      and together with the code of the rest they are the whole code. */
  ghost predicate Packing(orig: seq<byte>, source: nat, dest: nat, size: nat,
                          i: nat, sz: int, pk: nat, done: seq<byte>, lit: seq<byte>, now: seq<byte>) {
    && source + size <= |orig| && dest + size + Overhead(size) <= |orig| && Placed(source, dest, size)
    && i <= size && |lit| < BLOCK && Paced(i, |lit|, pk)
    && (if lit == [] then sz == -1 && pk == |done| else sz == |done| && pk == sz + 1 + |lit|)
    && |done + Literal(lit)| == pk && dest + pk <= |orig|
    && now == Overlay(orig, dest, done + Literal(lit))
    && Encode(orig[source..source + size]) == done + EncodeFrom(orig[source..source + size], i, lit)
  }

  lemma PackingFacts(orig: seq<byte>, source: nat, dest: nat, size: nat,
                     i: nat, sz: int, pk: nat, done: seq<byte>, lit: seq<byte>, now: seq<byte>)
    requires Packing(orig, source, dest, size, i, sz, pk, done, lit, now)
    ensures |now| == |orig| && i <= size && |lit| < BLOCK && -1 <= sz < pk as int
    ensures pk <= size + Overhead(size)
    ensures i < size ==> dest + pk < |orig| && (lit == [] ==> dest + pk + 1 < |orig|)
    ensures lit == [] <==> sz == -1
    ensures sz >= 0 ==> pk == sz + 1 + |lit|
    ensures forall k {:trigger orig[source..source + size][k]} :: i <= k < size ==>
              now[source + k] == orig[source..source + size][k]
    ensures i == size ==> |Encode(orig[source..source + size])| == pk &&
                          now == Overlay(orig, dest, Encode(orig[source..source + size]))
  {
    hide EncodeFrom, Literal, Encode;
    LiteralSteps(done, lit, 0);
    assert |Overlay(orig, dest, done + Literal(lit))| == |orig|;
    hide Overlay;
    PaceBound(i, |lit|, pk, size);
    PaceBound(i, |lit|, pk, i);
    if i < size {
      PaceLiteral(i, |lit|, pk);
      PaceBound(i + 1, if |lit| + 1 == BLOCK then 0 else |lit| + 1, if lit == [] then pk + 2 else pk + 1, size);
    }
    ReadAhead(orig, source, dest, size, done + Literal(lit), i);
    EncodeEnds(orig[source..source + size], lit);
  }

  lemma PackStart(orig: seq<byte>, source: nat, dest: nat, size: nat)
    requires source + size <= |orig| && dest + size + Overhead(size) <= |orig| && Placed(source, dest, size)
    ensures Packing(orig, source, dest, size, 0, -1, 0, [], [], orig)
  {
    hide EncodeFrom;
    Beginning(orig, dest);
    assert [] + EncodeFrom(orig[source..source + size], 0, []) == EncodeFrom(orig[source..source + size], 0, []);
  }

  /** A run closes whatever block is open and is written behind it. */
  lemma PackRun(orig: seq<byte>, source: nat, dest: nat, size: nat,
                i: nat, sz: int, pk: nat, done: seq<byte>, lit: seq<byte>, now: seq<byte>, r: nat)
    requires Packing(orig, source, dest, size, i, sz, pk, done, lit, now) && i < size
    requires r == TakenRun(orig[source..source + size], i, lit != []) && 1 <= r
    ensures var c := orig[source + i];
      && dest + pk + 1 < |now| && i + r < size
      && Packing(orig, source, dest, size, i + r + 1, -1, pk + 2, done + Literal(lit) + Run(c, r), [],
                 now[dest + pk + 1 := c][dest + pk := 256 - r])
  {
    hide EncodeFrom, Literal, Run, Paced, Overlay, Overhead, Encode, TakenRun, Repeats, Placed;
    var s: seq<byte> := orig[source..source + size];
    PackingFacts(orig, source, dest, size, i, sz, pk, done, lit, now);
    EncodeUnfolds(s, i, lit, done);
    TakenIs(s, i, lit != []);
    PaceRun(i, |lit|, pk, r);
    PaceBound(i + r + 1, 0, pk + 2, size);
    RunIs(s[i], r);
    OverlaySteps(orig, dest, done + Literal(lit), 256 - r, s[i], -1);
    assert done + Literal(lit) + [(256 - r) as byte, s[i]] == done + Literal(lit) + Run(s[i], r);
    ClosedIs(done + Literal(lit) + Run(s[i], r));
  }

  lemma ClosedIs(done: seq<byte>)
    ensures done + Literal([]) == done
  {}

  /** A byte opens a literal block. */
  lemma PackOpen(orig: seq<byte>, source: nat, dest: nat, size: nat,
                 i: nat, pk: nat, done: seq<byte>, now: seq<byte>)
    requires Packing(orig, source, dest, size, i, -1, pk, done, [], now) && i < size
    requires TakenRun(orig[source..source + size], i, false) == 0
    ensures var c := orig[source + i];
      && dest + pk + 1 < |now|
      && Packing(orig, source, dest, size, i + 1, pk, pk + 2, done, [c], now[dest + pk + 1 := c][dest + pk := 0])
  {
    hide EncodeFrom, Literal, Paced, Overlay, Overhead, Encode, TakenRun, Repeats, Placed;
    var s: seq<byte> := orig[source..source + size];
    PackingFacts(orig, source, dest, size, i, -1, pk, done, [], now);
    EncodeUnfolds(s, i, [], done);
    PaceLiteral(i, 0, pk);
    LiteralSteps(done, [], s[i]);
    ClosedIs(done);
    assert [] + [s[i]] == [s[i]];
    OverlaySteps(orig, dest, done + Literal([]), 0, s[i], -1);
  }

  /** A byte extends the open block, and the 128th closes it. */
  lemma PackExtend(orig: seq<byte>, source: nat, dest: nat, size: nat,
                   i: nat, sz: int, pk: nat, done: seq<byte>, lit: seq<byte>, now: seq<byte>)
    requires Packing(orig, source, dest, size, i, sz, pk, done, lit, now) && i < size && lit != []
    requires TakenRun(orig[source..source + size], i, true) == 0
    ensures var c := orig[source + i];
            var more := lit + [c];
      && dest + pk < |now| && 0 <= sz < pk
      && var after: seq<byte> := now[dest + pk := c][dest + sz := |lit|];
         if |more| < BLOCK then Packing(orig, source, dest, size, i + 1, sz, pk + 1, done, more, after)
         else Packing(orig, source, dest, size, i + 1, -1, pk + 1, done + Literal(more), [], after)
  {
    hide EncodeFrom, Literal, Paced, Overlay, Overhead, Encode, TakenRun, Repeats, Placed;
    var s: seq<byte> := orig[source..source + size];
    PackingFacts(orig, source, dest, size, i, sz, pk, done, lit, now);
    EncodeUnfolds(s, i, lit, done);
    PaceLiteral(i, |lit|, pk);
    LiteralSteps(done, lit, s[i]);
    OverlaySteps(orig, dest, done + Literal(lit), |lit|, s[i], sz);
    ClosedIs(done + Literal(lit + [s[i]]));
  }

  /** The search for a run: the bytes after source[i] that repeat it, within a block. */
  method CountRepeats(buf: array<byte>, source: nat, size: nat, i: nat, ghost s: seq<byte>) returns (rle: nat)
    requires i < size == |s| && source + size <= buf.Length
    requires forall k :: i <= k < size ==> buf[source + k] == s[k]
    ensures rle == Repeats(s, i, 0)
  {
    var l := if size - i > BLOCK then BLOCK else size - i;
    var c := buf[source + i];
    rle := 0;
    l := l - 1;
    while l != 0 && c == buf[source + i + 1 + rle]
      invariant 0 <= l && rle + 1 + l == Min(BLOCK, size - i)
      invariant forall k :: i <= k <= i + rle ==> s[k] == c
      invariant Repeats(s, i, 0) == Repeats(s, i, rle)
      decreases l
    {
      assert buf[source + (i + 1 + rle)] == s[i + 1 + rle];
      rle := rle + 1;
      l := l - 1;
    }
    assert l != 0 ==> buf[source + (i + 1 + rle)] == s[i + 1 + rle];
  }

  /** The encoder of common.c on one buffer. It writes each literal block's header after its bytes and never
      overtakes what it has still to read, so the code is the one written apart from the source. */
  method Pack(buf: array<byte>, source: nat, dest: nat, size: nat) returns (pk: nat)
    requires source + size <= buf.Length && dest + size + Overhead(size) <= buf.Length
    requires Placed(source, dest, size)
    modifies buf
    ensures pk <= size + Overhead(size)
    ensures dest + pk <= buf.Length && buf[dest..dest + pk] == Encode(old(buf[source..source + size]))
    ensures buf[..] == Overlay(old(buf[..]), dest, Encode(old(buf[source..source + size])))
  {
    hide TakenRun, Literal, Run, Overlay, Overhead, Repeats, Encode, Packing;
    ghost var orig: seq<byte> := buf[..];
    ghost var s: seq<byte> := orig[source..source + size];
    ghost var done: seq<byte>, lit: seq<byte> := [], [];
    var i: nat, sz: int := 0, -1;
    pk := 0;
    PackStart(orig, source, dest, size);
    while i < size
      invariant Packing(orig, source, dest, size, i, sz, pk, done, lit, buf[..])
    {
      PackingFacts(orig, source, dest, size, i, sz, pk, done, lit, buf[..]);
      var c: byte := buf[source + i];
      assert c == s[i] == orig[source + i];
      assert forall k :: i <= k < size ==> buf[source + k] == s[k];
      var rle := CountRepeats(buf, source, size, i, s);
      TakenIs(s, i, lit != []);
      ghost var before: seq<byte>, first, last, open := buf[..], i, pk, sz;
      i := i + 1;
      if sz >= 0 && rle < 2 {
        rle := 0;
      } else if sz < 0 || rle > 0 {
        sz := pk;
        pk := pk + 1;
      }
      if rle > 0 {
        PackRun(orig, source, dest, size, first, open, last, done, lit, before, rle);
      } else if open < 0 {
        PackOpen(orig, source, dest, size, first, last, done, before);
      } else {
        PackExtend(orig, source, dest, size, first, open, last, done, lit, before);
      }
      buf[dest + pk] := c;
      pk := pk + 1;
      if rle > 0 {
        i := i + rle;
        buf[dest + sz] := 256 - rle;
        done, lit := done + Literal(lit) + Run(c, rle), [];
        assert buf[..] == before[dest + last + 1 := c][dest + last := 256 - rle];
      } else {
        buf[dest + sz] := pk - sz - 2;
        assert buf[..] == if open < 0 then before[dest + last + 1 := c][dest + last := 0]
                          else before[dest + last := c][dest + open := |lit|];
        assert [] + [c] == [c];
        lit := lit + [c];
        if pk - sz - 2 < BLOCK - 1 {
          continue;
        }
        done, lit := done + Literal(lit), [];
      }
      sz := -1;
    }
    PackingFacts(orig, source, dest, size, i, sz, pk, done, lit, buf[..]);
    OverlayShows(orig, dest, Encode(s));
    assert buf[dest..dest + pk] == buf[..][dest..dest + pk];
  }
}
