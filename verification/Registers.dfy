/** Register images of the Si5351 clock generator: how a divider P1 + P2/P3 is spread over eight bytes
    (si5351.c, si5351_setupPLL and si5351_setupMultisynth) and what the chip reads back from them. */
module Registers {
  import opened Arithmetic
  import opened Bytes

  /** (x & (mask << shift)) >> shift for an unsigned x, with `size` = mask + 1 a power of two. */
  function Field(x: nat, unit: nat, size: nat): (f: nat)
    requires 0 < unit && 0 < size
    ensures f < size
  {
    x / unit % size
  }

  /** A 32-bit unsigned difference. */
  function Sub32(x: nat, y: nat): nat { (x - y) % TWO_32 }

  /** The eight data bytes that follow the register address. `top` is OR-ed into the byte of P1[17:16]:
      zero for a PLL, output divider and divide-by-4 bits for a multisynth. */
  function Image(p1: nat, p2: nat, p3: nat, top: nat): (r: seq<byte>)
    requires top < 256 && top % 4 == 0
    ensures |r| == 8
  {
    [ Field(p3, 0x100, 0x100),
      Field(p3, 1, 0x100),
      top + Field(p1, 0x1_0000, 4),
      Field(p1, 0x100, 0x100),
      Field(p1, 1, 0x100),
      Field(p3, 0x1_0000, 0x10) * 0x10 + Field(p2, 0x1_0000, 0x10),
      Field(p2, 0x100, 0x100),
      Field(p2, 1, 0x100) ]
  }

  /** What the chip makes of eight bytes: MSx_P1, MSx_P2, MSx_P3, R_DIV and the divide-by-4 flag. */
  datatype Setting = Setting(p1: nat, p2: nat, p3: nat, r: nat, by4: bool)

  function Join(high: nat, middle: nat, low: nat): nat {
    high * 0x1_0000 + middle * 0x100 + low
  }

  function Decode(b: seq<byte>): Setting
    requires |b| == 8
  {
    var b2: int, b5: int := b[2], b[5];
    Setting(Join(b2 % 4, b[3], b[4]),
            Join(b5 % 0x10, b[6], b[7]),
            Join(b5 / 0x10, b[0], b[1]),
            b2 / 0x10 % 8,
            b2 / 4 % 4 == 3)
  }

  /** The images the firmware's own start-up table lists: 26 MHz times 32 and a division by 104 ... */
  lemma KnownImages(p1: nat, b: byte)
    requires (p1 == (32 - 4) * 128 && b == 14) || (p1 == (104 - 4) * 128 && b == 50)
    ensures Image(p1, 0, 1, 0) == [0, 1, 0, b, 0, 0, 0, 0]
  {
    KnownFields(1, 0, 0, 1);
    KnownFields(p1, 0, b, 0);
    KnownFields(0, 0, 0, 0);
    hide Field;
  }

  /** ... and one with every digit different. */
  lemma KnownDigits()
    ensures Image(0x2_3456, 0xA_BCDE, 0xF_1289, 0x70) == [0x12, 0x89, 0x72, 0x34, 0x56, 0xFA, 0xBC, 0xDE]
  {
    KnownFields(0x2_3456, 2, 0x34, 0x56);
    KnownFields(0xA_BCDE, 0xA, 0xBC, 0xDE);
    KnownFields(0xF_1289, 0xF, 0x12, 0x89);
    hide Field;
  }

  lemma KnownFields(x: nat, high: nat, middle: nat, low: nat)
    requires x == high * 0x1_0000 + middle * 0x100 + low && high < 0x10 && middle < 0x100 && low < 0x100
    ensures Field(x, 0x1_0000, 0x10) == high && (high < 4 ==> Field(x, 0x1_0000, 4) == high)
    ensures Field(x, 0x100, 0x100) == middle && Field(x, 1, 0x100) == low
  {
    assert x / 0x1_0000 == high && x / 0x100 == high * 0x100 + middle;
    RemainderIs(x / 0x100, 0x100, high, middle);
    RemainderIs(x, 0x100, high * 0x100 + middle, low);
  }

  lemma MiddleByte(high: nat, low: nat)
    requires low < 0x1_0000
    ensures (high * 0x1_0000 + low) / 0x100 % 0x100 == low / 0x100
    ensures (high * 0x1_0000 + low) % 0x100 == low % 0x100
  {
    assert (high * 0x1_0000 + low) / 0x100 == high * 0x100 + low / 0x100;
  }

  /** Modulo a power of two keeps the low digit and reduces the high one. */
  lemma KeepLow(high: nat, low: nat, size: nat)
    requires low < 0x1_0000 && (size == 4 || size == 0x10)
    ensures (high * 0x1_0000 + low) % (size * 0x1_0000) == high % size * 0x1_0000 + low
  {
    var q, r := high / size, high % size;
    assert high == q * size + r;
    RemainderIs(high * 0x1_0000 + low, size * 0x1_0000, q, r * 0x1_0000 + low);
  }

  lemma JoinBytes(x: nat)
    ensures Join(Field(x, 0x1_0000, 4), Field(x, 0x100, 0x100), Field(x, 1, 0x100)) == x % 0x4_0000
    ensures Join(Field(x, 0x1_0000, 0x10), Field(x, 0x100, 0x100), Field(x, 1, 0x100)) == x % 0x10_0000
  {
    var high, low := x / 0x1_0000, x % 0x1_0000;
    MiddleByte(high, low);
    KeepLow(high, low, 4);
    KeepLow(high, low, 0x10);
    assert low / 0x100 * 0x100 + low % 0x100 == low;
  }

  lemma SplitByte(high: nat, low: nat, unit: nat)
    requires low < unit && (unit == 4 || unit == 0x10)
    ensures (unit * high + low) / unit == high && (unit * high + low) % unit == low
  {}

  lemma Sixteenth(x: nat)
    ensures x / 0x10 == x / 4 / 4
  {}

  /** What is read back, for any register values: each one truncated to its width. */
  lemma DecodeImage(p1: nat, p2: nat, p3: nat, top: nat)
    requires top < 128 && top % 4 == 0
    ensures Decode(Image(p1, p2, p3, top)) ==
            Setting(p1 % 0x4_0000, p2 % 0x10_0000, p3 % 0x10_0000, top / 0x10, top / 4 % 4 == 3)
  {
    hide Field, Join;
    JoinBytes(p1); JoinBytes(p2); JoinBytes(p3);
    SplitByte(Field(p3, 0x1_0000, 0x10), Field(p2, 0x1_0000, 0x10), 0x10);
    SplitByte(top / 4, Field(p1, 0x1_0000, 4), 4);
    Sixteenth(top + Field(p1, 0x1_0000, 4)); Sixteenth(top);
  }

  /** So a divider survives the trip exactly when it fits its three registers. */
  lemma SurvivesIffFits(p1: nat, p2: nat, p3: nat, top: nat)
    requires top < 128 && top % 4 == 0
    ensures var s := Decode(Image(p1, p2, p3, top));
            (s.p1 == p1 && s.p2 == p2 && s.p3 == p3) <==> (p1 < 0x4_0000 && p2 < 0x10_0000 && p3 < 0x10_0000)
  {
    hide Image, Decode;
    DecodeImage(p1, p2, p3, top);
  }

  /** The register file: a bulk write stores its bytes from one address on. */
  const REGISTER_COUNT := 256

  function Written(regs: seq<byte>, addr: nat, data: seq<byte>): (r: seq<byte>)
    requires |regs| == REGISTER_COUNT && addr + |data| <= REGISTER_COUNT
    ensures |r| == REGISTER_COUNT
  {
    regs[..addr] + data + regs[addr + |data|..]
  }

  function Block(regs: seq<byte>, addr: nat): seq<byte>
    requires |regs| == REGISTER_COUNT && addr + 8 <= REGISTER_COUNT
  {
    regs[addr..addr + 8]
  }

  /** A bulk write changes its own block and no block or register apart from it. */
  lemma WrittenElsewhere(regs: seq<byte>, addr: nat, data: seq<byte>)
    requires |regs| == REGISTER_COUNT && addr + |data| <= REGISTER_COUNT
    ensures |data| == 8 ==> Block(Written(regs, addr, data), addr) == data
    ensures |data| == 1 ==> Written(regs, addr, data)[addr] == data[0]
    ensures forall a | 0 <= a <= REGISTER_COUNT - 8 && (a + 8 <= addr || addr + |data| <= a) ::
              Block(Written(regs, addr, data), a) == Block(regs, a)
    ensures forall a | 0 <= a < REGISTER_COUNT && (a < addr || addr + |data| <= a) ::
              Written(regs, addr, data)[a] == regs[a]
  {
    var w := Written(regs, addr, data);
    forall a | 0 <= a <= REGISTER_COUNT - 8 && (a + 8 <= addr || addr + |data| <= a)
      ensures Block(w, a) == Block(regs, a)
    {
      forall k | a <= k < a + 8 ensures w[k] == regs[k] {}
    }
  }
}
