/** The frame check sequence as the framer computes it, by table, and its meaning bit by bit. */
module FrameCheck {
  import opened Bytes
  import opened CrcRegister

  /** The value the framer starts every frame check sequence from. */
  const INITFCS: bv16 := 0xffff

  // ----- The table -----

  /** The framer's 256-entry table, row by row: entry `i` is `FcsRow(i / 8)[i % 8]`. */
  function FcsRow(r: nat): (row: seq<bv16>)
    requires r < 32
    ensures |row| == 8
  {
    if r < 8 then FcsRows0To7(r)
    else if r < 16 then FcsRows8To15(r)
    else if r < 24 then FcsRows16To23(r)
    else FcsRows24To31(r)
  }

  function FcsRows0To7(r: nat): (row: seq<bv16>)
    requires 0 <= r < 8
    ensures |row| == 8
  {
    match r
    case 0 => [0x0000, 0x1189, 0x2312, 0x329b, 0x4624, 0x57ad, 0x6536, 0x74bf]
    case 1 => [0x8c48, 0x9dc1, 0xaf5a, 0xbed3, 0xca6c, 0xdbe5, 0xe97e, 0xf8f7]
    case 2 => [0x1081, 0x0108, 0x3393, 0x221a, 0x56a5, 0x472c, 0x75b7, 0x643e]
    case 3 => [0x9cc9, 0x8d40, 0xbfdb, 0xae52, 0xdaed, 0xcb64, 0xf9ff, 0xe876]
    case 4 => [0x2102, 0x308b, 0x0210, 0x1399, 0x6726, 0x76af, 0x4434, 0x55bd]
    case 5 => [0xad4a, 0xbcc3, 0x8e58, 0x9fd1, 0xeb6e, 0xfae7, 0xc87c, 0xd9f5]
    case 6 => [0x3183, 0x200a, 0x1291, 0x0318, 0x77a7, 0x662e, 0x54b5, 0x453c]
    case 7 => [0xbdcb, 0xac42, 0x9ed9, 0x8f50, 0xfbef, 0xea66, 0xd8fd, 0xc974]
  }

  function FcsRows8To15(r: nat): (row: seq<bv16>)
    requires 8 <= r < 16
    ensures |row| == 8
  {
    match r
    case 8 => [0x4204, 0x538d, 0x6116, 0x709f, 0x0420, 0x15a9, 0x2732, 0x36bb]
    case 9 => [0xce4c, 0xdfc5, 0xed5e, 0xfcd7, 0x8868, 0x99e1, 0xab7a, 0xbaf3]
    case 10 => [0x5285, 0x430c, 0x7197, 0x601e, 0x14a1, 0x0528, 0x37b3, 0x263a]
    case 11 => [0xdecd, 0xcf44, 0xfddf, 0xec56, 0x98e9, 0x8960, 0xbbfb, 0xaa72]
    case 12 => [0x6306, 0x728f, 0x4014, 0x519d, 0x2522, 0x34ab, 0x0630, 0x17b9]
    case 13 => [0xef4e, 0xfec7, 0xcc5c, 0xddd5, 0xa96a, 0xb8e3, 0x8a78, 0x9bf1]
    case 14 => [0x7387, 0x620e, 0x5095, 0x411c, 0x35a3, 0x242a, 0x16b1, 0x0738]
    case 15 => [0xffcf, 0xee46, 0xdcdd, 0xcd54, 0xb9eb, 0xa862, 0x9af9, 0x8b70]
  }

  function FcsRows16To23(r: nat): (row: seq<bv16>)
    requires 16 <= r < 24
    ensures |row| == 8
  {
    match r
    case 16 => [0x8408, 0x9581, 0xa71a, 0xb693, 0xc22c, 0xd3a5, 0xe13e, 0xf0b7]
    case 17 => [0x0840, 0x19c9, 0x2b52, 0x3adb, 0x4e64, 0x5fed, 0x6d76, 0x7cff]
    case 18 => [0x9489, 0x8500, 0xb79b, 0xa612, 0xd2ad, 0xc324, 0xf1bf, 0xe036]
    case 19 => [0x18c1, 0x0948, 0x3bd3, 0x2a5a, 0x5ee5, 0x4f6c, 0x7df7, 0x6c7e]
    case 20 => [0xa50a, 0xb483, 0x8618, 0x9791, 0xe32e, 0xf2a7, 0xc03c, 0xd1b5]
    case 21 => [0x2942, 0x38cb, 0x0a50, 0x1bd9, 0x6f66, 0x7eef, 0x4c74, 0x5dfd]
    case 22 => [0xb58b, 0xa402, 0x9699, 0x8710, 0xf3af, 0xe226, 0xd0bd, 0xc134]
    case 23 => [0x39c3, 0x284a, 0x1ad1, 0x0b58, 0x7fe7, 0x6e6e, 0x5cf5, 0x4d7c]
  }

  function FcsRows24To31(r: nat): (row: seq<bv16>)
    requires 24 <= r < 32
    ensures |row| == 8
  {
    match r
    case 24 => [0xc60c, 0xd785, 0xe51e, 0xf497, 0x8028, 0x91a1, 0xa33a, 0xb2b3]
    case 25 => [0x4a44, 0x5bcd, 0x6956, 0x78df, 0x0c60, 0x1de9, 0x2f72, 0x3efb]
    case 26 => [0xd68d, 0xc704, 0xf59f, 0xe416, 0x90a9, 0x8120, 0xb3bb, 0xa232]
    case 27 => [0x5ac5, 0x4b4c, 0x79d7, 0x685e, 0x1ce1, 0x0d68, 0x3ff3, 0x2e7a]
    case 28 => [0xe70e, 0xf687, 0xc41c, 0xd595, 0xa12a, 0xb0a3, 0x8238, 0x93b1]
    case 29 => [0x6b46, 0x7acf, 0x4854, 0x59dd, 0x2d62, 0x3ceb, 0x0e70, 0x1ff9]
    case 30 => [0xf78f, 0xe606, 0xd49d, 0xc514, 0xb1ab, 0xa022, 0x92b9, 0x8330]
    case 31 => [0x7bc7, 0x6a4e, 0x58d5, 0x495c, 0x3de3, 0x2c6a, 0x1ef1, 0x0f78]
  }

  // ----- Octets as bits -----

  /** An octet as a word. */
  function OctetWord(b: Byte): bv16 {
    b as bv16
  }

  function ByteBits(b: Byte): (r: seq<bool>)
    ensures |r| == 8
  {
    WordBits(OctetWord(b), 8)
  }

  function Bits(s: seq<Byte>): (r: seq<bool>)
    ensures |r| == 8 * |s|
  {
    if s == [] then [] else ByteBits(s[0]) + Bits(s[1..])
  }

  // ----- The framer's form: one octet at a time, by table -----

  /** Table entry `x`, found by row and column. */
  function TableAt(x: bv16): bv16
    requires x < 256
  {
    TableEntry(x);
    FcsRow((x >> 3) as int)[(x & 7) as int]
  }

  function LowByte(x: bv16): (r: bv16)
    ensures r < 256
  {
    x & 0xff
  }

  function HighByte(x: bv16): bv16 {
    x >> 8
  }

  function FcsStep(f: bv16, b: Byte): bv16 {
    Xor(HighByte(f), TableAt(LowByte(Xor(f, OctetWord(b)))))
  }

  function Fcs(f: bv16, s: seq<Byte>): bv16
    decreases |s|
  {
    if s == [] then f else Fcs(FcsStep(f, s[0]), s[1..])
  }

  /** The loop of the framer: a table look-up for each octet of the buffer. */
  method CalcFcs(fcs: bv16, cp: seq<Byte>) returns (r: bv16)
    ensures r == Fcs(fcs, cp)
    ensures r == FcsBits(fcs, Bits(cp))
  {
    TableRefinesBits(fcs, cp);
    r := fcs;
    var i := 0;
    while i < |cp|
      invariant 0 <= i <= |cp|
      invariant Fcs(r, cp[i..]) == Fcs(fcs, cp)
    {
      assert cp[i..][0] == cp[i] && cp[i..][1..] == cp[i + 1..];
      r := FcsStep(r, cp[i]);
      i := i + 1;
    }
  }

  // ----- The table holds the register shifted eight places -----

  function ByteShift(x: bv16): bv16 {
    Bit(Bit(Bit(Bit(Bit(Bit(Bit(Bit(x))))))))
  }

  function ByteShiftRow(x: bv16): seq<bv16> {
    [ByteShift(x), ByteShift(x + 1), ByteShift(x + 2), ByteShift(x + 3),
     ByteShift(x + 4), ByteShift(x + 5), ByteShift(x + 6), ByteShift(x + 7)]
  }

  lemma TableRowsFrom0()
    ensures FcsRow(0) == ByteShiftRow(0)
    ensures FcsRow(1) == ByteShiftRow(8)
    ensures FcsRow(2) == ByteShiftRow(16)
    ensures FcsRow(3) == ByteShiftRow(24)
  {
  }

  lemma TableRowsFrom4()
    ensures FcsRow(4) == ByteShiftRow(32)
    ensures FcsRow(5) == ByteShiftRow(40)
    ensures FcsRow(6) == ByteShiftRow(48)
    ensures FcsRow(7) == ByteShiftRow(56)
  {
  }

  lemma TableRowsFrom8()
    ensures FcsRow(8) == ByteShiftRow(64)
    ensures FcsRow(9) == ByteShiftRow(72)
    ensures FcsRow(10) == ByteShiftRow(80)
    ensures FcsRow(11) == ByteShiftRow(88)
  {
  }

  lemma TableRowsFrom12()
    ensures FcsRow(12) == ByteShiftRow(96)
    ensures FcsRow(13) == ByteShiftRow(104)
    ensures FcsRow(14) == ByteShiftRow(112)
    ensures FcsRow(15) == ByteShiftRow(120)
  {
  }

  lemma TableRowsFrom16()
    ensures FcsRow(16) == ByteShiftRow(128)
    ensures FcsRow(17) == ByteShiftRow(136)
    ensures FcsRow(18) == ByteShiftRow(144)
    ensures FcsRow(19) == ByteShiftRow(152)
  {
  }

  lemma TableRowsFrom20()
    ensures FcsRow(20) == ByteShiftRow(160)
    ensures FcsRow(21) == ByteShiftRow(168)
    ensures FcsRow(22) == ByteShiftRow(176)
    ensures FcsRow(23) == ByteShiftRow(184)
  {
  }

  lemma TableRowsFrom24()
    ensures FcsRow(24) == ByteShiftRow(192)
    ensures FcsRow(25) == ByteShiftRow(200)
    ensures FcsRow(26) == ByteShiftRow(208)
    ensures FcsRow(27) == ByteShiftRow(216)
  {
  }

  lemma TableRowsFrom28()
    ensures FcsRow(28) == ByteShiftRow(224)
    ensures FcsRow(29) == ByteShiftRow(232)
    ensures FcsRow(30) == ByteShiftRow(240)
    ensures FcsRow(31) == ByteShiftRow(248)
  {
  }

  lemma TableRow(x: bv16)
    requires x < 32
    ensures x as int < 32
    ensures FcsRow(x as int) == ByteShiftRow(x << 3)
  {
    hide FcsRow, ByteShiftRow;
    if x < 4 {
      TableRowsFrom0();
      assert x == 0 || x == 1 || x == 2 || x == 3;
    } else if x < 8 {
      TableRowsFrom4();
      assert x == 4 || x == 5 || x == 6 || x == 7;
    } else if x < 12 {
      TableRowsFrom8();
      assert x == 8 || x == 9 || x == 10 || x == 11;
    } else if x < 16 {
      TableRowsFrom12();
      assert x == 12 || x == 13 || x == 14 || x == 15;
    } else if x < 20 {
      TableRowsFrom16();
      assert x == 16 || x == 17 || x == 18 || x == 19;
    } else if x < 24 {
      TableRowsFrom20();
      assert x == 20 || x == 21 || x == 22 || x == 23;
    } else if x < 28 {
      TableRowsFrom24();
      assert x == 24 || x == 25 || x == 26 || x == 27;
    } else if x < 32 {
      TableRowsFrom28();
      assert x == 28 || x == 29 || x == 30 || x == 31;
    }
  }

  /** Every entry of the table is its index shifted eight places through the register. */
  lemma TableEntry(x: bv16)
    requires x < 256
    ensures (x >> 3) as int < 32 && (x & 7) as int < 8
    ensures FcsRow((x >> 3) as int)[(x & 7) as int] == ByteShift(x)
  {
    hide FcsRow, ByteShift;
    TableRow(x >> 3);
    var y := x & 7;
    var z := (x >> 3) << 3;
    assert x == z + y;
    assert y == 0 || y == 1 || y == 2 || y == 3 || y == 4 || y == 5 || y == 6 || y == 7;
  }

  lemma ByteShiftIsShift(x: bv16)
    ensures Shift(x, 8) == ByteShift(x)
  {
    hide Bit;
  }

  lemma SplitWord(x: bv16)
    ensures x == Xor(x & 0xff00, LowByte(x))
    ensures HighByte(x) == HighByte(x & 0xff00)
    ensures (x & 0xff00) & 0xff == 0
  {
  }

  lemma ShiftOfHighByte(x: bv16)
    requires x & 0xff == 0
    ensures ByteShift(x) == HighByte(x)
  {
  }

  lemma OctetOnlyLow(f: bv16, b: bv16)
    requires b < 256
    ensures HighByte(Xor(f, b)) == HighByte(f)
  {
  }

  lemma OctetIsSmall(b: Byte)
    ensures OctetWord(b) < 256
  {
  }

  /** A table step is eight shifts of the register with the octet added in. */
  lemma StepIsShift(f: bv16, b: Byte)
    ensures FcsStep(f, b) == Shift(Xor(f, OctetWord(b)), 8)
  {
    hide Xor, Shift, ByteShift, FcsRow, LowByte, HighByte, OctetWord;
    var x := Xor(f, OctetWord(b));
    var hi, lo := x & 0xff00, LowByte(x);
    SplitWord(x);
    ShiftXor(hi, lo, 8);
    ByteShiftIsShift(hi);
    ByteShiftIsShift(lo);
    ShiftOfHighByte(hi);
    TableEntry(lo);
    OctetIsSmall(b);
    OctetOnlyLow(f, OctetWord(b));
  }

  /** The table loop computes the bit-at-a-time check sequence, for every buffer and start value. */
  lemma {:induction false} TableRefinesBits(f: bv16, s: seq<Byte>)
    ensures Fcs(f, s) == FcsBits(f, Bits(s))
    decreases |s|
  {
    hide FcsStep, FcsBits, WordBits, Xor, Shift, Word, OctetWord;
    FcsBitsEmpty(f);
    if s != [] {
      TableRefinesBits(FcsStep(f, s[0]), s[1..]);
      FcsBitsConcat(f, ByteBits(s[0]), Bits(s[1..]));
      FcsBitsIsShift(f, ByteBits(s[0]));
      OctetIsSmall(s[0]);
      WordOfBits(OctetWord(s[0]), 8);
      StepIsShift(f, s[0]);
    }
  }

  // ----- The check sequence as two octets, high octet first -----

  /** A word below 256 as an octet. */
  function OctetOf(w: bv16): (b: Byte)
    requires w < 256
    ensures OctetWord(b) == w
  {
    w as int
  }

  function HighOctet(f: bv16): (b: Byte)
    ensures OctetWord(b) == HighByte(f)
  {
    HighByteIsSmall(f);
    OctetOf(HighByte(f))
  }

  function LowOctet(f: bv16): (b: Byte)
    ensures OctetWord(b) == LowByte(f)
  {
    OctetOf(LowByte(f))
  }

  lemma HighByteIsSmall(f: bv16)
    ensures HighByte(f) < 256
  {
  }

  /** The receiver's reading of the two octets. */
  function JoinOctets(h: Byte, l: Byte): bv16 {
    JoinBytes(OctetWord(h), OctetWord(l))
  }

  function JoinBytes(h: bv16, l: bv16): bv16 {
    (h << 8) + l
  }

  lemma JoinOfSplit(f: bv16)
    ensures JoinBytes(HighByte(f), LowByte(f)) == f
  {
  }

  lemma SplitOfJoin(h: bv16, l: bv16)
    requires h < 256 && l < 256
    ensures HighByte(JoinBytes(h, l)) == h && LowByte(JoinBytes(h, l)) == l
  {
  }

  /** An octet divided by a power of two, and the bit there. */
  function Quotient(b: Byte, d: nat): nat
    requires d > 0
  {
    b / d
  }

  function BitAt(b: Byte, d: nat): bool
    requires d > 0
  {
    b / d % 2 == 1
  }

  lemma OctetLowBits(b: Byte)
    ensures OctetWord(b) & 1 == 1 <==> BitAt(b, 1)
    ensures (OctetWord(b) >> 1) & 1 == 1 <==> BitAt(b, 2)
    ensures (OctetWord(b) >> 2) & 1 == 1 <==> BitAt(b, 4)
    ensures (OctetWord(b) >> 3) & 1 == 1 <==> BitAt(b, 8)
  {
  }

  lemma OctetHighBits(b: Byte)
    ensures (OctetWord(b) >> 4) & 1 == 1 <==> BitAt(b, 16)
    ensures (OctetWord(b) >> 5) & 1 == 1 <==> BitAt(b, 32)
    ensures (OctetWord(b) >> 6) & 1 == 1 <==> BitAt(b, 64)
    ensures (OctetWord(b) >> 7) & 1 == 1 <==> BitAt(b, 128)
  {
  }

  lemma QuotientStep(b: Byte, d: nat)
    requires d in [1, 2, 4, 8, 16, 32, 64, 128]
    ensures Quotient(b, d) == 2 * Quotient(b, 2 * d) + (if BitAt(b, d) then 1 else 0)
  {
    if d == 1 {
    } else if d == 2 {
    } else if d == 4 {
    } else if d == 8 {
    } else if d == 16 {
    } else if d == 32 {
    } else if d == 64 {
    } else {
      assert d == 128;
    }
  }

  lemma QuotientEnds(b: Byte)
    ensures Quotient(b, 1) == b && Quotient(b, 256) == 0
  {
  }

  lemma OctetFromBits(a: Byte, b: Byte, d: nat)
    requires d in [1, 2, 4, 8, 16, 32, 64, 128]
    requires BitAt(a, d) == BitAt(b, d) && Quotient(a, 2 * d) == Quotient(b, 2 * d)
    ensures Quotient(a, d) == Quotient(b, d)
  {
    hide BitAt, Quotient;
    QuotientStep(a, d);
    QuotientStep(b, d);
  }

  lemma OctetWordInjective(a: Byte, b: Byte)
    requires OctetWord(a) == OctetWord(b)
    ensures a == b
  {
    hide OctetWord, BitAt, Quotient;
    OctetLowBits(a);
    OctetHighBits(a);
    OctetLowBits(b);
    OctetHighBits(b);
    QuotientEnds(a);
    QuotientEnds(b);
    OctetFromBits(a, b, 128);
    OctetFromBits(a, b, 64);
    OctetFromBits(a, b, 32);
    OctetFromBits(a, b, 16);
    OctetFromBits(a, b, 8);
    OctetFromBits(a, b, 4);
    OctetFromBits(a, b, 2);
    OctetFromBits(a, b, 1);
  }

  /** The two octets the framer sends are exactly those the receiver reads back as the sequence. */
  lemma JoinSplit(f: bv16, h: Byte, l: Byte)
    ensures JoinOctets(h, l) == f <==> h == HighOctet(f) && l == LowOctet(f)
  {
    hide HighByte, LowByte, JoinBytes, OctetWord;
    JoinOfSplit(f);
    OctetIsSmall(h);
    OctetIsSmall(l);
    SplitOfJoin(OctetWord(h), OctetWord(l));
    if JoinOctets(h, l) == f {
      OctetWordInjective(h, HighOctet(f));
      OctetWordInjective(l, LowOctet(f));
    }
  }

  // ----- Buffers as bits -----

  /** Distinct buffers have distinct bits. */
  lemma {:induction false} BitsInjective(a: seq<Byte>, b: seq<Byte>)
    requires |a| == |b| && Bits(a) == Bits(b)
    ensures a == b
    decreases |a|
  {
    hide WordBits, OctetWord;
    if a != [] {
      assert ByteBits(a[0]) == Bits(a)[..8] && ByteBits(b[0]) == Bits(b)[..8];
      assert Bits(a[1..]) == Bits(a)[8..] && Bits(b[1..]) == Bits(b)[8..];
      BitsInjective(a[1..], b[1..]);
      OctetIsSmall(a[0]);
      OctetIsSmall(b[0]);
      WordOfBits(OctetWord(a[0]), 8);
      WordOfBits(OctetWord(b[0]), 8);
      OctetWordInjective(a[0], b[0]);
      assert a == [a[0]] + a[1..] && b == [b[0]] + b[1..];
    }
  }

  lemma {:induction false} BitsConcat(a: seq<Byte>, b: seq<Byte>)
    ensures Bits(a + b) == Bits(a) + Bits(b)
    decreases |a|
  {
    hide WordBits, OctetWord;
    if a == [] {
      assert a + b == b;
    } else {
      BitsConcat(a[1..], b);
      assert (a + b)[0] == a[0] && (a + b)[1..] == a[1..] + b;
    }
  }

  /** Buffers of one size that differ, and only within two adjacent octets, have different check
      sequences, whatever the start value. */
  lemma AdjacentOctetsDetected(f: bv16, pre: seq<Byte>, a: seq<Byte>, b: seq<Byte>, post: seq<Byte>)
    requires |a| == |b| <= 2 && a != b
    ensures Fcs(f, pre + a + post) != Fcs(f, pre + b + post)
  {
    hide Fcs, FcsBits, Bits;
    TableRefinesBits(f, pre + a + post);
    TableRefinesBits(f, pre + b + post);
    BitsConcat(pre + a, post);
    BitsConcat(pre + b, post);
    BitsConcat(pre, a);
    BitsConcat(pre, b);
    if Bits(a) == Bits(b) {
      BitsInjective(a, b);
    }
    BurstDetected(f, Bits(pre), Bits(a), Bits(b), Bits(post));
  }

  // ----- A sealed buffer has even parity -----

  lemma DoubleFits(x: bv16, n: nat)
    requires n <= 15 && Fits(x, n)
    ensures Fits(Double(x), n + 1) && x < 0x8000
  {
  }

  lemma HalfDouble(x: bv16)
    requires x < 0x8000
    ensures Half(Double(x)) == x && Double(x) & 1 == 0
  {
  }

  function Double(x: bv16): bv16 {
    x << 1
  }

  /** The word with `n` zeros below it. */
  function Raise(x: bv16, n: nat): bv16
    decreases n
  {
    if n == 0 then x else Double(Raise(x, n - 1))
  }

  lemma {:induction false} ParityOfRaised(h: bv16, n: nat)
    requires Fits(h, 8) && n <= 8
    ensures Fits(Raise(h, n), 8 + n) && LowParity(Raise(h, n), 8 + n) == LowParity(h, 8)
    decreases n
  {
    hide Half, Double, Fits;
    if n != 0 {
      ParityOfRaised(h, n - 1);
      DoubleFits(Raise(h, n - 1), 8 + n - 1);
      HalfDouble(Raise(h, n - 1));
    }
  }

  lemma {:induction false} ParityOfLowOctet(l: bv16, n: nat)
    requires l < 256 && 8 <= n <= 16
    ensures LowParity(l, n) == LowParity(l, 8)
    decreases n
  {
    if n > 8 {
      ParityOfLowOctet(l, n - 1);
      ParityBeyond(l, n - 1);
    }
  }

  lemma RaiseOctet(h: bv16)
    ensures Raise(h, 8) == h << 8
  {
  }

  lemma JoinIsXor(f: bv16)
    ensures f == Xor(Raise(HighByte(f), 8), LowByte(f))
    ensures Fits(HighByte(f), 8)
  {
    RaiseOctet(HighByte(f));
  }

  /** The two octets together have the parity of the check sequence. */
  lemma ParityOfOctets(f: bv16)
    ensures OddOnes(Bits([HighOctet(f), LowOctet(f)])) == Parity(f)
  {
    hide LowParity, Xor, OddOnes, HighByte, LowByte, Raise, Fits, WordBits, OctetWord;
    var h, l := HighOctet(f), LowOctet(f);
    JoinIsXor(f);
    ParityOfXor(Raise(HighByte(f), 8), LowByte(f), 16);
    ParityOfRaised(HighByte(f), 8);
    ParityOfLowOctet(LowByte(f), 16);
    OddOnesOfWord(HighByte(f), 8);
    OddOnesOfWord(LowByte(f), 8);
    assert Bits([l]) == ByteBits(l);
    assert [h, l][1..] == [l];
    OddOnesConcat(ByteBits(h), ByteBits(l));
  }

  /** A buffer followed by its check sequence has an even number of ones. */
  lemma SealedIsEven(s: seq<Byte>)
    ensures !OddOnes(Bits(s + [HighOctet(Fcs(INITFCS, s)), LowOctet(Fcs(INITFCS, s))]))
  {
    hide OddOnes, Bits, Fcs;
    var f := Fcs(INITFCS, s);
    TableRefinesBits(INITFCS, s);
    FcsParity(INITFCS, Bits(s));
    AllOnesIsEven();
    ParityOfOctets(f);
    BitsConcat(s, [HighOctet(f), LowOctet(f)]);
    OddOnesConcat(Bits(s), Bits([HighOctet(f), LowOctet(f)]));
  }

  lemma AllOnesIsEven()
    ensures !Parity(INITFCS)
  {
    assert Half(0xffff) == 0x7fff && Half(0x7fff) == 0x3fff && Half(0x3fff) == 0x1fff && Half(0x1fff) == 0xfff;
    assert Half(0xfff) == 0x7ff && Half(0x7ff) == 0x3ff && Half(0x3ff) == 0x1ff && Half(0x1ff) == 0xff;
    assert Half(0xff) == 0x7f && Half(0x7f) == 0x3f && Half(0x3f) == 0x1f && Half(0x1f) == 0xf;
    assert Half(0xf) == 7 && Half(7) == 3 && Half(3) == 1;
    ZeroParity(0);
    assert LowParity(1, 1) && !LowParity(3, 2) && LowParity(7, 3) && !LowParity(0xf, 4) && LowParity(0x1f, 5);
    assert !LowParity(0x3f, 6) && LowParity(0x7f, 7) && !LowParity(0xff, 8) && LowParity(0x1ff, 9);
    assert !LowParity(0x3ff, 10) && LowParity(0x7ff, 11) && !LowParity(0xfff, 12) && LowParity(0x1fff, 13);
    assert !LowParity(0x3fff, 14) && LowParity(0x7fff, 15);
  }
}
