/** The reflected CRC-16 register, one bit at a time: what it computes and which errors it detects. */
module CrcRegister {

  // ----- The register, one bit at a time, least significant bit first -----

  /** Exclusive or, named so that the laws below can speak about it. */
  function Xor(x: bv16, y: bv16): bv16 {
    x ^ y
  }

  function Half(x: bv16): bv16 {
    x >> 1
  }

  /** One step of the reflected CRC register with no data: shift right, and add the polynomial
      x^16 + x^12 + x^5 + 1 when a one falls out. */
  function Bit(x: bv16): bv16 {
    (x >> 1) ^ ((x & 1) * 0x8408)
  }

  /** A bit as a word. */
  function Unit(d: bool): bv16 {
    if d then 1 else 0
  }

  /** One data bit enters the register at the low end. */
  function BitStep(f: bv16, d: bool): bv16 {
    Bit(Xor(f, Unit(d)))
  }

  /** The check sequence of a string of bits. */
  function FcsBits(f: bv16, bits: seq<bool>): bv16
    decreases |bits|
  {
    if bits == [] then f else FcsBits(BitStep(f, bits[0]), bits[1..])
  }

  // ----- The register shifted several places -----

  function Shift(x: bv16, n: nat): bv16
    decreases n
  {
    if n == 0 then x else Shift(Bit(x), n - 1)
  }

  lemma BitXor(x: bv16, y: bv16)
    ensures Bit(Xor(x, y)) == Xor(Bit(x), Bit(y))
  {
  }

  lemma BitInjective(x: bv16, y: bv16)
    requires Bit(x) == Bit(y)
    ensures x == y
  {
  }

  lemma {:induction false} ShiftXor(x: bv16, y: bv16, n: nat)
    ensures Shift(Xor(x, y), n) == Xor(Shift(x, n), Shift(y, n))
    decreases n
  {
    if n != 0 {
      BitXor(x, y);
      ShiftXor(Bit(x), Bit(y), n - 1);
    }
  }

  lemma {:induction false} ShiftInjective(x: bv16, y: bv16, n: nat)
    requires Shift(x, n) == Shift(y, n)
    ensures x == y
    decreases n
  {
    if n != 0 {
      ShiftInjective(Bit(x), Bit(y), n - 1);
      BitInjective(x, y);
    }
  }

  // ----- Strings of bits as words -----

  /** The `n` low bits of a word in the order they enter the register. */
  function WordBits(w: bv16, n: nat): (r: seq<bool>)
    ensures |r| == n
    decreases n
  {
    if n == 0 then [] else [w & 1 == 1] + WordBits(Half(w), n - 1)
  }

  /** Up to sixteen bits as a word, first bit lowest. */
  function Word(bits: seq<bool>): bv16
    decreases |bits|
  {
    if bits == [] then 0 else Pack(bits[0], Word(bits[1..]))
  }

  function Pack(d: bool, w: bv16): bv16 {
    (w << 1) | Unit(d)
  }

  /** The words of at most `n` bits. */
  predicate Fits(x: bv16, n: nat)
    requires n <= 16
  {
    match n
    case 0 => x == 0
    case 1 => x < 0x2
    case 2 => x < 0x4
    case 3 => x < 0x8
    case 4 => x < 0x10
    case 5 => x < 0x20
    case 6 => x < 0x40
    case 7 => x < 0x80
    case 8 => x < 0x100
    case 9 => x < 0x200
    case 10 => x < 0x400
    case 11 => x < 0x800
    case 12 => x < 0x1000
    case 13 => x < 0x2000
    case 14 => x < 0x4000
    case 15 => x < 0x8000
    case 16 => true
  }

  lemma PackFits(d: bool, w: bv16, n: nat)
    requires n <= 15 && Fits(w, n)
    ensures Fits(Pack(d, w), n + 1)
    ensures w < 0x8000
  {
  }

  lemma Unpack(d: bool, w: bv16)
    requires w < 0x8000
    ensures Half(Pack(d, w)) == w
    ensures Pack(d, w) & 1 == Unit(d)
  {
  }

  lemma HalfFits(x: bv16, n: nat)
    requires 1 <= n <= 16 && Fits(x, n)
    ensures Fits(Half(x), n - 1)
  {
  }

  lemma FitsNone(x: bv16)
    requires Fits(x, 0)
    ensures x == 0 && x & 1 == 0
  {
  }

  lemma NoBits()
    ensures Fits(0, 0)
  {
  }

  lemma {:induction false} WordFits(bits: seq<bool>)
    requires |bits| <= 16
    ensures Fits(Word(bits), |bits|)
    ensures bits != [] ==> Half(Word(bits)) == Word(bits[1..]) && Word(bits) & 1 == Unit(bits[0])
    decreases |bits|
  {
    hide Pack, Unit, Fits, Half;
    if bits == [] {
      NoBits();
    } else {
      WordFits(bits[1..]);
      PackFits(bits[0], Word(bits[1..]), |bits| - 1);
      Unpack(bits[0], Word(bits[1..]));
    }
  }

  lemma UnitInjective(c: bool, d: bool)
    ensures Unit(c) == Unit(d) ==> c == d
  {
  }

  /** A word determines the bits it was packed from. */
  lemma {:induction false} WordInjective(a: seq<bool>, b: seq<bool>)
    requires |a| == |b| <= 16 && Word(a) == Word(b)
    ensures a == b
    decreases |a|
  {
    hide Word, Unit, Fits, Half;
    if a != [] {
      WordFits(a);
      WordFits(b);
      WordInjective(a[1..], b[1..]);
      UnitInjective(a[0], b[0]);
      assert a == [a[0]] + a[1..] && b == [b[0]] + b[1..];
    }
  }

  lemma Repack(v: bv16)
    ensures Pack(v & 1 == 1, Half(v)) == v
  {
  }

  lemma WordCons(v: bv16, rest: seq<bool>)
    requires Word(rest) == Half(v)
    ensures Word([v & 1 == 1] + rest) == v
  {
    hide Pack, Half;
    Repack(v);
    assert ([v & 1 == 1] + rest)[1..] == rest;
  }

  lemma {:induction false} WordOfBits(w: bv16, n: nat)
    requires n <= 16 && Fits(w, n)
    ensures Word(WordBits(w, n)) == w
    decreases n
  {
    hide Half, Fits, Pack;
    if n == 0 {
      FitsNone(w);
    } else {
      HalfFits(w, n);
      WordOfBits(Half(w), n - 1);
      WordCons(w, WordBits(Half(w), n - 1));
    }
  }

  // ----- Feeding bits is shifting -----

  lemma BitStepRaw(f: bv16, u: bv16, w: bv16)
    requires w & 1 == u
    ensures (((f ^ u) >> 1) ^ (((f ^ u) & 1) * 0x8408)) ^ (w >> 1) == ((f ^ w) >> 1) ^ (((f ^ w) & 1) * 0x8408)
  {
  }

  /** One data bit of a word enters the register, the rest still to come. */
  lemma BitStepOfWord(f: bv16, d: bool, w: bv16)
    requires w & 1 == Unit(d)
    ensures Xor(BitStep(f, d), Half(w)) == Bit(Xor(f, w))
  {
    BitStepRaw(f, Unit(d), w);
  }

  lemma XorZero(f: bv16)
    ensures Xor(f, 0) == f && Xor(0, f) == f
  {
  }

  /** Feeding up to sixteen bits is adding them to the register and shifting. */
  lemma {:induction false} FcsBitsIsShift(f: bv16, bits: seq<bool>)
    requires |bits| <= 16
    ensures FcsBits(f, bits) == Shift(Xor(f, Word(bits)), |bits|)
    decreases |bits|
  {
    hide Xor, Bit, BitStep, Pack, Unit, Half, Fits;
    XorZero(f);
    if bits != [] {
      WordFits(bits);
      FcsBitsIsShift(BitStep(f, bits[0]), bits[1..]);
      BitStepOfWord(f, bits[0], Word(bits));
    }
  }

  lemma FcsBitsEmpty(f: bv16)
    ensures FcsBits(f, []) == f
  {
  }

  lemma {:induction false} FcsBitsConcat(f: bv16, a: seq<bool>, b: seq<bool>)
    ensures FcsBits(f, a + b) == FcsBits(FcsBits(f, a), b)
    decreases |a|
  {
    hide BitStep;
    if a == [] {
      assert a + b == b;
    } else {
      FcsBitsConcat(BitStep(f, a[0]), a[1..], b);
      assert (a + b)[0] == a[0] && (a + b)[1..] == a[1..] + b;
    }
  }

  // ----- Linearity -----

  lemma XorAssoc(x: bv16, y: bv16, z: bv16)
    ensures Xor(Xor(x, y), z) == Xor(x, Xor(y, z))
  {
  }

  lemma XorComm(x: bv16, y: bv16)
    ensures Xor(x, y) == Xor(y, x)
  {
  }

  lemma XorSwap(f: bv16, g: bv16, u: bv16, v: bv16)
    ensures Xor(Xor(f, g), Xor(u, v)) == Xor(Xor(f, u), Xor(g, v))
  {
    hide Xor;
    XorAssoc(f, g, Xor(u, v));
    XorAssoc(g, u, v);
    XorAssoc(u, g, v);
    XorComm(g, u);
    XorAssoc(f, u, Xor(g, v));
  }

  lemma UnitXor(c: bool, d: bool)
    ensures Unit(c != d) == Xor(Unit(c), Unit(d))
  {
  }

  lemma BitStepXor(f: bv16, g: bv16, c: bool, d: bool)
    ensures BitStep(Xor(f, g), c != d) == Xor(BitStep(f, c), BitStep(g, d))
  {
    hide Xor, Bit, Unit;
    UnitXor(c, d);
    XorSwap(f, g, Unit(c), Unit(d));
    BitXor(Xor(f, Unit(c)), Xor(g, Unit(d)));
  }

  /** Exclusive or, bit by bit. */
  function XorBits(a: seq<bool>, b: seq<bool>): (r: seq<bool>)
    requires |a| == |b|
    ensures |r| == |a|
  {
    seq(|a|, i requires 0 <= i < |a| => a[i] != b[i])
  }

  /** The check sequence is linear over exclusive or, in the start value and the data together. */
  lemma {:induction false} FcsLinear(f: bv16, g: bv16, a: seq<bool>, b: seq<bool>)
    requires |a| == |b|
    ensures FcsBits(Xor(f, g), XorBits(a, b)) == Xor(FcsBits(f, a), FcsBits(g, b))
    decreases |a|
  {
    hide Xor, BitStep;
    var c := XorBits(a, b);
    if a != [] {
      var a', b' := a[1..], b[1..];
      BitStepXor(f, g, a[0], b[0]);
      FcsLinear(BitStep(f, a[0]), BitStep(g, b[0]), a', b');
      assert c[1..] == XorBits(a', b');
    }
  }

  // ----- Bursts -----

  lemma XorCancel(x: bv16, y: bv16, z: bv16)
    requires Xor(x, z) == Xor(y, z) || Xor(z, x) == Xor(z, y)
    ensures x == y
  {
  }

  /** Different states stay different under the same data. */
  lemma {:induction false} FcsBitsInjective(f: bv16, g: bv16, bits: seq<bool>)
    requires FcsBits(f, bits) == FcsBits(g, bits)
    ensures f == g
    decreases |bits|
  {
    hide Xor, Bit, Unit;
    if bits != [] {
      FcsBitsInjective(BitStep(f, bits[0]), BitStep(g, bits[0]), bits[1..]);
      BitInjective(Xor(f, Unit(bits[0])), Xor(g, Unit(bits[0])));
      XorCancel(f, g, Unit(bits[0]));
    }
  }

  /** Every burst of at most sixteen bits is detected: strings of bits that agree outside a window
      of sixteen have the same check sequence only when they are the same. */
  lemma BurstDetected(f: bv16, pre: seq<bool>, a: seq<bool>, b: seq<bool>, post: seq<bool>)
    requires |a| == |b| <= 16 && a != b
    ensures FcsBits(f, pre + a + post) != FcsBits(f, pre + b + post)
  {
    hide Xor, FcsBits, Shift, Word;
    var g := FcsBits(f, pre);
    FcsBitsConcat(f, pre + a, post);
    FcsBitsConcat(f, pre + b, post);
    FcsBitsConcat(f, pre, a);
    FcsBitsConcat(f, pre, b);
    if FcsBits(f, pre + a + post) == FcsBits(f, pre + b + post) {
      FcsBitsInjective(FcsBits(g, a), FcsBits(g, b), post);
      FcsBitsIsShift(g, a);
      FcsBitsIsShift(g, b);
      ShiftInjective(Xor(g, Word(a)), Xor(g, Word(b)), |a|);
      XorCancel(Word(a), Word(b), g);
      WordInjective(a, b);
    }
  }

  // ----- Parity -----

  /** Whether the number of ones among the `n` low bits of a word is odd. */
  function LowParity(x: bv16, n: nat): bool
    decreases n
  {
    n != 0 && (x & 1 == 1) != LowParity(Half(x), n - 1)
  }

  function Parity(x: bv16): bool {
    LowParity(x, 16)
  }

  /** Whether the number of ones in a string of bits is odd. */
  function OddOnes(bits: seq<bool>): bool
    decreases |bits|
  {
    bits != [] && bits[0] != OddOnes(bits[1..])
  }

  lemma HalfOfXor(x: bv16, y: bv16)
    ensures Half(Xor(x, y)) == Xor(Half(x), Half(y))
    ensures (Xor(x, y) & 1 == 1) == ((x & 1 == 1) != (y & 1 == 1))
  {
  }

  lemma {:induction false} ParityOfXor(x: bv16, y: bv16, n: nat)
    ensures LowParity(Xor(x, y), n) == (LowParity(x, n) != LowParity(y, n))
    decreases n
  {
    hide Xor, Half;
    if n != 0 {
      HalfOfXor(x, y);
      ParityOfXor(Half(x), Half(y), n - 1);
    }
  }

  lemma ParityOfSum(x: bv16, y: bv16)
    ensures Parity(Xor(x, y)) == (Parity(x) != Parity(y))
  {
    hide Xor, LowParity;
    ParityOfXor(x, y, 16);
  }

  lemma {:induction false} ParityBeyond(x: bv16, n: nat)
    requires n <= 15 && Fits(x, n)
    ensures LowParity(x, n + 1) == LowParity(x, n)
    decreases n
  {
    hide Half, Fits;
    if n == 0 {
      FitsNone(x);
    } else {
      HalfFits(x, n);
      ParityBeyond(Half(x), n - 1);
    }
  }

  lemma BitCases(x: bv16)
    ensures x & 1 == 0 ==> Bit(x) == Half(x)
    ensures x & 1 == 1 ==> Bit(x) == Xor(Half(x), 0x8408)
    ensures x & 1 == 0 || x & 1 == 1
    ensures Fits(Half(x), 15)
  {
  }

  lemma ZeroParity(n: nat)
    ensures !LowParity(0, n)
    decreases n
  {
    if n != 0 {
      assert Half(0) == 0;
      ZeroParity(n - 1);
    }
  }

  lemma PolynomialParity()
    ensures LowParity(0x8408, 16)
  {
    assert Half(0x8408) == 0x4204 && Half(0x4204) == 0x2102 && Half(0x2102) == 0x1081 && Half(0x1081) == 0x840;
    assert Half(0x840) == 0x420 && Half(0x420) == 0x210 && Half(0x210) == 0x108 && Half(0x108) == 0x84;
    assert Half(0x84) == 0x42 && Half(0x42) == 0x21 && Half(0x21) == 0x10 && Half(0x10) == 8;
    assert Half(8) == 4 && Half(4) == 2 && Half(2) == 1 && Half(1) == 0;
    ZeroParity(0);
    assert LowParity(1, 1) && LowParity(2, 2) && LowParity(4, 3) && LowParity(8, 4) && LowParity(0x10, 5);
    assert !LowParity(0x21, 6) && !LowParity(0x42, 7) && !LowParity(0x84, 8) && !LowParity(0x108, 9);
    assert !LowParity(0x210, 10) && !LowParity(0x420, 11) && !LowParity(0x840, 12);
    assert LowParity(0x1081, 13) && LowParity(0x2102, 14) && LowParity(0x4204, 15);
  }

  lemma ParityOfBit(x: bv16)
    ensures Parity(Bit(x)) == Parity(x)
  {
    hide Bit, Half, Xor, Fits;
    BitCases(x);
    ParityBeyond(Half(x), 15);
    ParityOfXor(Half(x), 0x8408, 16);
    PolynomialParity();
  }

  lemma ParityOfUnit(d: bool)
    ensures Parity(Unit(d)) == d
  {
    ZeroParity(15);
    ZeroParity(16);
    assert Half(1) == 0;
    assert LowParity(1, 16) == ((1 as bv16 & 1 == 1) != LowParity(Half(1), 15));
    assert Unit(true) == 1 && Unit(false) == 0;
  }

  /** The register's parity follows the parity of the data. */
  lemma {:induction false} FcsParity(f: bv16, bits: seq<bool>)
    ensures Parity(FcsBits(f, bits)) == (Parity(f) != OddOnes(bits))
    decreases |bits|
  {
    hide Xor, Bit, Unit, LowParity;
    if bits != [] {
      FcsParity(BitStep(f, bits[0]), bits[1..]);
      ParityOfBit(Xor(f, Unit(bits[0])));
      ParityOfSum(f, Unit(bits[0]));
      ParityOfUnit(bits[0]);
    }
  }

  /** In how many places two strings of bits differ. */
  function Flips(a: seq<bool>, b: seq<bool>): nat
    requires |a| == |b|
    decreases |a|
  {
    if a == [] then 0 else (if a[0] != b[0] then 1 else 0) + Flips(a[1..], b[1..])
  }

  lemma {:induction false} FlipsParity(a: seq<bool>, b: seq<bool>)
    requires |a| == |b|
    ensures Flips(a, b) % 2 == 1 <==> OddOnes(a) != OddOnes(b)
    decreases |a|
  {
    if a != [] {
      FlipsParity(a[1..], b[1..]);
    }
  }

  /** Every odd number of flipped bits is detected, wherever they fall. */
  lemma OddErrorsDetected(f: bv16, a: seq<bool>, b: seq<bool>)
    requires |a| == |b| && Flips(a, b) % 2 == 1
    ensures FcsBits(f, a) != FcsBits(f, b)
  {
    FcsParity(f, a);
    FcsParity(f, b);
    FlipsParity(a, b);
  }

  lemma {:induction false} OddOnesConcat(a: seq<bool>, b: seq<bool>)
    ensures OddOnes(a + b) == (OddOnes(a) != OddOnes(b))
    decreases |a|
  {
    if a == [] {
      assert a + b == b;
    } else {
      OddOnesConcat(a[1..], b);
      assert (a + b)[0] == a[0] && (a + b)[1..] == a[1..] + b;
    }
  }

  lemma {:induction false} OddOnesOfWord(w: bv16, n: nat)
    ensures OddOnes(WordBits(w, n)) == LowParity(w, n)
    decreases n
  {
    hide Half;
    if n != 0 {
      OddOnesOfWord(Half(w), n - 1);
      assert WordBits(w, n)[1..] == WordBits(Half(w), n - 1);
    }
  }
}
