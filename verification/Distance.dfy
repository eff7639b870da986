/** The distance of the check sequence: how many bits two valid frames of one size must differ in. */
module Distance {
  import opened Bytes
  import opened CrcRegister
  import opened FrameCheck
  import opened Receiver

  // ----- A single bit does not come back to a single bit within a largest frame -----

  /** The register shifted sixteen places. */
  function Lap(x: bv16): bv16 {
    ByteShift(ByteShift(x))
  }

  /** At most one bit is set. */
  predicate Single(x: bv16) {
    x & (x - 1) == 0
  }

  /** None of the next `n` laps ends with a single bit. */
  predicate Clear(x: bv16, n: nat)
    decreases n
  {
    n == 0 || (!Single(Lap(x)) && Clear(Lap(x), n - 1))
  }

  lemma LapsFrom0(n: nat)
    requires Clear(0xdf56, n)
    ensures Clear(1, n + 10)
  {
    ClearOneMore(0xf8e7, 0xdf56, n);
    ClearOneMore(0x8e10, 0xf8e7, n + 1);
    ClearOneMore(0x7eea, 0x8e10, n + 2);
    ClearOneMore(0x8555, 0x7eea, n + 3);
    ClearOneMore(0x2c27, 0x8555, n + 4);
    ClearOneMore(0x81bf, 0x2c27, n + 5);
    ClearOneMore(0x042b, 0x81bf, n + 6);
    ClearOneMore(0x1cbb, 0x042b, n + 7);
    ClearOneMore(0x19d8, 0x1cbb, n + 8);
    ClearOneMore(1, 0x19d8, n + 9);
  }

  lemma LapsFrom10(n: nat)
    requires Clear(0x0e3a, n)
    ensures Clear(0xdf56, n + 10)
  {
    ClearOneMore(0xaac8, 0x0e3a, n);
    ClearOneMore(0xac4f, 0xaac8, n + 1);
    ClearOneMore(0x51dd, 0xac4f, n + 2);
    ClearOneMore(0x7762, 0x51dd, n + 3);
    ClearOneMore(0x20f3, 0x7762, n + 4);
    ClearOneMore(0xce1e, 0x20f3, n + 5);
    ClearOneMore(0xcd50, 0xce1e, n + 6);
    ClearOneMore(0x5b44, 0xcd50, n + 7);
    ClearOneMore(0xa95d, 0x5b44, n + 8);
    ClearOneMore(0xdf56, 0xa95d, n + 9);
  }

  lemma LapsFrom20(n: nat)
    requires Clear(0x1b34, n)
    ensures Clear(0x0e3a, n + 10)
  {
    ClearOneMore(0xf54a, 0x1b34, n);
    ClearOneMore(0x47e3, 0xf54a, n + 1);
    ClearOneMore(0x5159, 0x47e3, n + 2);
    ClearOneMore(0x7fe2, 0x5159, n + 3);
    ClearOneMore(0x9455, 0x7fe2, n + 4);
    ClearOneMore(0x4d7a, 0x9455, n + 5);
    ClearOneMore(0x8f66, 0x4d7a, n + 6);
    ClearOneMore(0x8047, 0x8f66, n + 7);
    ClearOneMore(0xa2ac, 0x8047, n + 8);
    ClearOneMore(0x0e3a, 0xa2ac, n + 9);
  }

  lemma LapsFrom30(n: nat)
    requires Clear(0xb072, n)
    ensures Clear(0x1b34, n + 10)
  {
    ClearOneMore(0x50a7, 0xb072, n);
    ClearOneMore(0xe903, 0x50a7, n + 1);
    ClearOneMore(0xf99e, 0xe903, n + 2);
    ClearOneMore(0x0842, 0xf99e, n + 3);
    ClearOneMore(0x9822, 0x0842, n + 4);
    ClearOneMore(0x381d, 0x9822, n + 5);
    ClearOneMore(0x24d0, 0x381d, n + 6);
    ClearOneMore(0x922d, 0x24d0, n + 7);
    ClearOneMore(0x7f90, 0x922d, n + 8);
    ClearOneMore(0x1b34, 0x7f90, n + 9);
  }

  lemma LapsFrom40(n: nat)
    requires Clear(0x02dd, n)
    ensures Clear(0xb072, n + 10)
  {
    ClearOneMore(0x767b, 0x02dd, n);
    ClearOneMore(0xb8f2, 0x767b, n + 1);
    ClearOneMore(0xe401, 0xb8f2, n + 2);
    ClearOneMore(0x6a67, 0xe401, n + 3);
    ClearOneMore(0xbba8, 0x6a67, n + 4);
    ClearOneMore(0xd341, 0xbba8, n + 5);
    ClearOneMore(0x93d3, 0xd341, n + 6);
    ClearOneMore(0xe971, 0x93d3, n + 7);
    ClearOneMore(0x76ff, 0xe971, n + 8);
    ClearOneMore(0xb072, 0x76ff, n + 9);
  }

  lemma LapsFrom50(n: nat)
    requires Clear(0x68af, n)
    ensures Clear(0x02dd, n + 10)
  {
    ClearOneMore(0x6496, 0x68af, n);
    ClearOneMore(0x757d, 0x6496, n + 1);
    ClearOneMore(0x7a0c, 0x757d, n + 2);
    ClearOneMore(0xcd95, 0x7a0c, n + 3);
    ClearOneMore(0x4fb7, 0xcd95, n + 4);
    ClearOneMore(0x780d, 0x4fb7, n + 5);
    ClearOneMore(0x6694, 0x780d, n + 6);
    ClearOneMore(0xc64f, 0x6694, n + 7);
    ClearOneMore(0xcc51, 0xc64f, n + 8);
    ClearOneMore(0x02dd, 0xcc51, n + 9);
  }

  lemma LapsFrom60(n: nat)
    requires Clear(0x82ba, n)
    ensures Clear(0x68af, n + 10)
  {
    ClearOneMore(0xdee6, 0x82ba, n);
    ClearOneMore(0x0a8a, 0xdee6, n + 1);
    ClearOneMore(0x471c, 0x0a8a, n + 2);
    ClearOneMore(0x9e21, 0x471c, n + 3);
    ClearOneMore(0xcd0f, 0x9e21, n + 4);
    ClearOneMore(0xb6c9, 0xcd0f, n + 5);
    ClearOneMore(0x46d8, 0xb6c9, n + 6);
    ClearOneMore(0xd34b, 0x46d8, n + 7);
    ClearOneMore(0xc379, 0xd34b, n + 8);
    ClearOneMore(0x68af, 0xc379, n + 9);
  }

  lemma LapsFrom70(n: nat)
    requires Clear(0xc9e9, n)
    ensures Clear(0x82ba, n + 10)
  {
    ClearOneMore(0xfe09, 0xc9e9, n);
    ClearOneMore(0x2548, 0xfe09, n + 1);
    ClearOneMore(0x2af9, 0x2548, n + 2);
    ClearOneMore(0xa1c6, 0x2af9, n + 3);
    ClearOneMore(0xb25b, 0xa1c6, n + 4);
    ClearOneMore(0xb11f, 0xb25b, n + 5);
    ClearOneMore(0x77a1, 0xb11f, n + 6);
    ClearOneMore(0x0466, 0x77a1, n + 7);
    ClearOneMore(0x6004, 0x0466, n + 8);
    ClearOneMore(0x82ba, 0x6004, n + 9);
  }

  lemma LapsFrom80(n: nat)
    requires Clear(0xa49a, n)
    ensures Clear(0xc9e9, n + 10)
  {
    ClearOneMore(0x585c, 0xa49a, n);
    ClearOneMore(0x9a5d, 0x585c, n + 1);
    ClearOneMore(0x7cb1, 0x9a5d, n + 2);
    ClearOneMore(0xeb8c, 0x7cb1, n + 3);
    ClearOneMore(0x0ab5, 0xeb8c, n + 4);
    ClearOneMore(0xb4c2, 0x0ab5, n + 5);
    ClearOneMore(0xbd73, 0xb4c2, n + 6);
    ClearOneMore(0xdb6d, 0xbd73, n + 7);
    ClearOneMore(0x654c, 0xdb6d, n + 8);
    ClearOneMore(0xc9e9, 0x654c, n + 9);
  }

  lemma LapsFrom90(n: nat)
    requires Clear(0x7115, n)
    ensures Clear(0xa49a, n + 10)
  {
    ClearOneMore(0x6ae6, 0x7115, n);
    ClearOneMore(0x9b7d, 0x6ae6, n + 1);
    ClearOneMore(0x2708, 0x9b7d, n + 2);
    ClearOneMore(0x9d8b, 0x2708, n + 3);
    ClearOneMore(0x4dc8, 0x9d8b, n + 4);
    ClearOneMore(0x3ca1, 0x4dc8, n + 5);
    ClearOneMore(0xa9c8, 0x3ca1, n + 6);
    ClearOneMore(0x5ed7, 0xa9c8, n + 7);
    ClearOneMore(0x0703, 0x5ed7, n + 8);
    ClearOneMore(0xa49a, 0x0703, n + 9);
  }

  lemma LapsFrom100(n: nat)
    requires Clear(0xc8e7, n)
    ensures Clear(0x7115, n + 10)
  {
    ClearOneMore(0xdf6f, 0xc8e7, n);
    ClearOneMore(0x3b5f, 0xdf6f, n + 1);
    ClearOneMore(0xd208, 0x3b5f, n + 2);
    ClearOneMore(0x9ea0, 0xd208, n + 3);
    ClearOneMore(0xedda, 0x9ea0, n + 4);
    ClearOneMore(0x4280, 0xedda, n + 5);
    ClearOneMore(0x4880, 0x4280, n + 6);
    ClearOneMore(0x77f2, 0x4880, n + 7);
    ClearOneMore(0x8927, 0x77f2, n + 8);
    ClearOneMore(0x7115, 0x8927, n + 9);
  }

  lemma LapsFrom110(n: nat)
    requires Clear(0x2ed3, n)
    ensures Clear(0xc8e7, n + 10)
  {
    ClearOneMore(0xb56c, 0x2ed3, n);
    ClearOneMore(0xbee0, 0xb56c, n + 1);
    ClearOneMore(0x9812, 0xbee0, n + 2);
    ClearOneMore(0xb33c, 0x9812, n + 3);
    ClearOneMore(0xc6b3, 0xb33c, n + 4);
    ClearOneMore(0x1b1a, 0xc6b3, n + 5);
    ClearOneMore(0x8f95, 0x1b1a, n + 6);
    ClearOneMore(0x2ff3, 0x8f95, n + 7);
    ClearOneMore(0xeed5, 0x2ff3, n + 8);
    ClearOneMore(0xc8e7, 0xeed5, n + 9);
  }

  lemma LapsFrom120(n: nat)
    requires Clear(0x6eb7, n)
    ensures Clear(0x2ed3, n + 10)
  {
    ClearOneMore(0x482f, 0x6eb7, n);
    ClearOneMore(0x2df8, 0x482f, n + 1);
    ClearOneMore(0x157e, 0x2df8, n + 2);
    ClearOneMore(0xc0c1, 0x157e, n + 3);
    ClearOneMore(0x795a, 0xc0c1, n + 4);
    ClearOneMore(0x9a19, 0x795a, n + 5);
    ClearOneMore(0x4897, 0x9a19, n + 6);
    ClearOneMore(0xce95, 0x4897, n + 7);
    ClearOneMore(0xbd2f, 0xce95, n + 8);
    ClearOneMore(0x2ed3, 0xbd2f, n + 9);
  }

  lemma ClearOneMore(x: bv16, y: bv16, n: nat)
    requires Lap(x) == y && !Single(y) && Clear(y, n)
    ensures Clear(x, n + 1)
  {
    hide Lap, Single;
  }

  lemma ClearFromOne()
    ensures Clear(1, 130)
  {
    hide Lap, Single;
    assert Clear(0x6eb7, 0);
    LapsFrom120(0);
    LapsFrom110(10);
    LapsFrom100(20);
    LapsFrom90(30);
    LapsFrom80(40);
    LapsFrom70(50);
    LapsFrom60(60);
    LapsFrom50(70);
    LapsFrom40(80);
    LapsFrom30(90);
    LapsFrom20(100);
    LapsFrom10(110);
    LapsFrom0(120);
  }

  lemma {:induction false} ShiftSum(x: bv16, a: nat, b: nat)
    ensures Shift(Shift(x, a), b) == Shift(x, a + b)
    decreases a
  {
    hide Bit;
    if a != 0 {
      ShiftSum(Bit(x), a - 1, b);
    }
  }

  lemma ShiftLap(x: bv16)
    ensures Shift(x, 16) == Lap(x)
  {
    hide ByteShift, Shift;
    ByteShiftIsShift(x);
    ByteShiftIsShift(ByteShift(x));
    ShiftSum(x, 8, 8);
  }

  lemma {:induction false} ClearAt(x: bv16, n: nat, q: nat)
    requires Clear(x, n) && 1 <= q <= n
    ensures !Single(Shift(x, 16 * q))
    decreases q
  {
    hide Lap, Single, Shift;
    ShiftLap(x);
    if q > 1 {
      ClearAt(Lap(x), n - 1, q - 1);
      ShiftSum(x, 16, 16 * (q - 1));
    }
  }

  lemma DoubleUndone(x: bv16)
    requires x < 0x8000
    ensures Bit(Double(x)) == x
    ensures Single(x) ==> Single(Double(x))
    ensures x != 0 ==> Double(x) != 0 && Double(x) != 1
  {
  }

  /** The word with the single bit `r` takes `r` shifts to become one. */
  lemma {:induction false} RaisedOne(r: nat)
    requires r <= 15
    ensures Shift(Raise(1, r), r) == 1
    ensures Single(Raise(1, r)) && Fits(Raise(1, r), r + 1) && Raise(1, r) != 0
    ensures r > 0 ==> Raise(1, r) != 1
    decreases r
  {
    hide Bit, Double, Single, Fits;
    SingleOne();
    if r != 0 {
      RaisedOne(r - 1);
      DoubleFits(Raise(1, r - 1), r);
      DoubleUndone(Raise(1, r - 1));
    }
  }

  lemma SingleOne()
    ensures Single(1) && Fits(1, 1)
  {
  }

  /** Within 2079 shifts the single bit never returns to its place. */
  lemma NeverBack(d: nat)
    requires 1 <= d <= 2079
    ensures Shift(1, d) != 1
  {
    hide Shift, Raise, Single, Clear, Fits;
    var q, r := d / 16, d % 16;
    if Shift(1, d) == 1 {
      RaisedOne(r);
      ShiftSum(1, 16 * q, r);
      ShiftInjective(Shift(1, 16 * q), Raise(1, r), r);
      if q == 0 {
        ShiftNone(1);
      } else {
        ClearFromOne();
        ClearAt(1, 130, q);
      }
    }
  }

  lemma ShiftNone(x: bv16)
    ensures Shift(x, 0) == x
  {
  }

  /** Nor does it become any other single bit, early enough. */
  lemma NeverSingle(k: nat, s: nat)
    requires 1 <= k && s <= 15 && k + s <= 2079
    ensures Shift(1, k) != Raise(1, s)
  {
    hide Shift, Raise, Single, Fits;
    if Shift(1, k) == Raise(1, s) {
      RaisedOne(s);
      ShiftSum(1, k, s);
      NeverBack(k + s);
    }
  }

  // ----- One and two flipped bits -----

  lemma StepOfZero(x: bv16)
    ensures BitStep(x, false) == Bit(x)
    ensures BitStep(x, true) == Bit(Xor(x, 1))
    ensures Xor(x, x) == 0
  {
    hide Bit, Xor;
    XorZero(x);
    XorSelf(x);
    assert Unit(true) == 1 && Unit(false) == 0;
  }

  lemma XorSelf(x: bv16)
    ensures Xor(x, x) == 0
  {
  }

  /** Under the same data, a difference of states is shifted along. */
  lemma {:induction false} SameData(f: bv16, g: bv16, bits: seq<bool>)
    ensures Xor(FcsBits(f, bits), FcsBits(g, bits)) == Shift(Xor(f, g), |bits|)
    decreases |bits|
  {
    hide BitStep, Bit, Xor;
    if bits != [] {
      SameData(BitStep(f, bits[0]), BitStep(g, bits[0]), bits[1..]);
      BitStepXor(f, g, bits[0], bits[0]);
      StepOfZero(Xor(f, g));
    }
  }

  lemma DifferentBits(f: bv16, c: bool, d: bool)
    requires c != d
    ensures Xor(BitStep(f, c), BitStep(f, d)) == Bit(1)
  {
    hide BitStep, Bit, Xor;
    BitStepXor(f, f, c, d);
    StepOfZero(f);
    StepOfZero(0);
    XorZero(1);
  }

  lemma {:induction false} FlipsNone(a: seq<bool>, b: seq<bool>)
    requires |a| == |b|
    ensures Flips(a, b) == 0 <==> a == b
    decreases |a|
  {
    if a != [] {
      FlipsNone(a[1..], b[1..]);
      assert a == [a[0]] + a[1..] && b == [b[0]] + b[1..];
    }
  }

  /** A single flipped bit, `k` from the end, shows as a single bit shifted `k` places. */
  lemma {:induction false} FlipOne(f: bv16, a: seq<bool>, b: seq<bool>) returns (k: nat)
    requires |a| == |b| && Flips(a, b) == 1
    ensures 1 <= k <= |a|
    ensures Xor(FcsBits(f, a), FcsBits(f, b)) == Shift(1, k)
    decreases |a|
  {
    hide BitStep, Bit, Xor;
    if a[0] == b[0] {
      k := FlipOne(BitStep(f, a[0]), a[1..], b[1..]);
    } else {
      k := |a|;
      FlipsNone(a[1..], b[1..]);
      DifferentBits(f, a[0], b[0]);
      SameData(BitStep(f, a[0]), BitStep(f, b[0]), a[1..]);
    }
  }

  lemma XorChain(x: bv16, y: bv16, z: bv16)
    ensures Xor(x, z) == Xor(Xor(x, y), Xor(y, z))
  {
    hide Xor;
    XorAssoc(x, y, Xor(y, z));
    XorAssoc(y, y, z);
    XorSelf(y);
    XorZero(z);
  }

  lemma XorEqual(x: bv16, y: bv16)
    requires Xor(x, y) == 0
    ensures x == y
  {
  }

  /** Two flipped bits show as two single bits shifted by their distances from the end. */
  lemma {:induction false} FlipTwo(f: bv16, a: seq<bool>, b: seq<bool>) returns (j: nat, k: nat)
    requires |a| == |b| && Flips(a, b) == 2
    ensures 1 <= j < k <= |a|
    ensures Xor(FcsBits(f, a), FcsBits(f, b)) == Xor(Shift(1, j), Shift(1, k))
    decreases |a|
  {
    hide BitStep, Bit, Xor;
    if a[0] == b[0] {
      j, k := FlipTwo(BitStep(f, a[0]), a[1..], b[1..]);
    } else {
      var f1, g1 := BitStep(f, a[0]), BitStep(f, b[0]);
      j := FlipOne(f1, a[1..], b[1..]);
      k := |a|;
      DifferentBits(f, a[0], b[0]);
      SameData(f1, g1, b[1..]);
      XorChain(FcsBits(f1, a[1..]), FcsBits(f1, b[1..]), FcsBits(g1, b[1..]));
    }
  }

  /** Every two flipped bits are detected, wherever they fall in up to 2080 bits. */
  lemma TwoErrorsDetected(f: bv16, a: seq<bool>, b: seq<bool>)
    requires |a| == |b| <= 2080 && Flips(a, b) == 2
    ensures FcsBits(f, a) != FcsBits(f, b)
  {
    hide FcsBits, Shift, Xor, Flips;
    if FcsBits(f, a) == FcsBits(f, b) {
      var j, k := FlipTwo(f, a, b);
      XorSelf(FcsBits(f, a));
      XorEqual(Shift(1, j), Shift(1, k));
      ShiftSum(1, k - j, j);
      ShiftInjective(Shift(1, k - j), 1, j);
      NeverBack(k - j);
    }
  }

  // ----- Flipped bits in the check sequence itself -----

  lemma XorByHalves(u: bv16, v: bv16)
    ensures (u & 1 == 1) == (v & 1 == 1) ==> Xor(u, v) == Double(Xor(Half(u), Half(v)))
    ensures (u & 1 == 1) != (v & 1 == 1) && Half(u) == Half(v) ==> Xor(u, v) == 1
  {
  }

  lemma FlipsOfNone(u: bv16, v: bv16)
    ensures Flips(WordBits(u, 0), WordBits(v, 0)) == 0
  {
  }

  lemma FlipsByHalves(u: bv16, v: bv16, n: nat)
    requires n >= 1
    ensures Flips(WordBits(u, n), WordBits(v, n))
         == (if (u & 1 == 1) != (v & 1 == 1) then 1 else 0) + Flips(WordBits(Half(u), n - 1), WordBits(Half(v), n - 1))
  {
    hide Half;
    assert WordBits(u, n)[1..] == WordBits(Half(u), n - 1);
    assert WordBits(v, n)[1..] == WordBits(Half(v), n - 1);
  }

  /** Words that differ in one of their `n` low bits differ by a single bit. */
  lemma {:induction false} WordFlip(u: bv16, v: bv16, n: nat) returns (s: nat)
    requires n <= 16 && Fits(u, n) && Fits(v, n)
    requires Flips(WordBits(u, n), WordBits(v, n)) == 1
    ensures s < n && Xor(u, v) == Raise(1, s)
    decreases n
  {
    hide Half, Fits, Xor, Double, WordBits, Flips;
    if n == 0 {
      FlipsOfNone(u, v);
    }
    FlipsByHalves(u, v, n);
    XorByHalves(u, v);
    HalfFits(u, n);
    HalfFits(v, n);
    if (u & 1 == 1) == (v & 1 == 1) {
      var s' := WordFlip(Half(u), Half(v), n - 1);
      s := s' + 1;
    } else {
      FlipsNone(WordBits(Half(u), n - 1), WordBits(Half(v), n - 1));
      WordOfBits(Half(u), n - 1);
      WordOfBits(Half(v), n - 1);
      s := 0;
    }
  }

  lemma {:induction false} FlipsConcat(a: seq<bool>, b: seq<bool>, c: seq<bool>, d: seq<bool>)
    requires |a| == |b| && |c| == |d|
    ensures Flips(a + c, b + d) == Flips(a, b) + Flips(c, d)
    decreases |a|
  {
    if a == [] {
      assert a + c == c && b + d == d;
    } else {
      FlipsConcat(a[1..], b[1..], c, d);
      assert (a + c)[0] == a[0] && (a + c)[1..] == a[1..] + c;
      assert (b + d)[0] == b[0] && (b + d)[1..] == b[1..] + d;
    }
  }

  lemma XorByOctets(f: bv16, g: bv16)
    ensures HighByte(f) == HighByte(g) ==> Xor(f, g) == Xor(LowByte(f), LowByte(g))
    ensures LowByte(f) == LowByte(g) ==> Xor(f, g) == Xor(HighByte(f), HighByte(g)) << 8
    ensures Fits(HighByte(f), 8) && Fits(LowByte(f), 8)
  {
  }

  lemma {:induction false} RaiseSum(x: bv16, a: nat, b: nat)
    ensures Raise(Raise(x, a), b) == Raise(x, a + b)
    decreases b
  {
    hide Double;
    if b != 0 {
      RaiseSum(x, a, b - 1);
    }
  }

  function OctetsOf(f: bv16): (r: seq<Byte>)
    ensures |r| == 2
  {
    [HighOctet(f), LowOctet(f)]
  }

  lemma BitsOfOctets(f: bv16)
    ensures Bits(OctetsOf(f)) == WordBits(HighByte(f), 8) + WordBits(LowByte(f), 8)
  {
    hide WordBits, OctetWord, HighByte, LowByte;
    var h, l := HighOctet(f), LowOctet(f);
    assert OctetsOf(f)[1..] == [l];
    assert [l][1..] == [];
    assert ByteBits(l) + Bits([]) == ByteBits(l);
  }

  /** Two check sequences whose octets differ in one bit differ by a single bit. */
  lemma OctetsFlip(f: bv16, g: bv16) returns (s: nat)
    requires Flips(Bits(OctetsOf(f)), Bits(OctetsOf(g))) == 1
    ensures s <= 15 && Xor(f, g) == Raise(1, s)
  {
    hide WordBits, OctetWord, HighByte, LowByte, Xor, Fits, Flips, Bits, OctetsOf, Raise;
    BitsOfOctets(f);
    BitsOfOctets(g);
    var hf, hg, lf, lg := HighByte(f), HighByte(g), LowByte(f), LowByte(g);
    FlipsConcat(WordBits(hf, 8), WordBits(hg, 8), WordBits(lf, 8), WordBits(lg, 8));
    FlipsNone(WordBits(hf, 8), WordBits(hg, 8));
    FlipsNone(WordBits(lf, 8), WordBits(lg, 8));
    XorByOctets(f, g);
    XorByOctets(g, f);
    if Flips(WordBits(hf, 8), WordBits(hg, 8)) == 0 {
      WordOfBits(hf, 8);
      WordOfBits(hg, 8);
      s := WordFlip(lf, lg, 8);
    } else {
      WordOfBits(lf, 8);
      WordOfBits(lg, 8);
      var s' := WordFlip(hf, hg, 8);
      s := s' + 8;
      RaiseOctet(Xor(hf, hg));
      RaiseSum(1, s', 8);
    }
  }

  // ----- Frames -----

  /** What a frame in progress holds between its flags, when its two last octets are the check
      sequence of the rest. */
  function Sealed(s: seq<Byte>): seq<Byte> {
    s + OctetsOf(Fcs(INITFCS, s))
  }

  /** Two sealed buffers of one size, of up to 257 covered octets, are equal or differ in at least four
      bits. */
  lemma SealedDistance(s: seq<Byte>, t: seq<Byte>)
    requires |s| == |t| <= 257 && s != t
    ensures Flips(Bits(Sealed(s)), Bits(Sealed(t))) >= 4
  {
    hide Flips, Bits, Fcs, FcsBits, OctetsOf, Xor, Shift, Raise, OddOnes;
    var f, g := Fcs(INITFCS, s), Fcs(INITFCS, t);
    BitsConcat(s, OctetsOf(f));
    BitsConcat(t, OctetsOf(g));
    FlipsConcat(Bits(s), Bits(t), Bits(OctetsOf(f)), Bits(OctetsOf(g)));
    FlipsNone(Bits(s), Bits(t));
    if Bits(s) == Bits(t) {
      BitsInjective(s, t);
    }
    SealedIsEven(s);
    SealedIsEven(t);
    SealedAsWritten(s);
    SealedAsWritten(t);
    FlipsParity(Bits(Sealed(s)), Bits(Sealed(t)));
    if Flips(Bits(Sealed(s)), Bits(Sealed(t))) == 2 {
      TableRefinesBits(INITFCS, s);
      TableRefinesBits(INITFCS, t);
      if Flips(Bits(s), Bits(t)) == 2 {
        TwoErrorsDetected(INITFCS, Bits(s), Bits(t));
        FlipsNone(Bits(OctetsOf(f)), Bits(OctetsOf(g)));
        BitsInjective(OctetsOf(f), OctetsOf(g));
        OctetsInjective(f, g);
      } else {
        var k := FlipOne(INITFCS, Bits(s), Bits(t));
        var r := OctetsFlip(f, g);
        NeverSingle(k, r);
      }
    }
  }

  lemma SealedAsWritten(s: seq<Byte>)
    ensures Sealed(s) == s + [HighOctet(Fcs(INITFCS, s)), LowOctet(Fcs(INITFCS, s))]
  {
    hide Fcs;
  }

  lemma OctetsInjective(f: bv16, g: bv16)
    requires OctetsOf(f) == OctetsOf(g)
    ensures f == g
  {
    hide HighOctet, LowOctet, JoinOctets;
    assert OctetsOf(f)[0] == OctetsOf(g)[0] && OctetsOf(f)[1] == OctetsOf(g)[1];
    JoinSplit(f, HighOctet(f), LowOctet(f));
    JoinSplit(g, HighOctet(f), LowOctet(f));
  }

  lemma ValidIsSealed(x: seq<Byte>)
    requires Validates(x)
    ensures |x| >= 11 && x[1..|x| - 1] == Sealed(x[1..|x| - 3])
  {
    hide Fcs, JoinOctets, HighOctet, LowOctet;
    var s := x[1..|x| - 3];
    JoinSplit(Fcs(INITFCS, s), x[|x| - 3], x[|x| - 2]);
    assert x[1..|x| - 1] == s + [x[|x| - 3], x[|x| - 2]];
  }

  /** Two buffers of one size that both validate, and differ between the flags, differ there in at
      least four bits: up to three flipped bits in a frame, the check sequence included, are always
      found. */
  lemma ValidDistance(x: seq<Byte>, y: seq<Byte>)
    requires |x| == |y| <= 261 && Validates(x) && Validates(y)
    requires |x| >= 2 && x[1..|x| - 1] != y[1..|y| - 1]
    ensures Flips(Bits(x[1..|x| - 1]), Bits(y[1..|y| - 1])) >= 4
  {
    hide Validates, Flips, Bits, Sealed;
    ValidIsSealed(x);
    ValidIsSealed(y);
    SealedDistance(x[1..|x| - 3], y[1..|y| - 3]);
  }

  // ----- Four bits can be missed -----

  /** The generator polynomial as a string of bits, highest power first. */
  const GENERATOR: seq<bool> := [true] + WordBits(0x8408, 16)

  function Ones(a: seq<bool>): nat
    decreases |a|
  {
    if a == [] then 0 else (if a[0] then 1 else 0) + Ones(a[1..])
  }

  lemma {:induction false} FlipsOfXor(a: seq<bool>, b: seq<bool>)
    requires |a| == |b|
    ensures Flips(a, XorBits(a, b)) == Ones(b)
    decreases |a|
  {
    if a != [] {
      FlipsOfXor(a[1..], b[1..]);
      assert XorBits(a, b)[1..] == XorBits(a[1..], b[1..]);
    }
  }

  lemma BitsOfPolynomial()
    ensures Ones(WordBits(0x8408, 16)) == 3
  {
    OnesStep(0x8408, 15);
    OnesStep(0x4204, 14);
    OnesStep(0x2102, 13);
    OnesStep(0x1081, 12);
    OnesStep(0x0840, 11);
    OnesStep(0x0420, 10);
    OnesStep(0x0210, 9);
    OnesStep(0x0108, 8);
    OnesStep(0x0084, 7);
    OnesStep(0x0042, 6);
    OnesStep(0x0021, 5);
    OnesStep(0x0010, 4);
    OnesStep(0x0008, 3);
    OnesStep(0x0004, 2);
    OnesStep(0x0002, 1);
    OnesStep(0x0001, 0);
  }

  lemma OnesStep(w: bv16, n: nat)
    ensures Ones(WordBits(w, n + 1)) == (if w & 1 == 1 then 1 else 0) + Ones(WordBits(Half(w), n))
    ensures Ones(WordBits(w, 0)) == 0
  {
    hide Half;
    assert WordBits(w, n + 1)[1..] == WordBits(Half(w), n);
  }

  lemma PolynomialFits()
    ensures Fits(0x8408, 16) && Bit(Xor(0, Unit(true))) == 0x8408
  {
  }

  lemma {:induction false} ShiftOfNothing(n: nat)
    ensures Shift(0, n) == 0
    decreases n
  {
    hide Bit;
    if n != 0 {
      BitOfNothing();
      ShiftOfNothing(n - 1);
    }
  }

  lemma BitOfNothing()
    ensures Bit(0) == 0
  {
  }

  lemma GeneratorVanishes()
    ensures FcsBits(0, GENERATOR) == 0 && Ones(GENERATOR) == 4
  {
    hide Bit, Xor, Shift, WordBits, Word, Fits;
    var low := WordBits(0x8408, 16);
    assert GENERATOR[0] && GENERATOR[1..] == low;
    BitsOfPolynomial();
    PolynomialFits();
    WordOfBits(0x8408, 16);
    FcsBitsIsShift(0x8408, low);
    XorSelf(0x8408);
    ShiftOfNothing(16);
  }

  /** The distance is no greater: the four bits of the generator, flipped anywhere, are missed. */
  lemma FourErrorsMissed(f: bv16, pre: seq<bool>, a: seq<bool>, post: seq<bool>)
    requires |a| == |GENERATOR|
    ensures Flips(a, XorBits(a, GENERATOR)) == 4
    ensures FcsBits(f, pre + a + post) == FcsBits(f, pre + XorBits(a, GENERATOR) + post)
  {
    hide FcsBits, Flips, Xor, Ones;
    var b := XorBits(a, GENERATOR);
    var g := FcsBits(f, pre);
    GeneratorVanishes();
    FlipsOfXor(a, GENERATOR);
    FcsLinear(g, 0, a, GENERATOR);
    XorZero(g);
    XorZero(FcsBits(g, a));
    FcsBitsConcat(f, pre + a, post);
    FcsBitsConcat(f, pre + b, post);
    FcsBitsConcat(f, pre, a);
    FcsBitsConcat(f, pre, b);
  }
}
