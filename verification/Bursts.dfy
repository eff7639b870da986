/** What the check sequence misses: four flipped bits, and bursts that run from the payload into the
    check sequence, whose high octet is sent first. */
module Bursts {
  import opened Bytes
  import opened CrcRegister
  import opened FrameCheck
  import opened Receiver
  import opened Distance

  // ----- Strings of up to sixteen bits as words -----

  /** The `n` low bits are clear. */
  predicate LowClear(x: bv16, n: nat)
    requires n <= 16
  {
    match n
    case 0 => true
    case 1 => x & 0x1 == 0
    case 2 => x & 0x3 == 0
    case 3 => x & 0x7 == 0
    case 4 => x & 0xf == 0
    case 5 => x & 0x1f == 0
    case 6 => x & 0x3f == 0
    case 7 => x & 0x7f == 0
    case 8 => x & 0xff == 0
    case 9 => x & 0x1ff == 0
    case 10 => x & 0x3ff == 0
    case 11 => x & 0x7ff == 0
    case 12 => x & 0xfff == 0
    case 13 => x & 0x1fff == 0
    case 14 => x & 0x3fff == 0
    case 15 => x & 0x7fff == 0
    case 16 => x == 0
  }

  lemma PackParts(d: bool, x: bv16)
    ensures Pack(d, x) == Xor(Unit(d), Double(x))
  {
    if d {
      assert (x << 1) | 1 == 1 ^ (x << 1);
    } else {
      assert (x << 1) | 0 == 0 ^ (x << 1);
    }
  }

  lemma DoubleXor(x: bv16, y: bv16)
    ensures Double(Xor(x, y)) == Xor(Double(x), Double(y))
  {
  }

  lemma XorBelow(x: bv16, y: bv16)
    requires x < 0x8000 && y < 0x8000
    ensures Xor(x, y) < 0x8000
  {
  }

  lemma PackPack(c: bool, d: bool, x: bv16, y: bv16)
    ensures Xor(Pack(c, x), Pack(d, y)) == Pack(c != d, Xor(x, y))
  {
    hide Pack, Xor, Unit, Double;
    PackParts(c, x);
    PackParts(d, y);
    PackParts(c != d, Xor(x, y));
    DoubleXor(x, y);
    UnitXor(c, d);
    XorSwap(Unit(c), Double(x), Unit(d), Double(y));
  }

  lemma ClearPack(d: bool, z: bv16, n: nat)
    requires 1 <= n <= 16 && z < 0x8000
    ensures LowClear(Pack(d, z), n) <==> !d && LowClear(z, n - 1)
    ensures Fits(Pack(d, z), n) <==> Fits(z, n - 1)
  {
    hide Pack;
    if d {
      ClearOdd(z, n);
    } else {
      ClearEven(z, n);
    }
  }

  lemma ClearOdd(z: bv16, n: nat)
    requires 1 <= n <= 16 && z < 0x8000
    ensures !LowClear(Pack(true, z), n) && (Fits(Pack(true, z), n) <==> Fits(z, n - 1))
  {
    hide Pack, LowClear, Fits;
    OddNotClear(z, n);
    OddWidth(z, n);
  }

  lemma OddNotClear(z: bv16, n: nat)
    requires 1 <= n <= 16
    ensures !LowClear(Pack(true, z), n)
  {
  }

  lemma OddWidth(z: bv16, n: nat)
    requires 1 <= n <= 16 && z < 0x8000
    ensures Fits(Pack(true, z), n) <==> Fits(z, n - 1)
  {
  }

  lemma ClearEven(z: bv16, n: nat)
    requires 1 <= n <= 16 && z < 0x8000
    ensures LowClear(Pack(false, z), n) <==> LowClear(z, n - 1)
    ensures Fits(Pack(false, z), n) <==> Fits(z, n - 1)
  {
    hide Pack, Double, LowClear, Fits;
    PackParts(false, z);
    XorZero(Double(z));
    DoubleClear(z, n);
    DoubleWidth(z, n);
  }

  lemma DoubleClear(z: bv16, n: nat)
    requires 1 <= n <= 16 && z < 0x8000
    ensures LowClear(Double(z), n) <==> LowClear(z, n - 1)
  {
  }

  lemma DoubleWidth(z: bv16, n: nat)
    requires 1 <= n <= 16 && z < 0x8000
    ensures Fits(Double(z), n) <==> Fits(z, n - 1)
  {
  }

  lemma ClearCons(c: bool, d: bool, x: bv16, y: bv16, n: nat)
    requires 1 <= n <= 16 && x < 0x8000 && y < 0x8000
    ensures LowClear(Xor(Pack(c, x), Pack(d, y)), n) <==> c == d && LowClear(Xor(x, y), n - 1)
    ensures Fits(Xor(Pack(c, x), Pack(d, y)), n) <==> Fits(Xor(x, y), n - 1)
  {
    hide Pack, Xor, LowClear, Fits;
    PackPack(c, d, x, y);
    XorBelow(x, y);
    ClearPack(c != d, Xor(x, y), n);
  }

  lemma WordBound(bits: seq<bool>)
    requires |bits| <= 15
    ensures Word(bits) < 0x8000
  {
    hide Word;
    WordFits(bits);
    FitsBelow(Word(bits), |bits|);
  }

  lemma FitsBelow(x: bv16, n: nat)
    requires n <= 15 && Fits(x, n)
    ensures x < 0x8000
  {
  }

  lemma XorNone(x: bv16, y: bv16)
    ensures Fits(Xor(x, y), 0) <==> x == y
    ensures LowClear(Xor(x, y), 0)
  {
    hide Xor;
    XorSelf(x);
    if Xor(x, y) == 0 {
      XorEqual(x, y);
    }
  }

  /** Two strings of bits begin alike when the low bits of their words agree, and end alike when the
      high ones do. */
  lemma {:induction false} AgreeAsWords(u: seq<bool>, v: seq<bool>, i: nat)
    requires |u| == |v| <= 16 && i <= |u|
    ensures u[..i] == v[..i] <==> LowClear(Xor(Word(u), Word(v)), i)
    ensures u[i..] == v[i..] <==> Fits(Xor(Word(u), Word(v)), i)
    decreases i
  {
    hide LowClear, Fits, Xor, Pack;
    if i == 0 {
      XorNone(Word(u), Word(v));
      assert u[0..] == u && v[0..] == v;
      if Word(u) == Word(v) {
        WordInjective(u, v);
      }
    } else {
      AgreeAsWords(u[1..], v[1..], i - 1);
      WordBound(u[1..]);
      WordBound(v[1..]);
      ClearCons(u[0], v[0], Word(u[1..]), Word(v[1..]), i);
      SplitOff(u, v, i);
    }
  }

  lemma SplitOff(u: seq<bool>, v: seq<bool>, i: nat)
    requires |u| == |v| && 1 <= i <= |u|
    ensures u[..i] == v[..i] <==> u[0] == v[0] && u[1..][..i - 1] == v[1..][..i - 1]
    ensures u[i..] == u[1..][i - 1..] && v[i..] == v[1..][i - 1..]
  {
    assert u[..i] == [u[0]] + u[1..][..i - 1] && v[..i] == [v[0]] + v[1..][..i - 1];
    if u[..i] == v[..i] {
      assert u[..i][0] == u[0] && v[..i][0] == v[0];
      assert u[..i][1..] == u[1..][..i - 1] && v[..i][1..] == v[1..][..i - 1];
    }
  }

  lemma PackXor(d: bool, x: bv16, y: bv16)
    ensures Pack(d, Xor(x, y)) == Xor(Pack(d, x), Double(y))
  {
    hide Pack, Xor, Unit, Double;
    PackParts(d, x);
    PackParts(d, Xor(x, y));
    DoubleXor(x, y);
    XorAssoc(Unit(d), Double(x), Double(y));
  }

  lemma {:induction false} WordConcat(a: seq<bool>, b: seq<bool>)
    ensures Word(a + b) == Xor(Word(a), Raise(Word(b), |a|))
    decreases |a|
  {
    hide Pack, Xor, Double;
    if a == [] {
      assert a + b == b;
      XorZero(Word(b));
    } else {
      WordConcat(a[1..], b);
      assert (a + b)[0] == a[0] && (a + b)[1..] == a[1..] + b;
      PackXor(a[0], Word(a[1..]), Raise(Word(b), |a| - 1));
    }
  }

  lemma JoinAsXor(h: bv16, l: bv16)
    requires h < 256 && l < 256
    ensures JoinBytes(h, l) == Xor(l, h << 8)
  {
  }

  /** Two octets as sent are the word with the first octet low. */
  lemma WordOfTwo(c: Byte, d: Byte)
    ensures Word(Bits([c, d])) == JoinOctets(d, c)
  {
    hide Word, WordBits, OctetWord, JoinBytes, Raise, Fits;
    assert [c, d][1..] == [d] && [d][1..] == [];
    assert Bits([d]) == ByteBits(d) by {
      assert Bits([]) == [];
    }
    WordConcat(ByteBits(c), ByteBits(d));
    OctetFits(c);
    OctetFits(d);
    WordOfBits(OctetWord(c), 8);
    WordOfBits(OctetWord(d), 8);
    RaiseOctet(OctetWord(d));
    JoinAsXor(OctetWord(d), OctetWord(c));
  }

  lemma OctetFits(b: Byte)
    ensures Fits(OctetWord(b), 8) && OctetWord(b) < 256
  {
    hide OctetWord;
    OctetIsSmall(b);
  }

  // ----- How a difference in the last sixteen covered bits shows in the check sequence -----

  /** The check sequence as a word in the order in which it is sent, high octet first. */
  function Swap(f: bv16): bv16 {
    JoinBytes(LowByte(f), HighByte(f))
  }

  lemma SwapXor(f: bv16, g: bv16)
    ensures Swap(Xor(f, g)) == Xor(Swap(f), Swap(g))
    ensures Swap(f) == Swap(g) ==> f == g
  {
  }

  lemma WordOfCheck(f: bv16)
    ensures Word(Bits(OctetsOf(f))) == Swap(f)
  {
    hide Word, Bits, JoinBytes, OctetWord, HighOctet, LowOctet;
    WordOfTwo(HighOctet(f), LowOctet(f));
  }

  lemma XorOfBoth(g: bv16, a: bv16, b: bv16)
    ensures Xor(Xor(g, a), Xor(g, b)) == Xor(a, b)
  {
    hide Xor;
    XorSwap(g, a, g, b);
    XorSelf(g);
    XorZero(Xor(a, b));
  }

  lemma TailShows(g: bv16, u: seq<bool>, v: seq<bool>)
    requires |u| == |v| == 16
    ensures Xor(FcsBits(g, u), FcsBits(g, v)) == Lap(Xor(Word(u), Word(v)))
  {
    hide FcsBits, Word, Xor, Lap, Shift;
    FcsBitsIsShift(g, u);
    FcsBitsIsShift(g, v);
    ShiftXor(Xor(g, Word(u)), Xor(g, Word(v)), 16);
    XorOfBoth(g, Word(u), Word(v));
    ShiftLap(Xor(Word(u), Word(v)));
  }

  /** The last two covered octets as a word, the last one high. */
  function LastWord(s: seq<Byte>): bv16
    requires |s| >= 2
  {
    JoinOctets(s[|s| - 1], s[|s| - 2])
  }

  /** The parts of a sealed buffer's bits: all but the last two covered octets, those two, the check
      sequence. */
  lemma SealedInParts(s: seq<Byte>)
    requires |s| >= 2
    ensures var h, u, c := Bits(s[..|s| - 2]), Bits(s[|s| - 2..]), Bits(OctetsOf(Fcs(INITFCS, s)));
            && Bits(s) == h + u && Bits(Sealed(s)) == h + u + c
            && |u| == |c| == 16 && Word(u) == LastWord(s)
            && Fcs(INITFCS, s) == FcsBits(FcsBits(INITFCS, h), u)
            && Word(c) == Swap(Fcs(INITFCS, s))
  {
    hide Bits, Word, Fcs, FcsBits, OctetsOf, JoinOctets, Swap;
    var head, tail := s[..|s| - 2], s[|s| - 2..];
    assert s == head + tail;
    BitsConcat(head, tail);
    BitsConcat(s, OctetsOf(Fcs(INITFCS, s)));
    assert tail == [s[|s| - 2], s[|s| - 1]];
    WordOfTwo(s[|s| - 2], s[|s| - 1]);
    TableRefinesBits(INITFCS, s);
    FcsBitsConcat(INITFCS, Bits(head), Bits(tail));
    WordOfCheck(Fcs(INITFCS, s));
  }

  // ----- Bursts -----

  /** Two strings of bits agree but for sixteen consecutive bits. */
  ghost predicate InWindow(x: seq<bool>, y: seq<bool>) {
    |x| == |y| && exists i :: AgreeOutside(x, y, i)
  }

  predicate AgreeOutside(x: seq<bool>, y: seq<bool>, i: int)
    requires |x| == |y|
  {
    0 <= i && i + 16 <= |x| && x[..i] == y[..i] && x[i + 16..] == y[i + 16..]
  }

  /** The differences in the last two covered octets that reach no more than a window's length into the
      check sequence: any in the top three bits of the last octet, and five others. */
  predicate Missed(d: bv16) {
    d != 0 && (d & 0x1fff == 0 || d in {0x9100, 0xac40, 0xa310, 0x5188, 0xf298})
  }

  /** Where the window starts in them. */
  function WindowOf(d: bv16): (i: nat)
    ensures 1 <= i <= 16
  {
    if d & 0x1fff == 0 then 13 else if d == 0x9100 then 8 else if d == 0xac40 then 6 else if d == 0xa310 then 4 else 3
  }

  lemma MissedHasWindow(d: bv16)
    requires Missed(d)
    ensures LowClear(d, WindowOf(d)) && Fits(Swap(Lap(d)), WindowOf(d))
  {
  }

  lemma WindowIsMissed(d: bv16, i: nat)
    requires 1 <= i <= 16 && d != 0 && LowClear(d, i) && Fits(Swap(Lap(d)), i)
    ensures Missed(d)
  {
  }

  lemma TailWindow(s: seq<Byte>, t: seq<Byte>, i: nat)
    requires |s| == |t| >= 2 && s[..|s| - 2] == t[..|t| - 2] && i <= 16
    ensures var d := Xor(LastWord(s), LastWord(t));
            AgreeOutside(Bits(Sealed(s)), Bits(Sealed(t)), 8 * (|s| - 2) + i)
            <==> LowClear(d, i) && Fits(Swap(Lap(d)), i)
  {
    hide Bits, Word, Fcs, FcsBits, OctetsOf, Swap, Sealed, LastWord, Xor, Lap, LowClear, Fits;
    SealedInParts(s);
    SealedInParts(t);
    var f, g := Fcs(INITFCS, s), Fcs(INITFCS, t);
    var h := Bits(s[..|s| - 2]);
    var u, v := Bits(s[|s| - 2..]), Bits(t[|t| - 2..]);
    var c, e := Bits(OctetsOf(f)), Bits(OctetsOf(g));
    TailShows(FcsBits(INITFCS, h), u, v);
    SwapXor(f, g);
    AgreeAsWords(u, v, i);
    AgreeAsWords(c, e, i);
    WindowInParts(h, u, c, v, e, i);
  }

  lemma WindowInParts(h: seq<bool>, u: seq<bool>, c: seq<bool>, v: seq<bool>, e: seq<bool>, i: nat)
    requires |u| == |v| == |c| == |e| == 16 && i <= 16
    ensures AgreeOutside(h + u + c, h + v + e, |h| + i) <==> u[..i] == v[..i] && c[i..] == e[i..]
  {
    var x, y := h + u + c, h + v + e;
    assert x[..|h| + i] == h + u[..i] && y[..|h| + i] == h + v[..i];
    assert x[..|h| + i][|h|..] == u[..i] && y[..|h| + i][|h|..] == v[..i];
    assert x[|h| + i + 16..] == c[i..] && y[|h| + i + 16..] == e[i..];
  }

  /** A window that ends before the check sequence cannot hold the whole difference. */
  lemma WindowInData(s: seq<Byte>, t: seq<Byte>, i: nat)
    requires |s| == |t| >= 2 && s != t && i + 16 <= 8 * |s|
    ensures !AgreeOutside(Bits(Sealed(s)), Bits(Sealed(t)), i)
  {
    hide Bits, Fcs, FcsBits, OctetsOf;
    var f, g := Fcs(INITFCS, s), Fcs(INITFCS, t);
    var x, y := Bits(Sealed(s)), Bits(Sealed(t));
    BitsConcat(s, OctetsOf(f));
    BitsConcat(t, OctetsOf(g));
    if AgreeOutside(x, y, i) {
      var n := 8 * |s|;
      assert x[n..] == x[i + 16..][n - i - 16..] && y[n..] == y[i + 16..][n - i - 16..];
      assert x[n..] == Bits(OctetsOf(f)) && y[n..] == Bits(OctetsOf(g));
      BitsInjective(OctetsOf(f), OctetsOf(g));
      OctetsInjective(f, g);
      var a, b := Bits(s)[i..i + 16], Bits(t)[i..i + 16];
      assert Bits(s)[..i] == x[..i] && Bits(t)[..i] == y[..i];
      assert Bits(s)[i + 16..] == x[i + 16..n] && Bits(t)[i + 16..] == y[i + 16..n];
      assert x[i + 16..n] == x[i + 16..][..n - i - 16] && y[i + 16..n] == y[i + 16..][..n - i - 16];
      var pre, post := Bits(s)[..i], Bits(s)[i + 16..];
      assert Bits(s) == pre + a + post && Bits(t) == pre + b + post;
      TableRefinesBits(INITFCS, s);
      TableRefinesBits(INITFCS, t);
      if a != b {
        BurstDetected(INITFCS, pre, a, b, post);
      } else {
        BitsInjective(s, t);
      }
    }
  }

  lemma WordsDiffer(s: seq<Byte>, t: seq<Byte>)
    requires |s| == |t| >= 2 && s != t && s[..|s| - 2] == t[..|t| - 2]
    ensures Xor(LastWord(s), LastWord(t)) != 0
  {
    hide Word, Fcs, LastWord, Xor, Bits;
    if Xor(LastWord(s), LastWord(t)) == 0 {
      XorEqual(LastWord(s), LastWord(t));
      SealedInParts(s);
      SealedInParts(t);
      WordInjective(Bits(s[|s| - 2..]), Bits(t[|t| - 2..]));
      BitsInjective(s, t);
    }
  }

  /** A burst of up to sixteen bits anywhere in a sealed buffer, check sequence included, is missed
      exactly when the buffers agree but for the last two covered octets, and those differ in one of
      twelve ways. */
  lemma SealedBurst(s: seq<Byte>, t: seq<Byte>)
    requires |s| == |t| >= 2 && s != t
    ensures InWindow(Bits(Sealed(s)), Bits(Sealed(t)))
       <==> s[..|s| - 2] == t[..|t| - 2] && Missed(Xor(LastWord(s), LastWord(t)))
  {
    hide Bits, Fcs, Sealed, LastWord, Xor, Swap, Lap, LowClear, Fits, Missed, AgreeOutside, WindowOf;
    var x, y := Bits(Sealed(s)), Bits(Sealed(t));
    var d := Xor(LastWord(s), LastWord(t));
    var n := 8 * (|s| - 2);
    SealedSize(s);
    SealedSize(t);
    if InWindow(x, y) {
      var i :| AgreeOutside(x, y, i);
      WindowBounds(x, y, i);
      if i <= n {
        WindowInData(s, t, i);
      } else {
        SameHead(s, t, i);
        WordsDiffer(s, t);
        TailWindow(s, t, i - n);
        WindowIsMissed(d, i - n);
      }
    }
    if s[..|s| - 2] == t[..|t| - 2] && Missed(d) {
      MissedHasWindow(d);
      TailWindow(s, t, WindowOf(d));
      assert AgreeOutside(x, y, n + WindowOf(d));
    }
  }

  lemma SealedSize(s: seq<Byte>)
    ensures |Bits(Sealed(s))| == 8 * |s| + 16
  {
    hide Bits, Fcs, OctetsOf;
  }

  lemma WindowBounds(x: seq<bool>, y: seq<bool>, i: int)
    requires |x| == |y| && AgreeOutside(x, y, i)
    ensures 0 <= i <= |x| - 16
  {
  }

  lemma SameHead(s: seq<Byte>, t: seq<Byte>, i: nat)
    requires |s| == |t| >= 2 && 8 * (|s| - 2) <= i && AgreeOutside(Bits(Sealed(s)), Bits(Sealed(t)), i)
    ensures s[..|s| - 2] == t[..|t| - 2]
  {
    hide Bits, Word, Fcs, FcsBits, OctetsOf, Swap, Sealed, LastWord;
    SealedInParts(s);
    SealedInParts(t);
    var x, y, n := Bits(Sealed(s)), Bits(Sealed(t)), 8 * (|s| - 2);
    assert x[..n] == x[..i][..n] && y[..n] == y[..i][..n];
    assert x[..n] == Bits(s[..|s| - 2]) && y[..n] == Bits(t[..|t| - 2]);
    BitsInjective(s[..|s| - 2], t[..|t| - 2]);
  }

  /** The same for two buffers that validate. */
  lemma ValidBurst(x: seq<Byte>, y: seq<Byte>)
    requires |x| == |y| && Validates(x) && Validates(y)
    requires |x| >= 11 && x[1..|x| - 3] != y[1..|y| - 3]
    ensures var s, t := x[1..|x| - 3], y[1..|y| - 3];
            InWindow(Bits(x[1..|x| - 1]), Bits(y[1..|y| - 1]))
            <==> s[..|s| - 2] == t[..|t| - 2] && Missed(Xor(LastWord(s), LastWord(t)))
  {
    hide Validates, Bits, Sealed, InWindow, Missed, LastWord, Xor;
    ValidIsSealed(x);
    ValidIsSealed(y);
    SealedBurst(x[1..|x| - 3], y[1..|y| - 3]);
  }

  lemma LowOctetOfShift(x: bv16)
    requires x < 256
    ensures LowByte(ByteShift(x)) == 0 <==> x == 0 || x == 0x91
  {
  }

  lemma XorOfOctets(a: bv16, b: bv16)
    requires a < 256 && b < 256
    ensures Xor(a, b) < 256 && (Xor(a, b) == 0 <==> a == b)
  {
  }

  lemma LowOctetsEqual(f: bv16, g: bv16)
    ensures LowOctet(f) == LowOctet(g) <==> LowByte(Xor(f, g)) == 0
  {
    hide OctetWord, LowOctet, HighOctet, HighByte, LowByte, Xor;
    LowBytesEqual(f, g);
    if LowByte(f) == LowByte(g) {
      OctetWordInjective(LowOctet(f), LowOctet(g));
    }
  }

  lemma LowBytesEqual(f: bv16, g: bv16)
    ensures LowByte(f) == LowByte(g) <==> LowByte(Xor(f, g)) == 0
  {
  }

  /** An error in the last covered octet leaves the low octet of the check sequence alone, so that only
      two neighbouring octets differ, exactly when it is the error 0x91. */
  lemma LastOctetError(s: seq<Byte>, a: Byte, b: Byte)
    requires a != b
    ensures LowOctet(Fcs(INITFCS, s + [a])) == LowOctet(Fcs(INITFCS, s + [b]))
       <==> Xor(OctetWord(a), OctetWord(b)) == 0x91
  {
    hide Fcs, OctetWord, LowOctet, LowByte, ByteShift, Xor, FcsStep, Shift;
    var g := Fcs(INITFCS, s);
    FcsSnoc(INITFCS, s, a);
    FcsSnoc(INITFCS, s, b);
    StepIsShift(g, a);
    StepIsShift(g, b);
    ShiftXor(Xor(g, OctetWord(a)), Xor(g, OctetWord(b)), 8);
    XorOfBoth(g, OctetWord(a), OctetWord(b));
    OctetFits(a);
    OctetFits(b);
    XorOfOctets(OctetWord(a), OctetWord(b));
    var x := Xor(OctetWord(a), OctetWord(b));
    ByteShiftIsShift(x);
    LowOctetsEqual(FcsStep(g, a), FcsStep(g, b));
    LowOctetOfShift(x);
    if OctetWord(a) == OctetWord(b) {
      OctetWordInjective(a, b);
    }
  }

  lemma {:induction false} FcsSnoc(f: bv16, s: seq<Byte>, b: Byte)
    ensures Fcs(f, s + [b]) == FcsStep(Fcs(f, s), b)
    decreases |s|
  {
    hide FcsStep;
    if s == [] {
      assert [] + [b] == [b] && [b][1..] == [];
    } else {
      FcsSnoc(FcsStep(f, s[0]), s[1..], b);
      assert (s + [b])[0] == s[0] && (s + [b])[1..] == s[1..] + [b];
    }
  }

  // ----- Four flipped bits -----

  lemma OnesCons(d: bool, w: bv16, n: nat)
    requires w < 0x8000
    ensures Ones(WordBits(Pack(d, w), n + 1)) == (if d then 1 else 0) + Ones(WordBits(w, n))
  {
    hide Pack, Half;
    OnesStep(Pack(d, w), n);
    Unpack(d, w);
  }

  /** Flipped bits are the ones of the exclusive or. */
  lemma {:induction false} FlipsAsWords(u: seq<bool>, v: seq<bool>)
    requires |u| == |v| <= 16
    ensures Flips(u, v) == Ones(WordBits(Xor(Word(u), Word(v)), |u|))
    decreases |u|
  {
    hide Pack, Xor, WordBits, Ones;
    if u == [] {
      OnesStep(Xor(0, 0), 0);
    } else {
      FlipsAsWords(u[1..], v[1..]);
      WordBound(u[1..]);
      WordBound(v[1..]);
      PackPack(u[0], v[0], Word(u[1..]), Word(v[1..]));
      XorBelow(Word(u[1..]), Word(v[1..]));
      OnesCons(u[0] != v[0], Xor(Word(u[1..]), Word(v[1..])), |u| - 1);
    }
  }

  lemma OneOfTop()
    ensures Ones(WordBits(0x8000, 16)) == 1
  {
    OnesStep(0x8000, 15);
    OnesStep(0x4000, 14);
    OnesStep(0x2000, 13);
    OnesStep(0x1000, 12);
    OnesStep(0x0800, 11);
    OnesStep(0x0400, 10);
    OnesStep(0x0200, 9);
    OnesStep(0x0100, 8);
    OnesStep(0x0080, 7);
    OnesStep(0x0040, 6);
    OnesStep(0x0020, 5);
    OnesStep(0x0010, 4);
    OnesStep(0x0008, 3);
    OnesStep(0x0004, 2);
    OnesStep(0x0002, 1);
    OnesStep(0x0001, 0);
  }

  lemma OnesOfCheck()
    ensures Swap(Lap(0x8000)) == 0x0884 && Ones(WordBits(0x0884, 16)) == 3
  {
    OnesStep(0x0884, 15);
    OnesStep(0x0442, 14);
    OnesStep(0x0221, 13);
    OnesStep(0x0110, 12);
    OnesStep(0x0088, 11);
    OnesStep(0x0044, 10);
    OnesStep(0x0022, 9);
    OnesStep(0x0011, 8);
    OnesStep(0x0008, 7);
    OnesStep(0x0004, 6);
    OnesStep(0x0002, 5);
    OnesStep(0x0001, 4);
    OnesStep(0, 3);
    OnesStep(0, 2);
    OnesStep(0, 1);
    OnesStep(0, 0);
  }

  /** A covered buffer with the top bit of its last octet flipped. */
  function TopFlipped(s: seq<Byte>): (t: seq<Byte>)
    requires s != []
    ensures |t| == |s|
  {
    OctetFits(s[|s| - 1]);
    TopStaysOctet(OctetWord(s[|s| - 1]));
    s[..|s| - 1] + [OctetOf(Xor(OctetWord(s[|s| - 1]), 0x80))]
  }

  lemma TopStaysOctet(w: bv16)
    requires w < 256
    ensures Xor(w, 0x80) < 256
  {
  }

  lemma TopOfJoin(h: bv16, l: bv16)
    requires h < 256 && l < 256
    ensures Xor(JoinBytes(h, l), JoinBytes(Xor(h, 0x80), l)) == 0x8000
  {
  }

  lemma TopFlippedWord(s: seq<Byte>)
    requires |s| >= 2
    ensures Xor(LastWord(s), LastWord(TopFlipped(s))) == 0x8000
    ensures TopFlipped(s)[..|s| - 2] == s[..|s| - 2]
  {
    hide OctetWord, JoinBytes, Xor;
    OctetFits(s[|s| - 1]);
    OctetFits(s[|s| - 2]);
    TopOfJoin(OctetWord(s[|s| - 1]), OctetWord(s[|s| - 2]));
    assert TopFlipped(s)[|s| - 2] == s[|s| - 2];
  }

  /** Flipping that bit changes three bits of the check sequence: four in all. */
  lemma FourFlips(s: seq<Byte>)
    requires |s| >= 2
    ensures Flips(Bits(Sealed(s)), Bits(Sealed(TopFlipped(s)))) == 4
  {
    hide Bits, Word, Fcs, FcsBits, OctetsOf, Swap, Sealed, LastWord, Xor, Lap, TopFlipped, Flips, WordBits, Ones;
    var t := TopFlipped(s);
    TopFlippedWord(s);
    SealedInParts(s);
    SealedInParts(t);
    var f, g := Fcs(INITFCS, s), Fcs(INITFCS, t);
    var h := Bits(s[..|s| - 2]);
    var u, v := Bits(s[|s| - 2..]), Bits(t[|t| - 2..]);
    var c, e := Bits(OctetsOf(f)), Bits(OctetsOf(g));
    TailShows(FcsBits(INITFCS, h), u, v);
    SwapXor(f, g);
    FlipsAsWords(u, v);
    FlipsAsWords(c, e);
    OneOfTop();
    OnesOfCheck();
    FlipsConcat(h, h, u, v);
    FlipsConcat(h + u, h + v, c, e);
    FlipsNone(h, h);
  }

  lemma SealedValidates(x: seq<Byte>, t: seq<Byte>)
    requires Validates(x) && |t| == |x| - 4 && t[1] == x[2]
    ensures var y := [x[0]] + Sealed(t) + [x[|x| - 1]];
            |y| == |x| && Validates(y) && y[1..|y| - 1] == Sealed(t)
  {
    hide Fcs, JoinOctets, HighOctet, LowOctet;
    var f := Fcs(INITFCS, t);
    var y := [x[0]] + Sealed(t) + [x[|x| - 1]];
    assert y == [x[0]] + t + OctetsOf(f) + [x[|x| - 1]];
    assert y[1..|y| - 3] == t;
    assert y[|y| - 3] == HighOctet(f) && y[|y| - 2] == LowOctet(f);
    JoinSplit(f, HighOctet(f), LowOctet(f));
    assert y[2] == t[1];
  }

  /** Every buffer that validates has another one, of the same size and length octet, that validates
      and differs from it between the flags in exactly four bits: the distance is four and no more. */
  lemma FourErrorsValidate(x: seq<Byte>) returns (y: seq<Byte>)
    requires Validates(x)
    ensures |y| == |x| >= 11 && Validates(y) && y[2] == x[2]
    ensures Flips(Bits(x[1..|x| - 1]), Bits(y[1..|y| - 1])) == 4
  {
    hide Flips, Bits, Sealed, Fcs, JoinOctets, Xor, OctetWord;
    ValidIsSealed(x);
    var s := x[1..|x| - 3];
    var t := TopFlipped(s);
    assert t[1] == s[1] == x[2];
    SealedValidates(x, t);
    y := [x[0]] + Sealed(t) + [x[|x| - 1]];
    assert y[2] == x[2];
    FourFlips(s);
  }
}
