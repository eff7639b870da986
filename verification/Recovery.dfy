/** How the receiver recovers from noise, cut frames and shared flags. */
module Recovery {
  import opened Bytes
  import opened CrcRegister
  import opened FrameCheck
  import opened Wire
  import opened Receiver
  import opened RoundTrip
  import opened Language

  // ----- Bounded resynchronisation -----

  predicate Quiet(w: seq<Byte>) {
    FRAME_CHAR !in w && ESCAPE_CHAR !in w
  }

  /** The quiet bytes after which nothing is left in progress. */
  function Rank(r: Rx): nat {
    match r.state
    case WaitingForSync => 0
    case Header1 => 260
    case Header2 => 259
    case Body => if r.count > 0 then r.count + 3 else 0
    case Escaped => if r.count > 0 then r.count + 3 else 1
    case Fcs1 => 3
    case Fcs2 => 2
    case End => 1
  }

  lemma RankBound(r: Rx)
    requires Shape(r)
    ensures Rank(r) <= 260
    ensures Rank(r) == 0 <==> r.state == WaitingForSync || (r.state == Body && r.count <= 0)
  {
  }

  lemma QuietStep(r: Rx, b: Byte)
    requires b != FRAME_CHAR && b != ESCAPE_CHAR
    ensures Step(r, b).delivered == []
    ensures Rank(Step(r, b).next) <= if Rank(r) == 0 then 0 else Rank(r) - 1
  {
    hide Close;
  }

  lemma {:induction false} QuietBytes(r: Rx, w: seq<Byte>)
    requires Quiet(w)
    ensures Run(r, w).delivered == []
    ensures Rank(Run(r, w).next) <= if Rank(r) <= |w| then 0 else Rank(r) - |w|
    decreases |w|
  {
    hide Step, Rank;
    if w != [] {
      QuietStep(r, w[0]);
      QuietBytes(Step(r, w[0]).next, w[1..]);
    }
  }

  /** After any history, 260 bytes that are neither flags nor escapes hand on nothing and leave
      nothing in progress; then every good stream comes out whole. */
  lemma Resynchronises(u: seq<Byte>, w: seq<Byte>, items: seq<Item>)
    requires Quiet(w) && |w| >= 260
    requires forall i :: 0 <= i < |items| ==> GoodItem(items[i])
    ensures var r := Run(INITIAL, u + w).next; r.state == WaitingForSync || (r.state == Body && r.count <= 0)
    ensures Run(INITIAL, u + w).delivered == Run(INITIAL, u).delivered
    ensures Run(INITIAL, u + w + Stream(items)).delivered == Run(INITIAL, u).delivered + Messages(items)
  {
    hide Run, Shape, Rank;
    InitialShape();
    RunShape(INITIAL, u);
    var r := Run(INITIAL, u).next;
    RankBound(r);
    QuietBytes(r, w);
    RunConcat(INITIAL, u, w);
    RunShape(r, w);
    RankBound(Run(r, w).next);
    RunConcat(INITIAL, u + w, Stream(items));
    StreamRoundTrip(Run(r, w).next, items);
  }

  /** A string of one byte repeated. */
  function Repeat(b: Byte, n: nat): (r: seq<Byte>)
    ensures |r| == n && forall i :: 0 <= i < n ==> r[i] == b
  {
    seq(n, _ => b)
  }

  lemma {:induction false} EscapeZeros(n: nat)
    ensures Escape(Repeat(0, n)) == Repeat(0, n)
    decreases n
  {
    if n != 0 {
      assert Repeat(0, n)[1..] == Repeat(0, n - 1);
      EscapeZeros(n - 1);
    } else {
      assert Repeat(0, 0) == [];
    }
  }

  /** One quiet byte fewer is not always enough: after a lone flag and 259 such bytes the frame
      that follows is lost. */
  lemma ResynchronisationIsTight(msg: seq<Byte>)
    requires 5 <= |msg| <= 255
    ensures Quiet([0, 255] + Repeat(0, 257)) && |[0, 255] + Repeat(0, 257)| == 259
    ensures LastDelivery([FRAME_CHAR] + ([0, 255] + Repeat(0, 257)) + WireOf(msg)) != [msg]
  {
    hide Run, Step, LastDelivery, WireOf;
    var w: seq<Byte> := [0, 255] + Repeat(0, 257);
    var p := Repeat(0, 255);
    var u := [FRAME_CHAR] + w;
    EscapeZeros(255);
    var x: seq<Byte> := [0, 0];
    assert u == PayloadPart(0, p) + x;
    PayloadPartRun(INITIAL, 0, p);
    RunConcat(INITIAL, PayloadPart(0, p), x);
    UpToTwo(Run(INITIAL, PayloadPart(0, p)).next, x);
    GetsThrough(u, msg);
  }

  // ----- Cut frames -----

  lemma {:induction false} CutPayload(r: Rx, p: seq<Byte>, j: nat)
    requires r.state == Body && |p| <= r.count
    requires j < |Escape(p)|
    ensures Run(r, Escape(p)[..j]).delivered == []
    ensures Run(r, Escape(p)[..j]).next.state in {Body, Escaped}
    decreases |p|
  {
    hide Step;
    var s := Stuff(p[0]);
    if j == 0 {
    } else if j < |s| {
      assert Escape(p)[..j] == [ESCAPE_CHAR];
      EscapeStep(r);
      RunOne(r, ESCAPE_CHAR);
    } else {
      assert Escape(p)[..j] == s + Escape(p[1..])[..j - |s|];
      RunConcat(r, s, Escape(p[1..])[..j - |s|]);
      StuffRun(r, p[0]);
      assert p[1..] != [];
      CutPayload(TakeByte(r, p[0]), p[1..], j - |s|);
    }
  }

  lemma EscapeStep(r: Rx)
    requires r.state == Body
    ensures Step(r, ESCAPE_CHAR).delivered == [] && Step(r, ESCAPE_CHAR).next.state == Escaped
  {
  }

  /** The cuts of a frame that a following frame survives. */
  predicate HarmlessCut(msg: seq<Byte>, k: nat) {
    k == 0 || 3 <= k < 3 + |Escape(msg)|
  }

  lemma CutFrame(r: Rx, msg: seq<Byte>, k: nat)
    requires Restartable(r) && 1 <= |msg| <= 255 && k < |WireOf(msg)|
    ensures Run(r, WireOf(msg)[..k]).delivered == []
    ensures Restartable(Run(r, WireOf(msg)[..k]).next) <==> HarmlessCut(msg, k)
  {
    hide Run, Step, Escape, Trailer;
    var head: seq<Byte> := [FRAME_CHAR, 1, |msg|];
    var e := Escape(msg);
    var cut := WireOf(msg)[..k];
    FrameShape(1, msg);
    assert WireOf(msg) == PayloadPart(1, msg) + Trailer(1, msg);
    if k == 0 {
      assert cut == [];
      RunNothing(r);
    } else if k <= 2 {
      assert cut == if k == 1 then [FRAME_CHAR] else [FRAME_CHAR, 1];
      CutHeader(r, k);
    } else if k < 3 + |e| {
      assert cut == head + e[..k - 3];
      RunConcat(r, head, e[..k - 3]);
      HeaderRun(r, 1, |msg|);
      CutPayload(Rx(Body, head, |msg|), msg, k - 3);
    } else {
      var x := Trailer(1, msg)[..k - 3 - |e|];
      assert cut == PayloadPart(1, msg) + x;
      PayloadPartRun(r, 1, msg);
      RunConcat(r, PayloadPart(1, msg), x);
      UpToTwo(Run(r, PayloadPart(1, msg)).next, x);
    }
  }

  lemma CutHeader(r: Rx, k: nat)
    requires Restartable(r) && 1 <= k <= 2
    ensures var w: seq<Byte> := if k == 1 then [FRAME_CHAR] else [FRAME_CHAR, 1];
            Run(r, w).delivered == [] && !Restartable(Run(r, w).next)
  {
    RunOne(r, FRAME_CHAR);
    if k == 2 {
      assert [FRAME_CHAR, 1][1..] == [1];
      RunOne(Step(r, FRAME_CHAR).next, 1);
    }
  }

  /** A frame cut after k of its bytes, met where flags start frames, lets the following frame
      through exactly when the cut left no byte, or fell after the three header bytes and before the
      last byte of the escaped payload - in the middle of an escape pair included. A cut just before
      the closing flag makes the following frame's opening flag close the first one. */
  lemma AfterCutFrame(u: seq<Byte>, first: seq<Byte>, k: nat, second: seq<Byte>)
    requires Restartable(Run(INITIAL, u).next)
    requires 5 <= |first| <= 255 && 5 <= |second| <= 255 && k < |WireOf(first)|
    ensures LastDelivery(u + WireOf(first)[..k] + WireOf(second)) == [second] <==> HarmlessCut(first, k)
    ensures HarmlessCut(first, k) ==>
      Run(INITIAL, u + WireOf(first)[..k] + WireOf(second)).delivered == Run(INITIAL, u).delivered + [second]
  {
    hide Run, WireOf, LastDelivery, HarmlessCut;
    var r := Run(INITIAL, u).next;
    var cut := WireOf(first)[..k];
    CutFrame(r, first, k);
    RunConcat(INITIAL, u, cut);
    GetsThrough(u + cut, second);
    if HarmlessCut(first, k) {
      SendReceive(Run(r, cut).next, second);
      RunConcat(INITIAL, u + cut, WireOf(second));
    }
  }

  /** A single flag cannot close one frame and open the next: the second frame is lost. */
  lemma SharedFlag(a: seq<Byte>, b: seq<Byte>)
    requires 5 <= |a| <= 255 && 5 <= |b| <= 255
    ensures LastDelivery(WireOf(a) + WireOf(b)[1..]) != [b]
  {
    hide Run, Escape, LastDelivery, Trailer;
    var k := |WireOf(a)| - 1;
    FrameShape(1, a);
    FrameShape(1, b);
    RunNothing(INITIAL);
    AfterCutFrame([], a, k, b);
    assert [] + WireOf(a)[..k] + WireOf(b) == WireOf(a) + WireOf(b)[1..];
  }

  // ----- Messages the length octet cannot express -----

  /** Three trailer bytes met with no payload expected: only a flag in the high octet of the check
      sequence leaves the receiver where a flag starts a frame. */
  lemma StrayTrailer(r: Rx, h: Byte, l: Byte)
    requires Settled(r) && r.state != Escaped
    ensures Restartable(Run(r, [h, l, FRAME_CHAR]).next) <==> h == FRAME_CHAR
  {
    hide Close;
    var w: seq<Byte> := [h, l, FRAME_CHAR];
    var r1 := Step(r, h).next;
    var r2 := Step(r1, l).next;
    assert w[1..] == [l, FRAME_CHAR] && [l, FRAME_CHAR][1..] == [FRAME_CHAR];
    RunOne(r2, FRAME_CHAR);
    assert Run(r, w).next == Step(r2, FRAME_CHAR).next;
    assert h == FRAME_CHAR ==> r1.state == Header1 && r2.state == Header2;
    assert h != FRAME_CHAR ==> Settled(r1);
    assert h != FRAME_CHAR && l == FRAME_CHAR ==> r2.state in {Header1, Body};
  }

  /** After a message of no octets or of more than 255, the next frame gets through exactly when the
      high octet of the first one's check sequence happens to be a flag. */
  lemma AfterUnframeable(u: seq<Byte>, first: seq<Byte>, second: seq<Byte>)
    requires Restartable(Run(INITIAL, u).next)
    requires |first| == 0 || |first| > 255
    requires 5 <= |second| <= 255
    ensures Run(INITIAL, u + WireOf(first)).delivered == Run(INITIAL, u).delivered
    ensures LastDelivery(u + WireOf(first) + WireOf(second)) == [second] <==>
              HighOctet(Fcs(INITFCS, Covered(1, first))) == FRAME_CHAR
  {
    hide Run, Step, Escape, LastDelivery, Fcs, HighOctet, LowOctet;
    var r := Run(INITIAL, u).next;
    var n: Byte := |first| % 256;
    var head: seq<Byte> := [FRAME_CHAR, 1, n];
    var tail := Trailer(1, first);
    SendReceive(r, first);
    RunConcat(INITIAL, u, WireOf(first));
    HeaderRun(r, 1, n);
    RunConcat(r, head + Escape(first), tail);
    RunConcat(r, head, Escape(first));
    if n == 0 {
      PayloadRun(Rx(Body, head, 0), first);
    } else {
      LongPayload(Rx(Body, head, n), first);
    }
    StrayTrailer(Run(r, head + Escape(first)).next, tail[0], tail[1]);
    assert tail == [tail[0], tail[1], FRAME_CHAR];
    GetsThrough(u + WireOf(first), second);
  }

  lemma EmptyCheckSequence()
    ensures Covered(1, []) == [1, 0]
    ensures Fcs(INITFCS, [1, 0]) == 0xe960
    ensures HighOctet(Fcs(INITFCS, [1, 0])) != FRAME_CHAR
  {
    var w: seq<Byte> := [1, 0];
    assert w[1..] == [0] && w[1..][1..] == [];
    assert OctetWord(1) == 1 && OctetWord(0) == 0;
    assert FcsStep(INITFCS, 1) == 0x1e0e by {
      assert LowByte(Xor(0xffff, 1)) == 0xfe;
      assert FcsRow(31)[6] == 0x1ef1;
    }
    assert FcsStep(0x1e0e, 0) == 0xe960 by {
      assert LowByte(Xor(0x1e0e, 0)) == 0x0e;
      assert FcsRow(1)[6] == 0xe97e;
    }
    assert Fcs(INITFCS, [1, 0]) == 0xe960;
    assert HighByte(0xe960) == 0xe9;
    assert OctetWord(FRAME_CHAR) == 0x7e;
  }

  /** The octets of an empty message's frame, to the last bit: flag, version, length, the check sequence
      high octet first, flag. */
  lemma EmptyFrameOctets()
    ensures WireOf([]) == [0x7e, 0x01, 0x00, 0xe9, 0x60, 0x7e]
  {
    hide Fcs;
    EmptyCheckSequence();
    var f := Fcs(INITFCS, [1, 0]);
    EmptyOctets();
    JoinSplit(f, 0xe9, 0x60);
    assert Escape([]) == [];
  }

  lemma EmptyOctets()
    ensures JoinOctets(0xe9, 0x60) == 0xe960
  {
    assert OctetWord(0xe9) == 0xe9 && OctetWord(0x60) == 0x60;
  }

  /** An empty message costs the message after it. */
  lemma EmptyMessageLosesNext(second: seq<Byte>)
    requires 5 <= |second| <= 255
    ensures LastDelivery(WireOf([]) + WireOf(second)) != [second]
  {
    hide Run, WireOf, LastDelivery, Fcs, HighOctet;
    RunNothing(INITIAL);
    AfterUnframeable([], [], second);
    EmptyCheckSequence();
    assert [] + WireOf([]) + WireOf(second) == WireOf([]) + WireOf(second);
  }

  // ----- Frames that differ by transmission errors -----

  /** Of two buffers of one size with the same check sequence octets, differing within a window of
      sixteen bits of what the sequence covers, at most one validates. */
  lemma BurstRejected(x: seq<Byte>, y: seq<Byte>, pre: seq<bool>, a: seq<bool>, b: seq<bool>, post: seq<bool>)
    requires |x| == |y| >= 11 && x[|x| - 3..] == y[|y| - 3..]
    requires Bits(x[1..|x| - 3]) == pre + a + post && Bits(y[1..|y| - 3]) == pre + b + post
    requires |a| == |b| <= 16 && a != b
    ensures !(Validates(x) && Validates(y))
  {
    hide FcsBits, Fcs, JoinOctets, Bits;
    BurstDetected(INITFCS, pre, a, b, post);
    TableRefinesBits(INITFCS, x[1..|x| - 3]);
    TableRefinesBits(INITFCS, y[1..|y| - 3]);
    assert x[|x| - 3] == x[|x| - 3..][0] && x[|x| - 2] == x[|x| - 3..][1];
    assert y[|y| - 3] == y[|y| - 3..][0] && y[|y| - 2] == y[|y| - 3..][1];
  }

  lemma ValidIsEven(x: seq<Byte>)
    requires Validates(x)
    ensures !OddOnes(Bits(x[1..|x| - 1]))
  {
    hide OddOnes, Bits, Fcs, JoinOctets;
    var s := x[1..|x| - 3];
    JoinSplit(Fcs(INITFCS, s), x[|x| - 3], x[|x| - 2]);
    SealedIsEven(s);
    assert x[1..|x| - 1] == s + [x[|x| - 3], x[|x| - 2]];
  }

  /** Of two buffers of one size whose octets between the flags, check sequence included, differ in
      an odd number of bits, at most one validates. */
  lemma OddErrorsRejected(x: seq<Byte>, y: seq<Byte>)
    requires |x| == |y| >= 2
    requires Flips(Bits(x[1..|x| - 1]), Bits(y[1..|y| - 1])) % 2 == 1
    ensures !(Validates(x) && Validates(y))
  {
    hide Validates, OddOnes, Bits, Flips;
    FlipsParity(Bits(x[1..|x| - 1]), Bits(y[1..|y| - 1]));
    if Validates(x) && Validates(y) {
      assert |x| >= 11 by {
        AtLeastEleven(x);
      }
      ValidIsEven(x);
      ValidIsEven(y);
    }
  }

  lemma AtLeastEleven(x: seq<Byte>)
    requires Validates(x)
    ensures |x| >= 11
  {
  }
}
