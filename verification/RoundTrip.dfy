/** What the receiver makes of what the sender sends. */
module RoundTrip {
  import opened Bytes
  import opened FrameCheck
  import opened Wire
  import opened Receiver

  // ----- The receiver on the parts of a frame -----

  lemma HeaderRun(r: Rx, v: Byte, n: Byte)
    requires Restartable(r)
    ensures Run(r, [FRAME_CHAR, v, n]) == Outcome(Rx(Body, [FRAME_CHAR, v, n], n), [])
  {
    var w: seq<Byte> := [FRAME_CHAR, v, n];
    assert w[1..] == [v, n] && w[1..][1..] == [n] && w[1..][1..][1..] == [];
    var r1 := Step(r, FRAME_CHAR);
    var r2 := Step(r1.next, v);
    assert Run(r2.next, [n]) == Outcome(Rx(Body, [FRAME_CHAR, v, n], n), []) by {
      RunOne(r2.next, n);
    }
    assert Run(r1.next, [v, n]) == Outcome(Rx(Body, [FRAME_CHAR, v, n], n), []) by {
      assert [v, n][1..] == [n];
    }
  }

  lemma StuffRun(r: Rx, b: Byte)
    requires r.state == Body
    ensures Run(r, Stuff(b)) == Outcome(TakeByte(r, b), [])
  {
    if NeedsEscape(b) {
      var w := [ESCAPE_CHAR, b - 0x20];
      assert w[1..] == [b - 0x20];
      RunOne(Step(r, ESCAPE_CHAR).next, b - 0x20);
    } else {
      RunOne(r, b);
    }
  }

  /** The escaped payload refills the buffer with the payload, as long as it is expected, or as long
      as the count has gone past zero. */
  lemma {:induction false} PayloadRun(r: Rx, p: seq<Byte>)
    requires r.state == Body
    requires |p| <= r.count || r.count <= 0
    ensures Run(r, Escape(p))
         == Outcome(Rx(if p != [] && |p| == r.count then Fcs1 else Body, r.inProgress + p, r.count - |p|), [])
    decreases |p|
  {
    hide Stuff, Step;
    if p == [] {
      assert r.inProgress + p == r.inProgress;
    } else {
      RunConcat(r, Stuff(p[0]), Escape(p[1..]));
      StuffRun(r, p[0]);
      assert r.inProgress + [p[0]] + p[1..] == r.inProgress + p;
      if |p| > 1 {
        PayloadRun(TakeByte(r, p[0]), p[1..]);
      } else {
        assert Escape(p[1..]) == [];
      }
    }
  }

  lemma TrailerRun(r: Rx, h: Byte, l: Byte)
    requires r.state == Fcs1
    ensures Run(r, [h, l, FRAME_CHAR]) == Close(Rx(End, r.inProgress + [h, l, FRAME_CHAR], r.count))
  {
    hide Close;
    var w: seq<Byte> := [h, l, FRAME_CHAR];
    var r1 := Step(r, h).next;
    var r2 := Step(r1, l).next;
    assert w[1..] == [l, FRAME_CHAR] && [l, FRAME_CHAR][1..] == [FRAME_CHAR];
    assert r2.inProgress == r.inProgress + [h, l, FRAME_CHAR];
    RunOne(r2, FRAME_CHAR);
  }

  /** The unescaped frame validates, and its payload is what lies between header and trailer. */
  lemma FrameValidates(v: Byte, p: seq<Byte>)
    requires 1 <= |p| <= 255
    ensures var rx := [FRAME_CHAR, v, |p|] + p + Trailer(v, p);
            && rx[3..|rx| - 3] == p && |rx| == 6 + |p|
            && (Validates(rx) <==> |p| >= 5)
  {
    hide Fcs, HighOctet, LowOctet, JoinOctets;
    var f := Fcs(INITFCS, Covered(v, p));
    var tail := Trailer(v, p);
    var rx := [FRAME_CHAR, v, |p|] + p + tail;
    assert rx[1..|rx| - 3] == Covered(v, p);
    assert rx[|rx| - 3] == tail[0] && rx[|rx| - 2] == tail[1] && rx[2] == |p|;
    JoinSplit(f, tail[0], tail[1]);
  }

  /** A frame of 1 to 255 octets, from any state in which a flag starts a frame: the payload comes
      out, once, if and only if it has at least five octets. */
  lemma FrameRun(r: Rx, v: Byte, p: seq<Byte>)
    requires Restartable(r) && 1 <= |p| <= 255
    ensures Run(r, Frame(v, p)).next.state == WaitingForSync
    ensures Run(r, Frame(v, p)).delivered == if |p| >= 5 then [p] else []
    ensures |p| >= 5 ==> Run(r, Frame(v, p)).next == Rx(WaitingForSync, p, |p|)
  {
    hide Run, Step, Escape, Trailer, Validates;
    var head: seq<Byte> := [FRAME_CHAR, v, |p|];
    var tail := Trailer(v, p);
    SplitTrailer(v, p);
    assert Frame(v, p) == head + Escape(p) + tail;
    RunConcat(r, head + Escape(p), tail);
    RunConcat(r, head, Escape(p));
    HeaderRun(r, v, |p|);
    PayloadRun(Rx(Body, head, |p|), p);
    TrailerRun(Rx(Fcs1, head + p, 0), tail[0], tail[1]);
    FrameValidates(v, p);
  }

  // ----- Messages of every length -----

  lemma QuietRun(r: Rx, w: seq<Byte>)
    requires r.state == WaitingForSync && FRAME_CHAR !in w
    ensures Run(r, w) == Outcome(r, [])
    decreases |w|
  {
    if w != [] {
      QuietRun(r, w[1..]);
    }
  }

  lemma StepTowardsEnd(r: Rx, b: Byte)
    requires r.state != End
    ensures Step(r, b).delivered == []
    ensures r.state != Fcs2 ==> Step(r, b).next.state != End
    ensures r.state !in {Fcs1, Fcs2} ==> Step(r, b).next.state != Fcs2
  {
  }

  /** Three bytes hand on nothing, unless the check sequence of a frame has been reached. */
  lemma ThreeBytes(r: Rx, a: Byte, b: Byte, c: Byte)
    requires r.state !in {Fcs1, Fcs2, End}
    ensures Run(r, [a, b, c]).delivered == []
  {
    hide Step;
    var r1 := Step(r, a);
    var r2 := Step(r1.next, b);
    StepTowardsEnd(r, a);
    StepTowardsEnd(r1.next, b);
    StepTowardsEnd(r2.next, c);
    assert [a, b, c][1..] == [b, c] && [b, c][1..] == [c];
    RunOne(r2.next, c);
    assert Run(r1.next, [b, c]).delivered == [];
  }

  lemma SplitTrailer(v: Byte, p: seq<Byte>)
    ensures Trailer(v, p) == [Trailer(v, p)[0], Trailer(v, p)[1], FRAME_CHAR]
  {
    hide Fcs;
  }

  /** Sending and receiving a message of any length, from any state in which a flag starts a frame:
      it comes out exactly once when it has 5 to 255 octets, and nothing comes out otherwise. */
  lemma SendReceive(r: Rx, msg: seq<Byte>)
    requires Restartable(r)
    ensures Run(r, WireOf(msg)).delivered == if 5 <= |msg| <= 255 then [msg] else []
    ensures 1 <= |msg| <= 255 ==> Run(r, WireOf(msg)).next.state == WaitingForSync
  {
    hide Run, Step, Escape, Trailer;
    if 1 <= |msg| <= 255 {
      FrameRun(r, 1, msg);
    } else {
      var n: Byte := |msg| % 256;
      var head: seq<Byte> := [FRAME_CHAR, 1, n];
      var tail := Trailer(1, msg);
      SplitTrailer(1, msg);
      HeaderRun(r, 1, n);
      RunConcat(r, head + Escape(msg), tail);
      RunConcat(r, head, Escape(msg));
      if n == 0 {
        PayloadRun(Rx(Body, head, 0), msg);
        ThreeBytes(Run(r, head + Escape(msg)).next, tail[0], tail[1], FRAME_CHAR);
      } else {
        LongPayload(Rx(Body, head, n), msg);
        ThreeBytes(Run(r, head + Escape(msg)).next, tail[0], tail[1], FRAME_CHAR);
      }
    }
  }

  /** A payload at least 256 octets too long is dropped before its end. */
  lemma LongPayload(r: Rx, p: seq<Byte>)
    requires r.state == Body && 0 < r.count && r.count + 3 <= |p|
    ensures Run(r, Escape(p)).delivered == []
    ensures Run(r, Escape(p)).next.state == WaitingForSync
  {
    hide Run, Step, Escape;
    var a, rest := p[..r.count], p[r.count..];
    assert p == a + rest;
    EscapeConcat(a, rest);
    PayloadRun(r, a);
    RunConcat(r, Escape(a), Escape(rest));
    NoTrailer(Run(r, Escape(a)).next, Escape(rest));
  }

  lemma NoTrailer(r: Rx, w: seq<Byte>)
    requires r.state == Fcs1 && |w| >= 3 && FRAME_CHAR !in w
    ensures Run(r, w).delivered == [] && Run(r, w).next.state == WaitingForSync
  {
    hide Close;
    var r1 := Step(r, w[0]).next;
    var r2 := Step(r1, w[1]).next;
    var r3 := Step(r2, w[2]).next;
    QuietRun(r3, w[3..]);
    assert w[2..][1..] == w[3..] && w[1..][1..] == w[2..];
    assert Run(r2, w[2..]).delivered == [] && Run(r2, w[2..]).next.state == WaitingForSync;
    assert Run(r1, w[1..]).delivered == [] && Run(r1, w[1..]).next.state == WaitingForSync;
  }

  // ----- Streams -----

  /** Nothing is in progress, or only a frame whose length octet was zero, which never completes. */
  predicate Settled(r: Rx) {
    r.state == WaitingForSync || (r.state in {Body, Escaped} && r.count <= 0)
  }

  lemma {:induction false} NoiseRun(r: Rx, w: seq<Byte>)
    requires Settled(r) && FRAME_CHAR !in w
    ensures Run(r, w).delivered == [] && Settled(Run(r, w).next)
    decreases |w|
  {
    hide Close;
    if w != [] {
      NoiseRun(Step(r, w[0]).next, w[1..]);
    }
  }

  /** What may stand on the line: noise without flags, or a frame. */
  datatype Item = Noise(bytes: seq<Byte>) | Message(msg: seq<Byte>)

  predicate GoodItem(i: Item) {
    match i
    case Noise(bytes) => FRAME_CHAR !in bytes
    case Message(msg) => 5 <= |msg| <= 255
  }

  function Stream(items: seq<Item>): seq<Byte>
  {
    if items == [] then []
    else (match items[0] case Noise(bytes) => bytes case Message(msg) => WireOf(msg)) + Stream(items[1..])
  }

  function Messages(items: seq<Item>): seq<seq<Byte>>
  {
    if items == [] then []
    else (match items[0] case Noise(_) => [] case Message(msg) => [msg]) + Messages(items[1..])
  }

  /** Any list of messages of 5 to 255 octets, with any noise but flags between the frames, comes out
      as exactly that list, in order, and nothing is left in progress. */
  lemma {:induction false} StreamRoundTrip(r: Rx, items: seq<Item>)
    requires Settled(r)
    requires forall i :: 0 <= i < |items| ==> GoodItem(items[i])
    ensures Run(r, Stream(items)).delivered == Messages(items)
    ensures Settled(Run(r, Stream(items)).next)
    ensures items != [] && items[|items| - 1].Message? ==> Run(r, Stream(items)).next.state == WaitingForSync
    decreases |items|
  {
    hide Run, Step, WireOf;
    if items == [] {
      RunNothing(r);
    } else {
      match items[0]
      case Noise(bytes) =>
        NoiseRun(r, bytes);
        RunConcat(r, bytes, Stream(items[1..]));
        StreamRoundTrip(Run(r, bytes).next, items[1..]);
      case Message(msg) =>
        SendReceive(r, msg);
        RunConcat(r, WireOf(msg), Stream(items[1..]));
        StreamRoundTrip(Run(r, WireOf(msg)).next, items[1..]);
        if |items| == 1 {
          RunNothing(Run(r, WireOf(msg)).next);
        }
    }
  }

  lemma RunNothing(r: Rx)
    ensures Run(r, []) == Outcome(r, [])
  {
  }

  function WireAll(msgs: seq<seq<Byte>>): seq<Byte> {
    if msgs == [] then [] else WireOf(msgs[0]) + WireAll(msgs[1..])
  }

  /** Frames one after the other come out as the messages they carry. */
  lemma {:induction false} WireAllRun(r: Rx, msgs: seq<seq<Byte>>)
    requires Restartable(r)
    requires forall i :: 0 <= i < |msgs| ==> 5 <= |msgs[i]| <= 255
    ensures Run(r, WireAll(msgs)).delivered == msgs
    decreases |msgs|
  {
    hide Run, WireOf;
    if msgs == [] {
      RunNothing(r);
    } else {
      SendReceive(r, msgs[0]);
      RunConcat(r, WireOf(msgs[0]), WireAll(msgs[1..]));
      WireAllRun(Run(r, WireOf(msgs[0])).next, msgs[1..]);
      assert msgs == [msgs[0]] + msgs[1..];
    }
  }

  // ----- No wire form begins another -----

  lemma StuffsApart(c: Byte, d: Byte, x: seq<Byte>, y: seq<Byte>)
    requires Stuff(c) + x <= Stuff(d) + y
    ensures c == d && x <= y
  {
    assert (Stuff(c) + x)[0] == (Stuff(d) + y)[0];
    if NeedsEscape(c) {
      assert (Stuff(c) + x)[1] == (Stuff(d) + y)[1];
    }
    assert (Stuff(c) + x)[|Stuff(c)|..] == x && (Stuff(d) + y)[|Stuff(d)|..] == y;
  }

  /** An escaped string that begins another comes from a string that begins the other's. */
  lemma {:induction false} EscapePrefix(a: seq<Byte>, b: seq<Byte>)
    requires Escape(a) <= Escape(b)
    ensures a <= b
    decreases |a|
  {
    hide Stuff;
    if a != [] {
      assert b != [];
      StuffsApart(a[0], b[0], Escape(a[1..]), Escape(b[1..]));
      EscapePrefix(a[1..], b[1..]);
      assert a == [a[0]] + a[1..] && b == [b[0]] + b[1..];
    }
  }

  /** Flags end the two: they can only stand within two bytes of the same place. */
  lemma EscapesAlign(x: seq<Byte>, y: seq<Byte>, t: seq<Byte>, u: seq<Byte>, rest: seq<Byte>)
    requires FRAME_CHAR !in x && FRAME_CHAR !in y
    requires |t| == |u| == 3 && t[2] == u[2] == FRAME_CHAR
    requires x + t + rest == y + u
    ensures x <= y && |y| <= |x| + 2 && |rest| == |y| - |x|
  {
    assert (x + t + rest)[|x| + 2] == FRAME_CHAR;
    assert forall i :: 0 <= i < |y| ==> (y + u)[i] == y[i] != FRAME_CHAR;
    assert (x + t + rest)[..|x|] == x;
    assert (y + u)[..|x|] == y[..|x|];
  }

  /** No wire form is a prefix of another, for messages of every length: the frames of two messages can
      only agree as far as the shorter when the messages are the same. */
  lemma PrefixFree(a: seq<Byte>, b: seq<Byte>, rest: seq<Byte>)
    requires WireOf(b) == WireOf(a) + rest
    ensures a == b && rest == []
  {
    hide Escape, Trailer;
    var x, y := Escape(a) + Trailer(1, a) + rest, Escape(b) + Trailer(1, b);
    assert WireOf(a) + rest == [FRAME_CHAR, 1, |a| % 256] + x;
    assert WireOf(b) == [FRAME_CHAR, 1, |b| % 256] + y;
    assert ([FRAME_CHAR, 1, |a| % 256] + x)[2] == ([FRAME_CHAR, 1, |b| % 256] + y)[2];
    assert ([FRAME_CHAR, 1, |a| % 256] + x)[3..] == x && ([FRAME_CHAR, 1, |b| % 256] + y)[3..] == y;
    EscapesAlign(Escape(a), Escape(b), Trailer(1, a), Trailer(1, b), rest);
    EscapePrefix(a, b);
    var more := b[|a|..];
    assert b == a + more;
    EscapeConcat(a, more);
    assert |more| <= 2;
    SameModulo(|a|, |b|);
    assert more == [] && a == b;
  }

  lemma SameModulo(m: nat, n: nat)
    requires m % 256 == n % 256 && m <= n <= m + 2
    ensures m == n
  {
  }
}
