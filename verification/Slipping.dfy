/** Frames met by a receiver that takes their opening flag for a version octet: how the loss of one
    frame becomes the loss of every frame, and what ends it. */
module Slipping {
  import opened Bytes
  import opened FrameCheck
  import opened Wire
  import opened Receiver
  import opened RoundTrip
  import opened Recovery

  /** The octets of a message's check sequence, as sent. */
  function FirstCheck(msg: seq<Byte>): Byte {
    Trailer(1, msg)[0]
  }

  function SecondCheck(msg: seq<Byte>): Byte {
    Trailer(1, msg)[1]
  }

  /** A message whose frame, its opening flag taken for a version octet, leaves its closing flag to be
      taken for an opening one. */
  predicate Slips(msg: seq<Byte>) {
    && 5 <= |msg| <= 255 && |msg| != 126
    && FirstCheck(msg) != FRAME_CHAR && SecondCheck(msg) != FRAME_CHAR
  }

  /** A message whose frame, so met, lets the next one through. A message of 126 octets carries a flag
      as its length octet and is read as a frame of its own: its second octet is the length then. */
  predicate ComesBack(msg: seq<Byte>)
    requires 5 <= |msg| <= 255
  {
    if |msg| != 126 || NeedsEscape(msg[0]) then FirstCheck(msg) == FRAME_CHAR
    else if NeedsEscape(msg[1]) || msg[1] == 124 then true
    else if msg[1] == 123 || (msg[1] == 122 && !NeedsEscape(msg[124]) && !NeedsEscape(msg[125])) then false
    else FirstCheck(msg) == FRAME_CHAR
  }

  // ----- The trailer, met where it is not expected -----

  lemma TrailerOutside(r: Rx, h: Byte, l: Byte)
    requires r.state == WaitingForSync
    ensures Run(r, [h, l, FRAME_CHAR]).delivered == []
    ensures Run(r, [h, l, FRAME_CHAR]).next.state
         == if h == FRAME_CHAR then Body else if l == FRAME_CHAR then Header2 else Header1
  {
    hide Close;
    RunThree(r, h, l, FRAME_CHAR);
  }

  lemma TrailerInBody(r: Rx, h: Byte, l: Byte)
    requires r.state == Body
    ensures Restartable(Run(r, [h, l, FRAME_CHAR]).next) <==> h == FRAME_CHAR
  {
    hide Close;
    RunThree(r, h, l, FRAME_CHAR);
  }

  lemma RunThree(r: Rx, a: Byte, b: Byte, c: Byte)
    ensures var r1 := Step(r, a);
            var r2 := Step(r1.next, b);
            var r3 := Step(r2.next, c);
            && Run(r, [a, b, c]).next == r3.next
            && Run(r, [a, b, c]).delivered == r1.delivered + (r2.delivered + r3.delivered)
  {
    hide Step;
    var r1 := Step(r, a);
    var r2 := Step(r1.next, b);
    assert [a, b, c][1..] == [b, c] && [b, c][1..] == [c];
    RunOne(r2.next, c);
    assert Run(r1.next, [b, c]).next == Step(r2.next, c).next;
  }

  /** Where the check sequence is expected one or two octets early, the frame ends in disorder. */
  lemma TrailerLate(r: Rx, w: seq<Byte>, h: Byte, l: Byte)
    requires r.state == Fcs1 && 1 <= |w| <= 2
    ensures !Restartable(Run(r, w + [h, l, FRAME_CHAR]).next)
  {
    hide Close;
    RunConcat(r, w, [h, l, FRAME_CHAR]);
    var r1 := Step(r, w[0]).next;
    if |w| == 1 {
      assert w == [w[0]];
      RunOne(r, w[0]);
    } else {
      assert w == [w[0], w[1]] && w[1..] == [w[1]];
      RunOne(r1, w[1]);
      assert Run(r, w).next == Step(r1, w[1]).next;
    }
    CloseWaits(Run(r, w).next);
    var q := Run(r, w).next;
    RunThree(q, h, l, FRAME_CHAR);
    CloseWaits(Step(q, h).next);
  }

  lemma CloseWaits(r: Rx)
    ensures Close(r).next.state == WaitingForSync
  {
    hide Validates;
  }

  // ----- A frame met where its version octet is expected -----

  lemma HeaderLate(r: Rx, n: Byte)
    requires r.state == Header1
    ensures Run(r, [FRAME_CHAR, 1, n]).delivered == []
    ensures var q := Run(r, [FRAME_CHAR, 1, n]).next;
            if n == FRAME_CHAR then q.state == Header1 && q.inProgress == [FRAME_CHAR]
            else if n == ESCAPE_CHAR then q.state == Escaped && q.count == 1
            else q.state == Fcs1
  {
    hide Close;
    RunThree(r, FRAME_CHAR, 1, n);
  }

  /** What is left of the payload once the receiver expects a check sequence, or an escaped octet and
      then a check sequence. */
  lemma RestOfPayload(r: Rx, w: seq<Byte>)
    requires r.state == Fcs1 || (r.state == Escaped && r.count == 1)
    requires |w| >= 5 && FRAME_CHAR !in w
    ensures Run(r, w).delivered == [] && Run(r, w).next.state == WaitingForSync
  {
    hide Close;
    if r.state == Fcs1 {
      NoTrailer(r, w);
    } else {
      var first := Step(r, w[0]);
      assert w[0] in w;
      if first.next.state == Fcs1 {
        NoTrailer(first.next, w[1..]);
      } else {
        QuietRun(first.next, w[1..]);
      }
    }
  }

  lemma FrameInThree(msg: seq<Byte>)
    requires |msg| <= 255
    ensures WireOf(msg) == [FRAME_CHAR, 1, |msg|] + Escape(msg) + [FirstCheck(msg), SecondCheck(msg), FRAME_CHAR]
    ensures |Escape(msg)| >= |msg| && FRAME_CHAR !in Escape(msg)
  {
    hide Escape, Trailer;
    SplitTrailer(1, msg);
  }

  lemma MostMet(r: Rx, msg: seq<Byte>)
    requires r.state == Header1 && 5 <= |msg| <= 255 && |msg| != 126
    ensures Run(r, WireOf(msg)).delivered == []
    ensures Run(r, WireOf(msg)).next.state
         == if FirstCheck(msg) == FRAME_CHAR then Body else if SecondCheck(msg) == FRAME_CHAR then Header2 else Header1
  {
    hide Run, Step, Escape, Trailer, FirstCheck, SecondCheck, WireOf;
    var head: seq<Byte> := [FRAME_CHAR, 1, |msg|];
    var tail := [FirstCheck(msg), SecondCheck(msg), FRAME_CHAR];
    FrameInThree(msg);
    RunConcat(r, head + Escape(msg), tail);
    RunConcat(r, head, Escape(msg));
    HeaderLate(r, |msg|);
    RestOfPayload(Run(r, head).next, Escape(msg));
    TrailerOutside(Run(r, head + Escape(msg)).next, tail[0], tail[1]);
  }

  // ----- A message of 126 octets -----

  lemma TwoOfHeader(r: Rx, a: Byte, c: Byte)
    requires r.state == Header1 && r.inProgress == [FRAME_CHAR]
    ensures Run(r, [a, c]).next == Rx(Body, [FRAME_CHAR, a, c], c)
  {
    assert [a, c][1..] == [c];
    RunOne(Step(r, a).next, c);
  }

  lemma TrailerExpected(r: Rx, h: Byte, l: Byte)
    requires r.state == Fcs1
    ensures Run(r, [h, l, FRAME_CHAR]).next.state == WaitingForSync
  {
    hide Close, Run;
    TrailerRun(r, h, l);
    CloseWaits(Rx(End, r.inProgress + [h, l, FRAME_CHAR], r.count));
  }

  /** A body that expects `r.count` octets meets the octets `p` and a trailer. */
  lemma BodyMeets(r: Rx, p: seq<Byte>, h: Byte, l: Byte)
    requires r.state == Body && r.count >= 0
    ensures var rest := if 0 < r.count <= |p| then |Escape(p[r.count..])| else 3;
            Restartable(Run(r, Escape(p) + [h, l, FRAME_CHAR]).next)
            <==> (0 < r.count == |p| || (h == FRAME_CHAR && rest >= 3))
  {
    hide Run, Step, Escape;
    var tail := [h, l, FRAME_CHAR];
    RunConcat(r, Escape(p), tail);
    if r.count == 0 || |p| < r.count {
      PayloadRun(r, p);
      TrailerInBody(Run(r, Escape(p)).next, h, l);
    } else if |p| == r.count {
      PayloadRun(r, p);
      TrailerExpected(Run(r, Escape(p)).next, h, l);
    } else {
      BodyOverrun(r, p, h, l);
    }
  }

  lemma BodyOverrun(r: Rx, p: seq<Byte>, h: Byte, l: Byte)
    requires r.state == Body && 0 < r.count < |p|
    ensures Restartable(Run(r, Escape(p) + [h, l, FRAME_CHAR]).next)
            <==> (h == FRAME_CHAR && |Escape(p[r.count..])| >= 3)
  {
    hide Run, Step, Escape;
    var tail := [h, l, FRAME_CHAR];
    var a, more := p[..r.count], p[r.count..];
    assert p == a + more;
    EscapeConcat(a, more);
    PayloadRun(r, a);
    var q := Run(r, Escape(a)).next;
    Assoc(Escape(a), Escape(more), tail);
    RunConcat(r, Escape(a), Escape(more) + tail);
    if |Escape(more)| >= 3 {
      NoTrailer(q, Escape(more));
      RunConcat(q, Escape(more), tail);
      TrailerOutside(Run(q, Escape(more)).next, h, l);
    } else {
      TrailerLate(q, Escape(more), h, l);
    }
  }

  /** The first two bytes of an escaped message. */
  function FirstTwo(msg: seq<Byte>): (r: seq<Byte>)
    requires |msg| >= 2
    ensures |r| == 2
  {
    if NeedsEscape(msg[0]) then [ESCAPE_CHAR, msg[0] - 0x20]
    else if NeedsEscape(msg[1]) then [msg[0], ESCAPE_CHAR]
    else [msg[0], msg[1]]
  }

  /** What the bytes after them are the escaped form of. */
  function Remainder(msg: seq<Byte>): seq<Byte>
    requires |msg| >= 2
  {
    if NeedsEscape(msg[0]) then msg[1..]
    else if NeedsEscape(msg[1]) then [msg[1] - 0x20] + msg[2..]
    else msg[2..]
  }

  lemma FirstTwoCases(msg: seq<Byte>)
    requires |msg| >= 2
    ensures NeedsEscape(msg[0]) ==> FirstTwo(msg) == Stuff(msg[0]) && Remainder(msg) == msg[1..]
    ensures !NeedsEscape(msg[0]) && NeedsEscape(msg[1]) ==>
              FirstTwo(msg) == [msg[0], ESCAPE_CHAR] && Remainder(msg) == [msg[1] - 0x20] + msg[1..][1..]
    ensures !NeedsEscape(msg[0]) && !NeedsEscape(msg[1]) ==>
              FirstTwo(msg) == [msg[0], msg[1]] && Remainder(msg) == msg[1..][1..]
  {
    assert msg[1..][1..] == msg[2..];
  }

  lemma EscapedTwo(msg: seq<Byte>)
    requires |msg| >= 2
    ensures Escape(msg) == FirstTwo(msg) + Escape(Remainder(msg))
  {
    hide Escape, Stuff, FirstTwo, Remainder;
    EscapeCons(msg);
    FirstTwoCases(msg);
    if !NeedsEscape(msg[0]) {
      assert Stuff(msg[0]) == [msg[0]] by {
        StuffCases(msg[0]);
      }
      EscapedSecond(msg[0], msg[1..]);
      assert msg[1..][0] == msg[1];
    }
  }

  lemma EscapedSecond(b: Byte, p: seq<Byte>)
    requires p != []
    ensures [b] + Escape(p) == if NeedsEscape(p[0]) then [b, ESCAPE_CHAR] + Escape([p[0] - 0x20] + p[1..])
                               else [b, p[0]] + Escape(p[1..])
  {
    hide Escape, Stuff;
    EscapeCons(p);
    StuffCases(p[0]);
    if NeedsEscape(p[0]) {
      PlainFirst(p[0] - 0x20, p[1..]);
      Regroup([b], [ESCAPE_CHAR], [p[0] - 0x20], Escape(p[1..]));
    } else {
      Regroup([b], [p[0]], [], Escape(p[1..]));
    }
  }

  lemma Regroup(a: seq<Byte>, b: seq<Byte>, c: seq<Byte>, x: seq<Byte>)
    ensures a + ((b + c) + x) == (a + b) + (c + x)
  {
  }

  lemma PlainFirst(c: Byte, p: seq<Byte>)
    requires !NeedsEscape(c)
    ensures Escape([c] + p) == [c] + Escape(p)
  {
    assert ([c] + p)[1..] == p;
  }

  lemma EscapeCons(p: seq<Byte>)
    requires p != []
    ensures Escape(p) == Stuff(p[0]) + Escape(p[1..])
  {
    hide Stuff;
  }

  lemma StuffCases(b: Byte)
    ensures Stuff(b) == if NeedsEscape(b) then [ESCAPE_CHAR, b - 0x20] else [b]
    ensures NeedsEscape(b) ==> !NeedsEscape(b - 0x20)
  {
  }

  lemma EscapeShort(p: seq<Byte>)
    ensures |p| == 1 ==> |Escape(p)| <= 2
    ensures |p| == 2 ==> (|Escape(p)| >= 3 <==> NeedsEscape(p[0]) || NeedsEscape(p[1]))
    ensures |Escape(p)| >= |p|
  {
    if |p| == 2 {
      assert p[1..] == [p[1]];
      EscapeOne(p[1]);
    }
  }

  lemma FlagLength(r: Rx, msg: seq<Byte>)
    requires r.state == Header1 && r.inProgress == [FRAME_CHAR] && |msg| == 126
    ensures Restartable(Run(r, Escape(msg) + [FirstCheck(msg), SecondCheck(msg), FRAME_CHAR]).next) <==> ComesBack(msg)
  {
    hide Run, Step, Escape, Trailer, FirstCheck, SecondCheck;
    var h, l := FirstCheck(msg), SecondCheck(msg);
    var tail := [h, l, FRAME_CHAR];
    EscapedTwo(msg);
    var first, p := FirstTwo(msg), Remainder(msg);
    var c := first[1];
    assert first == [first[0], c];
    Assoc(first, Escape(p), tail);
    RunConcat(r, first, Escape(p) + tail);
    TwoOfHeader(r, first[0], c);
    BodyMeets(Rx(Body, [FRAME_CHAR, first[0], c], c), p, h, l);
    if 0 < c <= |p| {
      EscapeShort(p[c..]);
      assert c == 122 && |p| == 124 ==> p[122] == msg[124] && p[123] == msg[125];
    }
  }

  /** A frame met where a version octet is expected: exactly which messages let the next frame through. */
  lemma MetInHeader(r: Rx, msg: seq<Byte>)
    requires r.state == Header1 && 5 <= |msg| <= 255
    ensures Restartable(Run(r, WireOf(msg)).next) <==> ComesBack(msg)
    ensures |msg| != 126 ==> Run(r, WireOf(msg)).delivered == []
    ensures |msg| != 126 ==> (Run(r, WireOf(msg)).next.state == Header1 <==> Slips(msg))
  {
    hide Run, Step, Escape, Trailer, FirstCheck, SecondCheck, WireOf;
    if |msg| != 126 {
      MostMet(r, msg);
    } else {
      var head: seq<Byte> := [FRAME_CHAR, 1, 126];
      var tail := [FirstCheck(msg), SecondCheck(msg), FRAME_CHAR];
      FrameInThree(msg);
      Assoc(head, Escape(msg), tail);
      RunConcat(r, head, Escape(msg) + tail);
      HeaderLate(r, 126);
      FlagLength(Run(r, head).next, msg);
    }
  }

  // ----- Whole streams -----

  predicate AllSlip(msgs: seq<seq<Byte>>) {
    forall i :: 0 <= i < |msgs| ==> Slips(msgs[i])
  }

  /** Once out of step, any number of slipping messages is lost to the last one. */
  lemma {:induction false} AllLost(r: Rx, msgs: seq<seq<Byte>>)
    requires r.state == Header1 && AllSlip(msgs)
    ensures Run(r, WireAll(msgs)).delivered == [] && Run(r, WireAll(msgs)).next.state == Header1
    decreases |msgs|
  {
    hide Run, WireOf, Slips;
    if msgs == [] {
      RunNothing(r);
    } else {
      assert Slips(msgs[0]);
      SlipSizes(msgs[0]);
      MetInHeader(r, msgs[0]);
      RunConcat(r, WireOf(msgs[0]), WireAll(msgs[1..]));
      AllLost(Run(r, WireOf(msgs[0])).next, msgs[1..]);
    }
  }

  lemma SlipSizes(msg: seq<Byte>)
    requires Slips(msg)
    ensures 5 <= |msg| <= 255 && |msg| != 126
  {
  }

  /** Slipping goes on until a message that comes back: nothing of the slipping ones is handed on, and
      after the one that comes back every message gets through; after one that does not, the next
      message is lost. Unless it has 126 octets, nothing of the last one is handed on either. */
  lemma SlippingEnds(r: Rx, msgs: seq<seq<Byte>>, last: seq<Byte>, good: seq<seq<Byte>>)
    requires r.state == Header1 && AllSlip(msgs) && 5 <= |last| <= 255
    requires forall i :: 0 <= i < |good| ==> 5 <= |good[i]| <= 255
    ensures var w := WireAll(msgs) + WireOf(last);
            && (Restartable(Run(r, w).next) <==> ComesBack(last))
            && (|last| != 126 ==> Run(r, w).delivered == [])
            && (ComesBack(last) ==> Run(r, w + WireAll(good)).delivered == Run(r, w).delivered + good)
  {
    hide Run, WireOf, AllSlip, WireAll, ComesBack;
    var slipped := Run(r, WireAll(msgs)).next;
    AllLost(r, msgs);
    RunConcat(r, WireAll(msgs), WireOf(last));
    MetInHeader(slipped, last);
    RunConcat(r, WireAll(msgs) + WireOf(last), WireAll(good));
    if ComesBack(last) {
      WireAllRun(Run(r, WireAll(msgs) + WireOf(last)).next, good);
    }
  }

  // ----- What puts the receiver out of step -----

  lemma SettledTrailer(r: Rx, h: Byte, l: Byte)
    requires Settled(r) && r.state != Escaped && h != FRAME_CHAR && l != FRAME_CHAR
    ensures Run(r, [h, l, FRAME_CHAR]).next.state == Header1
  {
    hide Close;
    RunThree(r, h, l, FRAME_CHAR);
  }

  /** An empty message, or one of more than 255 octets, costs every slipping message after it. */
  lemma UnframeableLosesAll(u: seq<Byte>, first: seq<Byte>, msgs: seq<seq<Byte>>)
    requires Restartable(Run(INITIAL, u).next)
    requires |first| == 0 || |first| > 255
    requires FirstCheck(first) != FRAME_CHAR && SecondCheck(first) != FRAME_CHAR && AllSlip(msgs)
    ensures Run(INITIAL, u + WireOf(first) + WireAll(msgs)).delivered == Run(INITIAL, u).delivered
  {
    hide Run, Step, Escape, Trailer, WireAll, WireOf, AllSlip;
    var r := Run(INITIAL, u).next;
    SendReceive(r, first);
    RunConcat(INITIAL, u, WireOf(first));
    UnframeableSlips(r, first);
    RunConcat(INITIAL, u + WireOf(first), WireAll(msgs));
    AllLost(Run(r, WireOf(first)).next, msgs);
  }

  lemma UnframeableSlips(r: Rx, first: seq<Byte>)
    requires Restartable(r) && (|first| == 0 || |first| > 255)
    requires FirstCheck(first) != FRAME_CHAR && SecondCheck(first) != FRAME_CHAR
    ensures Run(r, WireOf(first)).next.state == Header1
  {
    hide Run, Step, Escape, Trailer;
    var n: Byte := |first| % 256;
    var head: seq<Byte> := [FRAME_CHAR, 1, n];
    var tail := Trailer(1, first);
    SplitTrailer(1, first);
    HeaderRun(r, 1, n);
    RunConcat(r, head + Escape(first), tail);
    RunConcat(r, head, Escape(first));
    if n == 0 {
      PayloadRun(Rx(Body, head, 0), first);
    } else {
      LongPayload(Rx(Body, head, n), first);
    }
    SettledTrailer(Run(r, head + Escape(first)).next, tail[0], tail[1]);
  }

  /** An empty message from the start: nothing at all comes out of any list of slipping messages. */
  lemma EmptyMessageLosesAll(msgs: seq<seq<Byte>>)
    requires AllSlip(msgs)
    ensures Run(INITIAL, WireOf([]) + WireAll(msgs)).delivered == []
  {
    hide Run, Step, WireAll, WireOf, AllSlip, Trailer;
    RunNothing(INITIAL);
    EmptyCheckOctets();
    UnframeableLosesAll([], [], msgs);
    assert [] + WireOf([]) + WireAll(msgs) == WireOf([]) + WireAll(msgs);
  }

  lemma EmptyCheckOctets()
    ensures FirstCheck([]) != FRAME_CHAR && SecondCheck([]) != FRAME_CHAR
  {
    hide Fcs, HighOctet, LowOctet;
    EmptyCheckSequence();
    assert LowByte(0xe960) == 0x60;
    assert OctetWord(FRAME_CHAR) == 0x7e;
  }

  /** A flag shared by two frames costs the second message, if that one slips, and every slipping
      message after it. */
  lemma SharedFlagLosesAll(a: seq<Byte>, b: seq<Byte>, msgs: seq<seq<Byte>>)
    requires 5 <= |a| <= 255 && Slips(b) && AllSlip(msgs)
    ensures Run(INITIAL, WireOf(a) + WireOf(b)[1..] + WireAll(msgs)).delivered == [a]
  {
    hide Run, Step, Escape, WireAll, AllSlip, FirstCheck, SecondCheck, WireOf;
    var r := Run(INITIAL, WireOf(a)).next;
    var body := [1, |b|] + Escape(b);
    var tail := [FirstCheck(b), SecondCheck(b), FRAME_CHAR];
    SendReceive(INITIAL, a);
    FrameInThree(b);
    assert WireOf(b)[1..] == body + tail;
    RunConcat(INITIAL, WireOf(a), WireOf(b)[1..]);
    RunConcat(r, body, tail);
    QuietRun(r, body);
    TrailerOutside(r, tail[0], tail[1]);
    RunConcat(INITIAL, WireOf(a) + WireOf(b)[1..], WireAll(msgs));
    AllLost(Run(INITIAL, WireOf(a) + WireOf(b)[1..]).next, msgs);
  }

  /** A frame cut after its opening flag costs every slipping message after it. */
  lemma LoneFlagLosesAll(u: seq<Byte>, msgs: seq<seq<Byte>>)
    requires Restartable(Run(INITIAL, u).next) && AllSlip(msgs)
    ensures Run(INITIAL, u + [FRAME_CHAR] + WireAll(msgs)).delivered == Run(INITIAL, u).delivered
  {
    hide Run, WireAll, AllSlip;
    var r := Run(INITIAL, u).next;
    RunConcat(INITIAL, u, [FRAME_CHAR]);
    RunOne(r, FRAME_CHAR);
    RunConcat(INITIAL, u + [FRAME_CHAR], WireAll(msgs));
    AllLost(Run(INITIAL, u + [FRAME_CHAR]).next, msgs);
  }
}
