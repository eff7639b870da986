/** Exactly which byte streams make the receiver hand on which packets. */
module Language {
  import opened Bytes
  import opened FrameCheck
  import opened Wire
  import opened Receiver
  import opened RoundTrip

  // ----- The bytes consumed since the opening flag -----

  /** The wire bytes that a frame in progress stands for. */
  function Raw(r: Rx): seq<Byte>
    requires Shape(r)
  {
    var rx := r.inProgress;
    match r.state
    case WaitingForSync => []
    case Header1 => rx
    case Header2 => rx
    case Body => rx[..3] + Escape(rx[3..])
    case Escaped => rx[..3] + Escape(rx[3..]) + [ESCAPE_CHAR]
    case Fcs1 => rx[..3] + Escape(rx[3..])
    case Fcs2 => rx[..3] + Escape(rx[3..|rx| - 1]) + rx[|rx| - 1..]
    case End => rx[..3] + Escape(rx[3..|rx| - 3]) + rx[|rx| - 3..|rx| - 1]
  }

  lemma EscapeSnoc(p: seq<Byte>, b: Byte)
    ensures Escape(p + [b]) == Escape(p) + Stuff(b)
  {
    EscapeConcat(p, [b]);
    EscapeOne(b);
  }

  lemma RawOfTaken(r: Rx, b: Byte)
    requires Shape(r) && r.state in {Body, Escaped}
    ensures Shape(TakeByte(r, b))
    ensures Raw(TakeByte(r, b)) == r.inProgress[..3] + Escape(r.inProgress[3..]) + Stuff(b)
  {
    hide Escape, Stuff;
    var rx := r.inProgress;
    var rx' := rx + [b];
    assert rx'[..3] == rx[..3] && rx'[3..] == rx[3..] + [b];
    EscapeSnoc(rx[3..], b);
    Assoc(rx[..3], Escape(rx[3..]), Stuff(b));
  }

  lemma RawOfHeader(rx: seq<Byte>)
    requires |rx| == 3
    ensures rx[..3] + Escape(rx[3..]) == rx
  {
    assert |Escape(rx[3..])| == 0;
  }

  lemma StepRawEscaped(r: Rx, b: Byte)
    requires Shape(r) && r.state == Escaped && (b == ESCAPE_CHAR - 0x20 || b == FRAME_CHAR - 0x20)
    ensures Shape(TakeByte(r, b + 0x20))
    ensures Raw(TakeByte(r, b + 0x20)) == Raw(r) + [b]
  {
    hide Escape;
    var rx := r.inProgress;
    RawOfTaken(r, b + 0x20);
    Assoc(rx[..3] + Escape(rx[3..]), [ESCAPE_CHAR], [b]);
    assert Stuff(b + 0x20) == [ESCAPE_CHAR] + [b];
  }

  lemma StepRawFcs1(r: Rx, b: Byte)
    requires Shape(r) && r.state == Fcs1
    ensures Shape(Step(r, b).next)
    ensures Raw(Step(r, b).next) == Raw(r) + [b]
  {
    hide Escape;
    var rx := r.inProgress;
    var rx' := rx + [b];
    assert rx'[..3] == rx[..3];
    assert rx'[3..|rx'| - 1] == rx[3..];
    assert rx'[|rx'| - 1..] == [b];
  }

  lemma StepRawFcs2(r: Rx, b: Byte)
    requires Shape(r) && r.state == Fcs2
    ensures Shape(Step(r, b).next)
    ensures Raw(Step(r, b).next) == Raw(r) + [b]
  {
    hide Escape;
    var rx := r.inProgress;
    var rx' := rx + [b] + [FRAME_CHAR];
    assert rx'[..3] == rx[..3];
    assert rx'[3..|rx'| - 3] == rx[3..|rx| - 1];
    assert rx'[|rx'| - 3..|rx'| - 1] == rx[|rx| - 1..] + [b];
    Assoc(rx[..3] + Escape(rx[3..|rx| - 1]), rx[|rx| - 1..], [b]);
  }

  /** A byte that does not end the frame in progress extends its wire bytes; a byte that starts one
      is a flag, met where flags start frames. */
  lemma StepRaw(r: Rx, b: Byte)
    requires Shape(r)
    ensures Shape(Step(r, b).next)
    ensures var r' := Step(r, b).next;
            || r'.state == WaitingForSync
            || (r.state != WaitingForSync && Raw(r') == Raw(r) + [b])
            || (Restartable(r) && b == FRAME_CHAR && Raw(r') == [FRAME_CHAR])
  {
    hide Escape, Close;
    StepShape(r, b);
    match r.state {
      case WaitingForSync =>
      case Header1 =>
      case Header2 =>
        RawOfHeader(r.inProgress + [b]);
      case Body =>
        if !NeedsEscape(b) {
          RawOfTaken(r, b);
        }
      case Escaped =>
        if b == ESCAPE_CHAR - 0x20 || b == FRAME_CHAR - 0x20 {
          StepRawEscaped(r, b);
        }
      case Fcs1 => StepRawFcs1(r, b);
      case Fcs2 => StepRawFcs2(r, b);
      case End =>
        EndWaits(r, b);
    }
  }

  lemma EndWaits(r: Rx, b: Byte)
    requires r.state == End
    ensures Step(r, b).next.state == WaitingForSync
  {
  }

  /** A frame in progress began at a flag where flags start frames, and everything since is its
      wire bytes. */
  ghost predicate Explained(r: Rx, w: seq<Byte>)
    requires Shape(r)
  {
    r.state == WaitingForSync
    || exists u :: w == u + Raw(r) && Restartable(Run(INITIAL, u).next)
  }

  /** Every reachable receiver is explained by the bytes it has read. */
  lemma {:induction false} RunExplained(w: seq<Byte>)
    ensures Shape(Run(INITIAL, w).next)
    ensures Explained(Run(INITIAL, w).next, w)
    decreases |w|
  {
    hide Run, Step, Shape, Raw;
    if w == [] {
      RunNothing(INITIAL);
      InitialShape();
    } else {
      var w0, b := w[..|w| - 1], w[|w| - 1];
      assert w == w0 + [b];
      RunExplained(w0);
      var r := Run(INITIAL, w0).next;
      RunSnoc(INITIAL, w0, b);
      StepRaw(r, b);
      var r' := Run(INITIAL, w).next;
      if r'.state == WaitingForSync {
      } else if r.state != WaitingForSync && Raw(r') == Raw(r) + [b] {
        var u :| w0 == u + Raw(r) && Restartable(Run(INITIAL, u).next);
        Assoc(u, Raw(r), [b]);
        assert w == u + Raw(r');
      } else {
        assert w == w0 + Raw(r');
      }
    }
  }

  lemma InitialShape()
    ensures Shape(INITIAL)
  {
  }

  // ----- Where flags start frames, told from the bytes alone -----

  /** A started frame that a flag does not restart: its flag, its version, or everything up to its
      check sequence, but not its closing flag. */
  ghost predicate Busy(t: seq<Byte>) {
    || (1 <= |t| <= 2 && t[0] == FRAME_CHAR)
    || exists v, p, x :: 1 <= |p| <= 255 && |x| <= 2 && t == PayloadPart(v, p) + x
  }

  function PayloadPart(v: Byte, p: seq<Byte>): seq<Byte>
    requires |p| <= 255
  {
    [FRAME_CHAR, v, |p|] + Escape(p)
  }

  /** A stream after which a flag starts a frame. No receiver appears in this definition. */
  ghost predicate Ready(u: seq<Byte>)
    decreases |u|
  {
    forall k :: 0 <= k < |u| && Busy(u[k..]) ==> !Ready(u[..k])
  }

  lemma PayloadPartRun(r: Rx, v: Byte, p: seq<Byte>)
    requires Restartable(r) && 1 <= |p| <= 255
    ensures Run(r, PayloadPart(v, p)) == Outcome(Rx(Fcs1, [FRAME_CHAR, v, |p|] + p, 0), [])
  {
    hide Run, Step, Escape;
    RunConcat(r, [FRAME_CHAR, v, |p|], Escape(p));
    HeaderRun(r, v, |p|);
    PayloadRun(Rx(Body, [FRAME_CHAR, v, |p|], |p|), p);
  }

  lemma UpToTwo(r: Rx, x: seq<Byte>)
    requires r.state == Fcs1 && |x| <= 2
    ensures Run(r, x).delivered == []
    ensures Run(r, x).next.state == if |x| == 0 then Fcs1 else if |x| == 1 then Fcs2 else End
  {
    if |x| == 1 {
      RunOne(r, x[0]);
      assert x == [x[0]];
    } else if |x| == 2 {
      assert x[1..] == [x[1]];
      RunOne(Step(r, x[0]).next, x[1]);
    }
  }

  lemma HeaderBusy(r: Rx, t: seq<Byte>)
    requires Restartable(r) && 1 <= |t| <= 2 && t[0] == FRAME_CHAR
    ensures !Restartable(Run(r, t).next)
  {
    hide Close, TakeByte;
    var r1 := Step(r, FRAME_CHAR).next;
    assert r1.state == Header1;
    if |t| == 1 {
      RunOne(r, FRAME_CHAR);
      assert t == [FRAME_CHAR];
    } else {
      RunOne(r1, t[1]);
      assert t[1..] == [t[1]];
      assert Run(r, t).next == Run(r1, [t[1]]).next;
    }
  }

  lemma BusyRun(r: Rx, t: seq<Byte>)
    requires Restartable(r) && Busy(t)
    ensures !Restartable(Run(r, t).next)
  {
    hide PayloadPart, Run, Step;
    if 1 <= |t| <= 2 && t[0] == FRAME_CHAR {
      HeaderBusy(r, t);
    } else {
      var v, p, x :| 1 <= |p| <= 255 && |x| <= 2 && t == PayloadPart(v, p) + x;
      PayloadPartRun(r, v, p);
      RunConcat(r, PayloadPart(v, p), x);
      UpToTwo(Run(r, PayloadPart(v, p)).next, x);
    }
  }

  lemma PayloadPartOf(rx: seq<Byte>, p: seq<Byte>, x: seq<Byte>)
    requires |rx| >= 3 && rx[0] == FRAME_CHAR && rx[2] == |p| && 1 <= |p| <= 255 && |x| <= 2
    ensures Busy(rx[..3] + Escape(p) + x)
  {
    hide Escape;
    assert rx[..3] == [FRAME_CHAR, rx[1], |p|];
    assert PayloadPart(rx[1], p) + x == rx[..3] + Escape(p) + x;
  }

  lemma RawIsBusy(r: Rx)
    requires Shape(r) && !Restartable(r)
    ensures Busy(Raw(r))
  {
    hide Escape, Busy;
    var rx := r.inProgress;
    match r.state {
      case Header1 => HeaderIsBusy(rx);
      case Header2 => HeaderIsBusy(rx);
      case Fcs1 =>
        PayloadPartOf(rx, rx[3..], []);
        assert Raw(r) + [] == Raw(r);
      case Fcs2 =>
        PayloadPartOf(rx, rx[3..|rx| - 1], rx[|rx| - 1..]);
      case End =>
        PayloadPartOf(rx, rx[3..|rx| - 3], rx[|rx| - 3..|rx| - 1]);
    }
  }

  lemma HeaderIsBusy(t: seq<Byte>)
    requires 1 <= |t| <= 2 && t[0] == FRAME_CHAR
    ensures Busy(t)
  {
  }

  /** The receiver is in a state in which flags start frames exactly when the bytes so far say so. */
  lemma {:induction false} ReadyIsRestartable(u: seq<Byte>)
    ensures Ready(u) <==> Restartable(Run(INITIAL, u).next)
    decreases |u|
  {
    hide Run, Shape, Raw, Busy;
    forall k | 0 <= k < |u| && Busy(u[k..]) ensures Ready(u[..k]) ==> !Restartable(Run(INITIAL, u).next) {
      ReadyIsRestartable(u[..k]);
      if Ready(u[..k]) {
        RunConcat(INITIAL, u[..k], u[k..]);
        assert u == u[..k] + u[k..];
        BusyRun(Run(INITIAL, u[..k]).next, u[k..]);
      }
    }
    if !Restartable(Run(INITIAL, u).next) {
      var r := Run(INITIAL, u).next;
      RunExplained(u);
      var u' :| u == u' + Raw(r) && Restartable(Run(INITIAL, u').next);
      RawIsBusy(r);
      BusyNotEmpty(Raw(r));
      assert u[|u'|..] == Raw(r) && u[..|u'|] == u';
      ReadyIsRestartable(u');
    }
  }

  lemma BusyNotEmpty(t: seq<Byte>)
    requires Busy(t)
    ensures t != []
  {
  }

  // ----- Soundness and completeness -----

  /** What the last byte of a stream makes the receiver hand on. */
  function LastDelivery(w: seq<Byte>): seq<seq<Byte>> {
    if w == [] then [] else Step(Run(INITIAL, w[..|w| - 1]).next, w[|w| - 1]).delivered
  }

  lemma CloseDelivers(r: Rx, p: seq<Byte>)
    requires Shape(r) && r.state == End
    requires Step(r, FRAME_CHAR).delivered == [p]
    ensures 5 <= |p| <= 255
    ensures Raw(r) + [FRAME_CHAR] == Frame(r.inProgress[1], p)
  {
    hide Escape, Fcs, JoinOctets;
    var rx := r.inProgress;
    assert p == rx[3..|rx| - 3] && |p| == rx[2];
    var v, h, l := rx[1], rx[|rx| - 3], rx[|rx| - 2];
    assert rx[..3] == [FRAME_CHAR, v, |p|];
    assert rx[1..|rx| - 3] == Covered(v, p);
    JoinSplit(Fcs(INITFCS, Covered(v, p)), h, l);
    assert rx[|rx| - 3..|rx| - 1] == [h, l];
    assert Trailer(v, p) == [h, l] + [FRAME_CHAR];
    Assoc(rx[..3] + Escape(p), [h, l], [FRAME_CHAR]);
  }

  lemma OnlyEndDelivers(r: Rx, b: Byte)
    requires Step(r, b).delivered != []
    ensures r.state == End && b == FRAME_CHAR
    ensures |Step(r, b).delivered| == 1
  {
  }

  /** Soundness: whenever a packet is handed on, it has 5 to 255 octets and the stream so far ends
      with a frame of that packet, its check sequence right, begun where flags start frames. */
  lemma Soundness(w: seq<Byte>, p: seq<Byte>)
    returns (u: seq<Byte>, v: Byte)
    requires p in LastDelivery(w)
    ensures LastDelivery(w) == [p]
    ensures 5 <= |p| <= 255
    ensures w == u + Frame(v, p) && Restartable(Run(INITIAL, u).next)
  {
    hide Run, Step, Raw, Frame;
    var w0, b := w[..|w| - 1], w[|w| - 1];
    var r := Run(INITIAL, w0).next;
    RunExplained(w0);
    OnlyEndDelivers(r, b);
    assert LastDelivery(w) == [p];
    CloseDelivers(r, p);
    u :| w0 == u + Raw(r) && Restartable(Run(INITIAL, u).next);
    v := r.inProgress[1];
    Assoc(u, Raw(r), [FRAME_CHAR]);
    assert w == w0 + [b];
  }

  lemma LastOfRun(u: seq<Byte>, w: seq<Byte>)
    requires w != []
    ensures LastDelivery(u + w)
         == Step(Run(Run(INITIAL, u).next, w[..|w| - 1]).next, w[|w| - 1]).delivered
  {
    hide Run, Step;
    assert (u + w)[..|u + w| - 1] == u + w[..|w| - 1];
    RunConcat(INITIAL, u, w[..|w| - 1]);
  }

  lemma FrameButLast(v: Byte, p: seq<Byte>)
    requires |p| <= 255
    ensures Frame(v, p) == PayloadPart(v, p) + Trailer(v, p)[..2] + [FRAME_CHAR]
  {
    hide Escape, Fcs;
    var tail := Trailer(v, p);
    assert tail == tail[..2] + [FRAME_CHAR];
    Assoc(PayloadPart(v, p), tail[..2], [FRAME_CHAR]);
  }

  lemma FrameEndsAtEnd(r: Rx, v: Byte, p: seq<Byte>)
    requires Restartable(r) && 5 <= |p| <= 255
    ensures Run(r, Frame(v, p)[..|Frame(v, p)| - 1]).delivered == []
    ensures Step(Run(r, Frame(v, p)[..|Frame(v, p)| - 1]).next, FRAME_CHAR).delivered == [p]
  {
    hide Run, Step, Frame, PayloadPart, Trailer;
    var tail := Trailer(v, p)[..2];
    var most := PayloadPart(v, p) + tail;
    FrameButLast(v, p);
    assert Frame(v, p)[..|Frame(v, p)| - 1] == most;
    RunConcat(r, PayloadPart(v, p), tail);
    PayloadPartRun(r, v, p);
    UpToTwo(Run(r, PayloadPart(v, p)).next, tail);
    RunSnoc(r, most, FRAME_CHAR);
    FrameRun(r, v, p);
  }

  /** The accepted language: the last byte of a stream hands on packet p exactly when p has 5 to 255
      octets and the stream ends with a frame of p that begins where flags start frames. The right-hand
      side speaks of bytes only. */
  lemma Accepted(w: seq<Byte>, p: seq<Byte>)
    ensures LastDelivery(w) == [p] <==>
              && 5 <= |p| <= 255
              && exists u, v :: w == u + Frame(v, p) && Ready(u)
  {
    hide Run, Step, Frame, LastDelivery, Ready;
    if LastDelivery(w) == [p] {
      assert p in LastDelivery(w);
      var u, v := Soundness(w, p);
      ReadyIsRestartable(u);
    }
    if 5 <= |p| <= 255 {
      forall u, v | w == u + Frame(v, p) && Ready(u)
        ensures LastDelivery(w) == [p]
      {
        ReadyIsRestartable(u);
        FrameShape(v, p);
        FrameEndsAtEnd(Run(INITIAL, u).next, v, p);
        LastOfRun(u, Frame(v, p));
      }
    }
  }

  lemma FrameShape(v: Byte, p: seq<Byte>)
    ensures |Frame(v, p)| == 6 + |Escape(p)|
    ensures Frame(v, p)[0] == Frame(v, p)[|Frame(v, p)| - 1] == FRAME_CHAR
    ensures Frame(v, p)[1] == v
  {
    hide Escape, Fcs;
  }

  /** A message's frame gets through, after any stream whatever, exactly when the receiver was in a
      state in which flags start frames. */
  lemma GetsThrough(u: seq<Byte>, msg: seq<Byte>)
    requires 5 <= |msg| <= 255
    ensures LastDelivery(u + WireOf(msg)) == [msg] <==> Restartable(Run(INITIAL, u).next)
  {
    hide Run, Step, Frame, LastDelivery, Ready;
    ReadyIsRestartable(u);
    Accepted(u + WireOf(msg), msg);
    forall u', v | u + WireOf(msg) == u' + Frame(v, msg)
      ensures u' == u
    {
      FrameShape(v, msg);
      FrameShape(1, msg);
      assert |u| == |u'|;
      assert u == (u + WireOf(msg))[..|u|];
      assert u' == (u' + Frame(v, msg))[..|u'|];
    }
  }

  /** Whatever the receiver hands on over a whole stream, in whatever order, is a packet of 5 to 255
      octets. */
  lemma {:induction false} DeliveredSizes(w: seq<Byte>)
    ensures forall p :: p in Run(INITIAL, w).delivered ==> 5 <= |p| <= 255
    decreases |w|
  {
    hide Run, Step;
    if w == [] {
      RunNothing(INITIAL);
    } else {
      var w0, b := w[..|w| - 1], w[|w| - 1];
      assert w == w0 + [b];
      DeliveredSizes(w0);
      RunSnoc(INITIAL, w0, b);
      forall p | p in LastDelivery(w) ensures 5 <= |p| <= 255 {
        var u, v := Soundness(w, p);
      }
    }
  }
}
