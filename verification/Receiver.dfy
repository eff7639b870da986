/** The receiving side of the framer: an eight-state machine fed one byte at a time. */
module Receiver {
  import opened Bytes
  import opened FrameCheck
  import opened Wire

  datatype RxState = WaitingForSync | Header1 | Header2 | Body | Fcs1 | Fcs2 | Escaped | End

  /** The receiver's fields: the state, the unescaped frame in progress, the bytes still expected. */
  datatype Rx = Rx(state: RxState, inProgress: seq<Byte>, count: int)

  /** The next receiver, and the packet handed on, if any. */
  datatype Outcome = Outcome(next: Rx, delivered: seq<seq<Byte>>)

  const INITIAL := Rx(WaitingForSync, [], 0)

  /** The receiver's final check of a frame in progress; comparisons are on 16 bits. */
  predicate Validates(rx: seq<Byte>) {
    && |rx| >= 11
    && rx[2] == |rx| % 0x1_0000 - 6
    && JoinOctets(rx[|rx| - 3], rx[|rx| - 2]) == Fcs(INITFCS, rx[1..|rx| - 3])
  }

  function StartFrame(count: int): Rx {
    Rx(Header1, [FRAME_CHAR], count)
  }

  function TakeByte(r: Rx, b: Byte): Rx {
    Rx(if r.count - 1 == 0 then Fcs1 else Body, r.inProgress + [b], r.count - 1)
  }

  /** The closing flag has come: validate, and hand on the payload. */
  function Close(r: Rx): Outcome {
    var rx := r.inProgress;
    var count := if |rx| >= 11 then rx[2] else r.count;
    if !Validates(rx) then Outcome(Rx(WaitingForSync, rx, count), [])
    else
      var packet := rx[3..|rx| - 3];
      Outcome(Rx(WaitingForSync, packet, count), if |packet| < 5 then [] else [packet])
  }

  /** One byte through the state machine. */
  function Step(r: Rx, b: Byte): Outcome {
    match r.state
    case WaitingForSync =>
      Outcome(if b == FRAME_CHAR then StartFrame(r.count) else r, [])
    case Header1 =>
      Outcome(Rx(Header2, r.inProgress + [b], r.count), [])
    case Header2 =>
      Outcome(Rx(Body, r.inProgress + [b], b), [])
    case Body =>
      if b == ESCAPE_CHAR then Outcome(r.(state := Escaped), [])
      else if b == FRAME_CHAR then Outcome(StartFrame(r.count), [])
      else Outcome(TakeByte(r, b), [])
    case Fcs1 =>
      Outcome(Rx(Fcs2, r.inProgress + [b], r.count), [])
    case Fcs2 =>
      Outcome(Rx(End, r.inProgress + [b] + [FRAME_CHAR], r.count), [])
    case End =>
      if b != FRAME_CHAR then Outcome(r.(state := WaitingForSync), []) else Close(r)
    case Escaped =>
      if b == ESCAPE_CHAR - 0x20 || b == FRAME_CHAR - 0x20 then Outcome(TakeByte(r, b + 0x20), [])
      else if b == FRAME_CHAR then Outcome(StartFrame(r.count), [])
      else Outcome(r.(state := WaitingForSync), [])
  }

  /** A string of bytes through the state machine. */
  function Run(r: Rx, w: seq<Byte>): Outcome
    decreases |w|
  {
    if w == [] then Outcome(r, [])
    else
      var first := Step(r, w[0]);
      var rest := Run(first.next, w[1..]);
      Outcome(rest.next, first.delivered + rest.delivered)
  }

  lemma {:induction false} RunConcat(r: Rx, a: seq<Byte>, b: seq<Byte>)
    ensures Run(r, a + b).next == Run(Run(r, a).next, b).next
    ensures Run(r, a + b).delivered == Run(r, a).delivered + Run(Run(r, a).next, b).delivered
    decreases |a|
  {
    hide Step;
    if a == [] {
      assert a + b == b;
    } else {
      var first := Step(r, a[0]);
      RunConcat(first.next, a[1..], b);
      assert (a + b)[0] == a[0] && (a + b)[1..] == a[1..] + b;
    }
  }

  lemma RunOne(r: Rx, b: Byte)
    ensures Run(r, [b]) == Step(r, b)
  {
    hide Step;
    assert [b][1..] == [];
  }

  lemma RunSnoc(r: Rx, a: seq<Byte>, b: Byte)
    ensures Run(r, a + [b]).next == Step(Run(r, a).next, b).next
    ensures Run(r, a + [b]).delivered == Run(r, a).delivered + Step(Run(r, a).next, b).delivered
  {
    hide Step, Run;
    RunConcat(r, a, [b]);
    RunOne(Run(r, a).next, b);
  }

  // ----- Shapes: what holds of every reachable receiver -----

  /** Between frames, or inside a payload, a flag starts a new frame. */
  predicate Restartable(r: Rx) {
    r.state in {WaitingForSync, Body, Escaped}
  }

  /** How the fields relate in each state. */
  predicate Shape(r: Rx) {
    var rx := r.inProgress;
    match r.state
    case WaitingForSync => true
    case Header1 => rx == [FRAME_CHAR]
    case Header2 => |rx| == 2 && rx[0] == FRAME_CHAR
    case Body => |rx| >= 3 && rx[0] == FRAME_CHAR && r.count + |rx| - 3 == rx[2] && (rx[2] > 0 ==> r.count > 0)
    case Escaped => |rx| >= 3 && rx[0] == FRAME_CHAR && r.count + |rx| - 3 == rx[2] && (rx[2] > 0 ==> r.count > 0)
    case Fcs1 => |rx| >= 4 && rx[0] == FRAME_CHAR && r.count == 0 && |rx| - 3 == rx[2]
    case Fcs2 => |rx| >= 5 && rx[0] == FRAME_CHAR && r.count == 0 && |rx| - 4 == rx[2]
    case End => |rx| >= 7 && rx[0] == rx[|rx| - 1] == FRAME_CHAR && r.count == 0 && |rx| - 6 == rx[2]
  }

  lemma StepShape(r: Rx, b: Byte)
    requires Shape(r)
    ensures Shape(Step(r, b).next)
  {
    hide Validates;
  }

  /** Every reachable receiver has the shape of its state. */
  lemma {:induction false} RunShape(r: Rx, w: seq<Byte>)
    requires Shape(r)
    ensures Shape(Run(r, w).next)
    decreases |w|
  {
    hide Step, Shape;
    if w != [] {
      StepShape(r, w[0]);
      RunShape(Step(r, w[0]).next, w[1..]);
    }
  }

  /** In every reachable receiver that waits for the closing flag, the length comparison and the
      final size test of the receiver cannot fail: size and check sequence alone decide. */
  lemma RedundantChecks(r: Rx)
    requires Shape(r) && r.state == End
    ensures Validates(r.inProgress) <==>
              && r.inProgress[2] >= 5
              && JoinOctets(r.inProgress[|r.inProgress| - 3], r.inProgress[|r.inProgress| - 2])
                 == Fcs(INITFCS, r.inProgress[1..|r.inProgress| - 3])
    ensures Validates(r.inProgress) <==> Step(r, FRAME_CHAR).delivered != []
  {
    hide JoinOctets, Fcs;
  }

  /** While the current length octet is not zero, a frame in progress takes at most 261 bytes. */
  lemma BufferBound(r: Rx)
    requires Shape(r) && r.state != WaitingForSync
    requires |r.inProgress| >= 3 ==> r.inProgress[2] != 0
    ensures |r.inProgress| <= 261
  {
  }
}
