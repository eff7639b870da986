/** The framer object: the receiver's fields, the queue of received packets, and the serial line. */
module Framer {
  import opened Bytes
  import opened CrcRegister
  import opened FrameCheck
  import opened Wire
  import opened Receiver
  import opened RoundTrip
  import opened Language
  import opened Sending

  /** The packet-preserving queue's reader takes at most this many bytes of a packet. */
  const MAX_PKT := 4096

  function Whole(p: seq<Byte>): seq<Byte> {
    if |p| <= MAX_PKT then p else p[..MAX_PKT]
  }

  /** The receiver together with the packets it has handed on and nobody has fetched. */
  datatype Port = Port(rx: Rx, queue: seq<seq<Byte>>)

  const NEW_PORT := Port(INITIAL, [])

  /** One byte off the line; `room` says whether the queue would take a packet now. */
  function ByteIn(port: Port, b: Byte, room: bool): Port {
    var o := Step(port.rx, b);
    Port(o.next, port.queue + if room then o.delivered else [])
  }

  /** What `receive` returns: the first packet, or nothing when there is none. */
  function Fetched(port: Port): seq<Byte> {
    if port.queue == [] then [] else Whole(port.queue[0])
  }

  function AfterFetch(port: Port): Port {
    if port.queue == [] then port else port.(queue := port.queue[1..])
  }

  class MctpFramer {
    var rxState: RxState
    var rxInProgress: seq<Byte>
    var byteCount: int
    var pipe: seq<seq<Byte>>
    var line: seq<Byte>

    ghost function State(): Port
      reads this
    {
      Port(Rx(rxState, rxInProgress, byteCount), pipe)
    }

    constructor ()
      ensures State() == NEW_PORT
      ensures line == []
    {
      rxState := WaitingForSync;
      rxInProgress := [];
      byteCount := 0;
      pipe := [];
      line := [];
    }

    /** Checks the frame in progress; the byte count is read back from the frame. */
    method ValidateRx() returns (ok: bool)
      modifies this`byteCount
      ensures ok == Validates(rxInProgress)
      ensures byteCount == if |rxInProgress| >= 11 then rxInProgress[2] else old(byteCount)
    {
      hide Fcs, FcsBits, Bits, JoinOctets;
      if |rxInProgress| < 11 {
        return false;
      }
      byteCount := rxInProgress[2];
      if byteCount % 0x1_0000 != |rxInProgress| % 0x1_0000 - 6 {
        return false;
      }
      var fcs := CalcFcs(INITFCS, rxInProgress[1..|rxInProgress| - 3]);
      var msgFcs := JoinOctets(rxInProgress[|rxInProgress| - 3], rxInProgress[|rxInProgress| - 2]);
      if msgFcs != fcs {
        return false;
      }
      return true;
    }

    method Restart()
      modifies this`rxState, this`rxInProgress
      ensures rxState == Header1 && rxInProgress == [FRAME_CHAR]
    {
      rxState := Header1;
      rxInProgress := [];
      rxInProgress := rxInProgress + [FRAME_CHAR];
    }

    /** One turn of the receive machine on a byte read from the port. */
    method UpdateRxFsm(b: Byte, room: bool)
      modifies this`rxState, this`rxInProgress, this`byteCount, this`pipe
      ensures State() == ByteIn(old(State()), b, room)
    {
      hide Validates;
      match rxState {
        case WaitingForSync =>
          if b == FRAME_CHAR {
            Restart();
          }
        case Header1 =>
          rxInProgress := rxInProgress + [b];
          rxState := Header2;
        case Header2 =>
          rxInProgress := rxInProgress + [b];
          byteCount := b;
          rxState := Body;
        case Body =>
          if b == ESCAPE_CHAR {
            rxState := Escaped;
          } else if b == FRAME_CHAR {
            Restart();
          } else {
            rxInProgress := rxInProgress + [b];
            byteCount := byteCount - 1;
            if byteCount == 0 {
              rxState := Fcs1;
            }
          }
        case Fcs1 =>
          rxInProgress := rxInProgress + [b];
          rxState := Fcs2;
        case Fcs2 =>
          rxInProgress := rxInProgress + [b];
          rxInProgress := rxInProgress + [FRAME_CHAR];
          rxState := End;
        case End =>
          if b != FRAME_CHAR {
            rxState := WaitingForSync;
          } else {
            CompleteFrame(room);
          }
        case Escaped =>
          if b == ESCAPE_CHAR - 0x20 || b == FRAME_CHAR - 0x20 {
            rxInProgress := rxInProgress + [b + 0x20];
            byteCount := byteCount - 1;
            if byteCount == 0 {
              rxState := Fcs1;
            } else {
              rxState := Body;
            }
          } else if b == FRAME_CHAR {
            Restart();
          } else {
            rxState := WaitingForSync;
          }
      }
    }

    /** The closing flag of a frame has come. */
    method CompleteFrame(room: bool)
      modifies this`rxState, this`rxInProgress, this`byteCount, this`pipe
      ensures var o := Close(old(State()).rx);
              State() == Port(o.next, old(pipe) + if room then o.delivered else [])
    {
      hide Validates;
      ghost var rx := rxInProgress;
      var ok := ValidateRx();
      if ok {
        ValidatedSize(rxInProgress);
        rxInProgress := rxInProgress[3..];
        rxInProgress := rxInProgress[..|rxInProgress| - 3];
        var packet := rxInProgress;
        assert packet == rx[3..|rx| - 3];
        if |packet| < 5 {
          rxState := WaitingForSync;
          return;
        }
        if room {
          pipe := pipe + [packet];
        }
        rxState := WaitingForSync;
      } else {
        rxState := WaitingForSync;
      }
    }

    /** Fetch a packet, or nothing. */
    method Receive() returns (packet: seq<Byte>)
      modifies this`pipe
      ensures packet == Fetched(old(State()))
      ensures old(pipe) == [] ==> packet == []
      ensures old(pipe) != [] ==>
                packet == if |old(pipe[0])| <= 4096 then old(pipe[0]) else old(pipe[0][..4096])
      ensures State() == AfterFetch(old(State()))
    {
      if pipe == [] {
        return [];
      }
      packet := Whole(pipe[0]);
      pipe := pipe[1..];
    }

    /** Frame a message, escape it, and write it under a schedule of write calls. */
    method Send(msg: seq<Byte>, calls: seq<WriteCall>)
      modifies this`line
      ensures line == old(line) + Written(WireOf(msg), calls)
    {
      hide FcsBits, Fcs, Bits, Frame, FullMessage, EscapeInterior, HighOctet, LowOctet;
      var full: seq<Byte> := [FRAME_CHAR, 0x01, |msg| % 256];
      full := full + msg;
      assert full[1..] == Covered(1, msg);
      var fcs := CalcFcs(INITFCS, full[1..]);
      full := full + [HighOctet(fcs)];
      full := full + [LowOctet(fcs)];
      full := full + [FRAME_CHAR];
      AssembledIsFull(msg, full);
      InteriorOfFull(1, msg);
      TransmitFrame(full, calls);
    }

    method TransmitFrame(full: seq<Byte>, calls: seq<WriteCall>)
      modifies this`line
      ensures line == old(line) + Written(EscapeInterior(full), calls)
    {
      var out := EscapeFull(full);
      var result, written := WriteAll(out, calls);
      line := line + written;
    }
  }

  lemma AssembledIsFull(msg: seq<Byte>, full: seq<Byte>)
    requires var f := Fcs(INITFCS, Covered(1, msg));
             full == [FRAME_CHAR, 0x01, |msg| % 256] + msg + [HighOctet(f)] + [LowOctet(f)] + [FRAME_CHAR]
    ensures full == FullMessage(1, msg)
  {
    hide Fcs, HighOctet, LowOctet;
  }

  lemma ValidatedSize(rx: seq<Byte>)
    requires Validates(rx)
    ensures |rx| >= 6
  {
  }

  // ----- Interleavings of bytes received and packets fetched -----

  datatype PortEvent = Arrives(b: Byte, room: bool) | Fetch

  /** What a run of events leaves behind: the port, the packets the queue took, and the packets
      fetched (empty-handed fetches not counted). */
  datatype PortRun = PortRun(port: Port, taken: seq<seq<Byte>>, fetched: seq<seq<Byte>>)

  function RunPort(port: Port, events: seq<PortEvent>): PortRun
    decreases |events|
  {
    if events == [] then PortRun(port, [], [])
    else match events[0]
      case Arrives(b, room) =>
        var rest := RunPort(ByteIn(port, b, room), events[1..]);
        rest.(taken := (if room then Step(port.rx, b).delivered else []) + rest.taken)
      case Fetch =>
        var rest := RunPort(AfterFetch(port), events[1..]);
        rest.(fetched := (if port.queue == [] then [] else [Fetched(port)]) + rest.fetched)
  }

  function BytesIn(events: seq<PortEvent>): seq<Byte> {
    if events == [] then []
    else (if events[0].Arrives? then [events[0].b] else []) + BytesIn(events[1..])
  }

  /** `a` is `b` with some elements left out. */
  predicate Subsequence<T(==)>(a: seq<T>, b: seq<T>)
    decreases |b|
  {
    if a == [] then true
    else if b == [] then false
    else (a[0] == b[0] && Subsequence(a[1..], b[1..])) || Subsequence(a, b[1..])
  }

  lemma {:induction false} SubsequenceSelf<T>(a: seq<T>)
    ensures Subsequence(a, a)
  {
    if a != [] {
      SubsequenceSelf(a[1..]);
    }
  }

  lemma {:induction false} SubsequenceConcat<T>(a: seq<T>, b: seq<T>, c: seq<T>, d: seq<T>)
    requires Subsequence(a, b) && Subsequence(c, d)
    ensures Subsequence(a + c, b + d)
    decreases |b|
  {
    if b == [] {
      assert a + c == c && b + d == d;
    } else {
      assert (b + d)[0] == b[0] && (b + d)[1..] == b[1..] + d;
      if a != [] && a[0] == b[0] && Subsequence(a[1..], b[1..]) {
        SubsequenceConcat(a[1..], b[1..], c, d);
        assert (a + c)[0] == a[0] && (a + c)[1..] == a[1..] + c;
      } else {
        if a == [] {
          assert Subsequence(a, b[1..]);
        }
        SubsequenceConcat(a, b[1..], c, d);
        SubsequenceDrop(a + c, b + d);
      }
    }
  }

  lemma SubsequenceDrop<T>(a: seq<T>, b: seq<T>)
    requires b != [] && Subsequence(a, b[1..])
    ensures Subsequence(a, b)
  {
  }

  predicate Small(p: seq<Byte>) {
    5 <= |p| <= 255
  }

  /** A receiver that keeps its shape hands on only packets of 5 to 255 octets. */
  lemma StepDelivers(rx: Rx, b: Byte)
    requires Shape(rx)
    ensures Shape(Step(rx, b).next)
    ensures forall i :: 0 <= i < |Step(rx, b).delivered| ==> Small(Step(rx, b).delivered[i])
  {
    hide Shape, Step;
    StepShape(rx, b);
    if Step(rx, b).delivered != [] {
      OnlyEndDelivers(rx, b);
      CloseDelivers(rx, Step(rx, b).delivered[0]);
    }
  }

  lemma {:induction false} QueueOrder(port: Port, events: seq<PortEvent>)
    requires Shape(port.rx)
    requires forall i :: 0 <= i < |port.queue| ==> Small(port.queue[i])
    ensures var run := RunPort(port, events); run.fetched + run.port.queue == port.queue + run.taken
    decreases |events|
  {
    hide Shape, Step;
    if events != [] {
      match events[0]
      case Arrives(b, room) =>
        var took := if room then Step(port.rx, b).delivered else [];
        var rest := RunPort(ByteIn(port, b, room), events[1..]);
        StepDelivers(port.rx, b);
        QueueOrder(ByteIn(port, b, room), events[1..]);
        Assoc(port.queue, took, rest.taken);
      case Fetch =>
        var rest := RunPort(AfterFetch(port), events[1..]);
        QueueOrder(AfterFetch(port), events[1..]);
        if port.queue != [] {
          assert Small(port.queue[0]);
          var first := [port.queue[0]];
          assert port.queue == first + port.queue[1..];
          Assoc(first, rest.fetched, rest.port.queue);
          Assoc(first, port.queue[1..], rest.taken);
        } else {
          assert [] + rest.fetched == rest.fetched;
        }
    }
  }

  lemma RunCons(rx: Rx, b: Byte, w: seq<Byte>)
    ensures var first := Step(rx, b);
            var rest := Run(first.next, w);
            Run(rx, [b] + w) == Outcome(rest.next, first.delivered + rest.delivered)
  {
    hide Step;
    assert ([b] + w)[1..] == w;
  }

  lemma {:induction false} TakenFromRun(port: Port, events: seq<PortEvent>)
    ensures var run := RunPort(port, events);
            && Subsequence(run.taken, Run(port.rx, BytesIn(events)).delivered)
            && run.port.rx == Run(port.rx, BytesIn(events)).next
    ensures (forall i :: 0 <= i < |events| && events[i].Arrives? ==> events[i].room) ==>
              RunPort(port, events).taken == Run(port.rx, BytesIn(events)).delivered
    decreases |events|
  {
    hide Step, Run, Subsequence;
    if events == [] {
      RunNothing(port.rx);
      SubsequenceSelf<seq<Byte>>([]);
    } else {
      match events[0]
      case Arrives(b, room) =>
        var next := ByteIn(port, b, room);
        var d := Step(port.rx, b).delivered;
        var rest := RunPort(next, events[1..]);
        TakenFromRun(next, events[1..]);
        RunCons(port.rx, b, BytesIn(events[1..]));
        SubsequenceSelf(d);
        SubsequenceNone(d);
        SubsequenceConcat(if room then d else [], d, rest.taken, Run(next.rx, BytesIn(events[1..])).delivered);
        assert events[0].room <==> room;
      case Fetch =>
        TakenFromRun(AfterFetch(port), events[1..]);
        assert BytesIn(events) == BytesIn(events[1..]);
    }
  }

  lemma SubsequenceNone<T>(a: seq<T>)
    ensures Subsequence([], a)
  {
  }

  /** In every interleaving of received bytes and fetches: the packets fetched, then those still
      queued, are the packets the queue took, whole and in order; those are a subsequence of the
      packets the receiver validated, and all of them if the queue always had room. */
  lemma QueueConserves(events: seq<PortEvent>)
    ensures var run := RunPort(NEW_PORT, events);
            var validated := Run(INITIAL, BytesIn(events)).delivered;
            && run.fetched + run.port.queue == run.taken
            && Subsequence(run.taken, validated)
            && ((forall i :: 0 <= i < |events| && events[i].Arrives? ==> events[i].room) ==> run.taken == validated)
  {
    hide Run, RunPort, Subsequence;
    InitialShape();
    QueueOrder(NEW_PORT, events);
    TakenFromRun(NEW_PORT, events);
  }
}
