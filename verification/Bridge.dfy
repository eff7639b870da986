/** The bridge: packets routed between the serial line, the kernel and one broadcast client, by
    destination endpoint ID. */
module Bridge {
  import opened Bytes
  import opened Wire
  import opened Receiver
  import opened Language
  import opened Sending
  import opened Framer

  /** The broadcast client's messages are read into a buffer of this size. */
  const CLIENT_BUFFER := 256

  /** The client's descriptor in one turn: nothing to read, a message, or an empty read that may have
      closed the connection. */
  datatype Client = Idle | Says(msg: seq<Byte>) | Silent(hangsUp: bool)

  /** What one turn of the dispatch loop meets: whether a client is waiting to be accepted, which
      sources are ready, whether the client takes a message sent to it, and how writes fare. The bridge
      reads octet 1 of every non-empty client message without looking at the size; `stray` is what lies
      behind a message of one octet. */
  datatype Poll = Poll(accepts: bool, client: Client, stray: Byte, linuxReady: bool, ttyReady: bool,
                       clientTakes: bool, clientCalls: seq<WriteCall>, linuxCalls: seq<WriteCall>,
                       ttyCalls: seq<WriteCall>)

  /** The special endpoint IDs of section 8.2 of DSP0236: null and broadcast. */
  predicate Special(eid: Byte) {
    eid == 0xff || eid == 0x00
  }

  predicate Broadcast(msg: seq<Byte>)
    requires |msg| >= 2
  {
    Special(msg[1])
  }

  /** The client has said something with a special destination, or one taken for special. */
  predicate ClientBroadcasts(p: Poll) {
    && p.client.Says? && p.client.msg != []
    && Special(if |p.client.msg| >= 2 then p.client.msg[1] else p.stray)
  }

  function Cut(msg: seq<Byte>): seq<Byte> {
    if |msg| <= CLIENT_BUFFER then msg else msg[..CLIENT_BUFFER]
  }

  datatype Source = Kernel | BroadcastClient

  datatype SerialSend = SerialSend(source: Source, attempt: Attempt)

  /** What a turn, or a run, puts out on each side. */
  datatype Output = Output(toSerial: seq<SerialSend>, toKernel: seq<Attempt>, toClient: seq<seq<Byte>>)

  const NOTHING := Output([], [], [])

  function Plus(a: Output, b: Output): Output {
    Output(a.toSerial + b.toSerial, a.toKernel + b.toKernel, a.toClient + b.toClient)
  }

  /** The two framers' receiving ends and the client connection. */
  datatype State = State(tty: Port, linux: Port, connected: bool)

  const START := State(NEW_PORT, NEW_PORT, false)

  /** Every packet waiting on the serial side has an octet 1. */
  predicate Routable(port: Port) {
    && Shape(port.rx)
    && forall i :: 0 <= i < |port.queue| ==> Small(port.queue[i])
  }

  function FromClient(connected: bool, p: Poll): seq<SerialSend> {
    if connected && ClientBroadcasts(p)
    then [SerialSend(BroadcastClient, Attempt(Cut(p.client.msg), p.clientCalls))]
    else []
  }

  function FromKernel(linux: Port, p: Poll): seq<SerialSend> {
    if p.linuxReady then [SerialSend(Kernel, Attempt(Fetched(linux), p.linuxCalls))] else []
  }

  function FromTty(tty: Port, connected: bool, p: Poll): Output
    requires Routable(tty)
  {
    if !p.ttyReady || tty.queue == [] then NOTHING
    else
      var msg := Fetched(tty);
      assert Small(tty.queue[0]);
      if !Broadcast(msg) then Output([], [Attempt(msg, p.ttyCalls)], [])
      else Output([], [], if connected && p.clientTakes then [msg] else [])
  }

  /** Whether a client is connected once this turn has read from it. */
  function StaysConnected(connected: bool, p: Poll): bool {
    (connected || p.accepts) && p.client != Silent(true)
  }

  /** One turn of the dispatch loop. */
  function Turn(s: State, p: Poll): (State, Output)
    requires Routable(s.tty)
  {
    var connected := StaysConnected(s.connected, p);
    (State(if p.ttyReady then AfterFetch(s.tty) else s.tty,
           if p.linuxReady then AfterFetch(s.linux) else s.linux,
           connected),
     FromTty(s.tty, connected, p).(toSerial := FromClient(s.connected || p.accepts, p) + FromKernel(s.linux, p)))
  }

  // ----- The bridge object -----

  class MctpBridge {
    const mctpSerial: MctpFramer
    const linuxEndpoint: MctpFramer
    var connected: bool
    var heard: seq<seq<Byte>>

    ghost predicate Valid()
      reads this, mctpSerial
    {
      mctpSerial != linuxEndpoint && Routable(mctpSerial.State())
    }

    ghost function Abstract(): State
      reads this, mctpSerial, linuxEndpoint
    {
      State(mctpSerial.State(), linuxEndpoint.State(), connected)
    }

    constructor (serial: MctpFramer, linux: MctpFramer)
      requires serial != linux
      requires serial.State() == NEW_PORT && linux.State() == NEW_PORT
      ensures Valid() && mctpSerial == serial && linuxEndpoint == linux
      ensures Abstract() == START && heard == []
    {
      mctpSerial := serial;
      linuxEndpoint := linux;
      connected := false;
      heard := [];
      new;
      InitialShape();
    }

    /** The broadcast client: its message, if it is a broadcast, goes to the serial line. */
    method ServeClient(p: Poll)
      requires Valid()
      modifies this`connected, mctpSerial`line
      ensures connected == (old(connected) && p.client != Silent(true))
      ensures mctpSerial.line == old(mctpSerial.line) + Line(Attempts(FromClient(old(connected), p)))
    {
      hide Written, WireOf, Shape, Line, Attempts;
      LineOfNone();
      if connected && p.client.Says? {
        var msg := Cut(p.client.msg);
        if |msg| > 0 {
          var destEid := if |msg| >= 2 then msg[1] else p.stray;
          if destEid == 0xff || destEid == 0x00 {
            mctpSerial.Send(msg, p.clientCalls);
            LineOfAttempt(Attempt(msg, p.clientCalls));
          }
        }
      } else if connected && p.client == Silent(true) {
        connected := false;
      }
    }

    /** The kernel: whatever is fetched goes to the serial line, an empty message included. */
    method ServeKernel(p: Poll)
      requires Valid()
      modifies linuxEndpoint`pipe, mctpSerial`line
      ensures linuxEndpoint.State()
           == if p.linuxReady then AfterFetch(old(linuxEndpoint.State())) else old(linuxEndpoint.State())
      ensures mctpSerial.line == old(mctpSerial.line) + Line(Attempts(FromKernel(old(linuxEndpoint.State()), p)))
    {
      hide Written, WireOf, Shape, Line, Attempts;
      LineOfNone();
      if p.linuxReady {
        var message := linuxEndpoint.Receive();
        mctpSerial.Send(message, p.linuxCalls);
        LineOfAttempt(Attempt(message, p.linuxCalls));
      }
    }

    /** The serial line: broadcasts go to the client if there is one, the rest to the kernel. */
    method ServeTty(p: Poll)
      requires Valid()
      modifies this`heard, mctpSerial`pipe, linuxEndpoint`line
      ensures mctpSerial.State() == if p.ttyReady then AfterFetch(old(mctpSerial.State())) else old(mctpSerial.State())
      ensures linuxEndpoint.line
           == old(linuxEndpoint.line) + Line(FromTty(old(mctpSerial.State()), connected, p).toKernel)
      ensures heard == old(heard) + FromTty(old(mctpSerial.State()), connected, p).toClient
    {
      hide Written, WireOf, Shape, Line;
      LineOfNone();
      if p.ttyReady {
        assert mctpSerial.pipe != [] ==> Small(mctpSerial.pipe[0]);
        var msg := mctpSerial.Receive();
        if |msg| > 0 {
          var destEid := msg[1];
          if destEid == 0xff || destEid == 0x00 {
            if connected && p.clientTakes {
              heard := heard + [msg];
            }
          } else {
            linuxEndpoint.Send(msg, p.ttyCalls);
            LineOfAttempt(Attempt(msg, p.ttyCalls));
          }
        }
      }
    }

    /** One turn of the dispatch loop: accept, then the client, the kernel and the serial line. */
    method RunOnce(p: Poll)
      requires Valid()
      modifies this, mctpSerial, linuxEndpoint
      ensures Valid()
      ensures Abstract() == Turn(old(Abstract()), p).0
      ensures mctpSerial.line == old(mctpSerial.line) + Line(Attempts(Turn(old(Abstract()), p).1.toSerial))
      ensures linuxEndpoint.line == old(linuxEndpoint.line) + Line(Turn(old(Abstract()), p).1.toKernel)
      ensures heard == old(heard) + Turn(old(Abstract()), p).1.toClient
    {
      hide Line, Attempts, Shape, FromClient, FromKernel, FromTty;
      ghost var s := Abstract();
      if !connected {
        connected := p.accepts;
      }
      ServeClient(p);
      ServeKernel(p);
      ServeTty(p);
      AttemptsAppend(FromClient(s.connected || p.accepts, p), FromKernel(s.linux, p));
      LineAppend(Attempts(FromClient(s.connected || p.accepts, p)), Attempts(FromKernel(s.linux, p)));
    }
  }

  function Attempts(sends: seq<SerialSend>): seq<Attempt> {
    if sends == [] then [] else [sends[0].attempt] + Attempts(sends[1..])
  }

  lemma {:induction false} AttemptsAppend(a: seq<SerialSend>, b: seq<SerialSend>)
    ensures Attempts(a + b) == Attempts(a) + Attempts(b)
  {
    if a == [] {
      assert a + b == b;
    } else {
      AttemptsAppend(a[1..], b);
      assert (a + b)[0] == a[0] && (a + b)[1..] == a[1..] + b;
    }
  }

  lemma LineOfAttempt(a: Attempt)
    ensures Line([a]) == Written(WireOf(a.msg), a.calls)
    ensures Attempts([SerialSend(Kernel, a)]) == [a] && Attempts([SerialSend(BroadcastClient, a)]) == [a]
  {
    hide Written, WireOf;
    assert [a][1..] == [];
    assert [SerialSend(Kernel, a)][1..] == [] && [SerialSend(BroadcastClient, a)][1..] == [];
  }

  lemma LineOfNone()
    ensures Line([]) == [] && Attempts([]) == []
  {
  }
}
