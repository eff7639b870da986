/** Whole runs of the bridge: bytes arriving on both sides, in any interleaving with turns of the
    dispatch loop. */
module Routing {
  import opened Bytes
  import opened Wire
  import opened Receiver
  import opened RoundTrip
  import opened Language
  import opened Sending
  import opened Framer
  import opened Bridge

  datatype BridgeEvent = TtyByte(b: Byte, room: bool) | LinuxByte(b: Byte, room: bool) | Dispatch(p: Poll)

  predicate Healthy(s: State) {
    Routable(s.tty) && Routable(s.linux)
  }

  datatype BridgeRun = BridgeRun(state: State, output: Output)

  function Advance(s: State, e: BridgeEvent): (r: BridgeRun)
    requires Healthy(s)
    ensures Healthy(r.state)
  {
    match e
    case TtyByte(b, room) =>
      StepDelivers(s.tty.rx, b);
      BridgeRun(s.(tty := ByteIn(s.tty, b, room)), NOTHING)
    case LinuxByte(b, room) =>
      StepDelivers(s.linux.rx, b);
      BridgeRun(s.(linux := ByteIn(s.linux, b, room)), NOTHING)
    case Dispatch(p) =>
      var (next, output) := Turn(s, p);
      BridgeRun(next, output)
  }

  function RunBridge(s: State, events: seq<BridgeEvent>): (r: BridgeRun)
    requires Healthy(s)
    ensures Healthy(r.state)
    decreases |events|
  {
    if events == [] then BridgeRun(s, NOTHING)
    else
      var first := Advance(s, events[0]);
      var rest := RunBridge(first.state, events[1..]);
      BridgeRun(rest.state, Plus(first.output, rest.output))
  }

  // ----- The two ports inside a run -----

  /** What a run looks like to the serial-side framer. */
  function TtyEvent(e: BridgeEvent): seq<PortEvent> {
    match e
    case TtyByte(b, room) => [Arrives(b, room)]
    case LinuxByte(_, _) => []
    case Dispatch(p) => if p.ttyReady then [Fetch] else []
  }

  function TtyView(events: seq<BridgeEvent>): seq<PortEvent> {
    if events == [] then [] else TtyEvent(events[0]) + TtyView(events[1..])
  }

  /** What a run looks like to the kernel-side framer. */
  function LinuxEvent(e: BridgeEvent): seq<PortEvent> {
    match e
    case TtyByte(_, _) => []
    case LinuxByte(b, room) => [Arrives(b, room)]
    case Dispatch(p) => if p.linuxReady then [Fetch] else []
  }

  function LinuxView(events: seq<BridgeEvent>): seq<PortEvent> {
    if events == [] then [] else LinuxEvent(events[0]) + LinuxView(events[1..])
  }

  lemma RunPortCons(port: Port, e: PortEvent, b: seq<PortEvent>)
    ensures RunPort(port, [e] + b) == match e
              case Arrives(c, room) =>
                (var rest := RunPort(ByteIn(port, c, room), b);
                 rest.(taken := (if room then Step(port.rx, c).delivered else []) + rest.taken))
              case Fetch =>
                (var rest := RunPort(AfterFetch(port), b);
                 rest.(fetched := (if port.queue == [] then [] else [Fetched(port)]) + rest.fetched))
  {
    hide ByteIn, Step, AfterFetch, Fetched;
    assert ([e] + b)[1..] == b;
  }

  lemma AppendNothing<T>(s: seq<T>)
    ensures s + [] == s && [] + s == s
  {
  }

  lemma RunPortConcat(port: Port, a: seq<PortEvent>, b: seq<PortEvent>)
    requires |a| <= 1
    ensures var first := RunPort(port, a);
            var rest := RunPort(first.port, b);
            RunPort(port, a + b) == PortRun(rest.port, first.taken + rest.taken, first.fetched + rest.fetched)
  {
    hide ByteIn, Step, AfterFetch, Fetched, RunPort;
    RunPortNothing(port);
    AppendNothing(b);
    if a == [] {
      AppendNothing(RunPort(port, b).taken);
      AppendNothing(RunPort(port, b).fetched);
    } else {
      assert a == [a[0]] + [] && a == [a[0]];
      RunPortCons(port, a[0], []);
      RunPortCons(port, a[0], b);
      match a[0] {
        case Arrives(c, room) =>
          var took := if room then Step(port.rx, c).delivered else [];
          RunPortNothing(ByteIn(port, c, room));
          AppendNothing(took);
          AppendNothing(RunPort(ByteIn(port, c, room), b).fetched);
        case Fetch =>
          var got := if port.queue == [] then [] else [Fetched(port)];
          RunPortNothing(AfterFetch(port));
          AppendNothing(got);
          AppendNothing(RunPort(AfterFetch(port), b).taken);
      }
    }
  }

  // ----- Choosing packets by destination -----

  /** Octet 1 names the destination: 0x00 and 0xFF are for everyone. */
  predicate Unicast(p: seq<Byte>) {
    |p| >= 2 && p[1] != 0x00 && p[1] != 0xff
  }

  predicate ToAll(p: seq<Byte>) {
    |p| >= 2 && (p[1] == 0x00 || p[1] == 0xff)
  }

  function Filter<T>(f: T -> bool, s: seq<T>): seq<T> {
    if s == [] then [] else (if f(s[0]) then [s[0]] else []) + Filter(f, s[1..])
  }

  lemma {:induction false} FilterConcat<T>(f: T -> bool, a: seq<T>, b: seq<T>)
    ensures Filter(f, a + b) == Filter(f, a) + Filter(f, b)
  {
    if a == [] {
      assert a + b == b;
    } else {
      FilterConcat(f, a[1..], b);
      Assoc(if f(a[0]) then [a[0]] else [], Filter(f, a[1..]), Filter(f, b));
      assert (a + b)[0] == a[0] && (a + b)[1..] == a[1..] + b;
    }
  }

  lemma FilterOne<T>(f: T -> bool, x: T)
    ensures Filter(f, [x]) == if f(x) then [x] else []
    ensures Filter(f, []) == []
  {
    assert [x][1..] == [];
  }

  function MessagesOf(attempts: seq<Attempt>): seq<seq<Byte>> {
    if attempts == [] then [] else [attempts[0].msg] + MessagesOf(attempts[1..])
  }

  lemma {:induction false} MessagesOfConcat(a: seq<Attempt>, b: seq<Attempt>)
    ensures MessagesOf(a + b) == MessagesOf(a) + MessagesOf(b)
  {
    if a == [] {
      assert a + b == b;
    } else {
      MessagesOfConcat(a[1..], b);
      Assoc([a[0].msg], MessagesOf(a[1..]), MessagesOf(b));
      assert (a + b)[0] == a[0] && (a + b)[1..] == a[1..] + b;
    }
  }

  /** The non-empty messages a source put on the serial line. */
  function SentBy(source: Source, sends: seq<SerialSend>): seq<seq<Byte>> {
    if sends == [] then [] else SentOnce(source, sends[0]) + SentBy(source, sends[1..])
  }

  function SentOnce(source: Source, x: SerialSend): seq<seq<Byte>> {
    if x.source == source && x.attempt.msg != [] then [x.attempt.msg] else []
  }

  lemma {:induction false} SentByConcat(source: Source, a: seq<SerialSend>, b: seq<SerialSend>)
    ensures SentBy(source, a + b) == SentBy(source, a) + SentBy(source, b)
  {
    hide SentOnce;
    if a == [] {
      assert a + b == b;
    } else {
      SentByConcat(source, a[1..], b);
      Assoc(SentOnce(source, a[0]), SentBy(source, a[1..]), SentBy(source, b));
      assert (a + b)[0] == a[0] && (a + b)[1..] == a[1..] + b;
    }
  }

  lemma SentByOne(source: Source, x: SerialSend)
    ensures SentBy(source, [x]) == SentOnce(source, x)
    ensures SentBy(source, []) == []
  {
    assert [x][1..] == [];
  }

  // ----- One event -----

  /** A packet fetched from the serial side, and whether a client was there to take it. */
  datatype Delivery = Delivery(packet: seq<Byte>, served: bool)

  function NextConnected(connected: bool, e: BridgeEvent): bool {
    if e.Dispatch? then StaysConnected(connected, e.p) else connected
  }

  /** Nobody hangs up. */
  predicate NoHangUp(events: seq<BridgeEvent>) {
    forall i :: 0 <= i < |events| && events[i].Dispatch? ==> events[i].p.client != Silent(true)
  }

  /** Somebody is accepted in turn `i` and has not hung up since, in that turn or later. */
  predicate AcceptedAt(events: seq<BridgeEvent>, i: nat)
    requires i < |events|
  {
    events[i].Dispatch? && events[i].p.accepts && NoHangUp(events[i..])
  }

  /** Whether a client is connected after a run: one that was there before it and has not hung up, or
      one accepted in it that has not hung up since. */
  predicate Connected(connected: bool, events: seq<BridgeEvent>) {
    (connected && NoHangUp(events)) || exists i :: 0 <= i < |events| && AcceptedAt(events, i)
  }

  lemma NoHangUpCons(e: BridgeEvent, rest: seq<BridgeEvent>)
    ensures NoHangUp([e] + rest) <==> (e.Dispatch? ==> e.p.client != Silent(true)) && NoHangUp(rest)
  {
    assert ([e] + rest)[0] == e;
    assert forall i :: 0 <= i < |rest| ==> rest[i] == ([e] + rest)[i + 1];
  }

  lemma ConnectedCons(connected: bool, e: BridgeEvent, rest: seq<BridgeEvent>)
    ensures Connected(connected, [e] + rest) <==> Connected(NextConnected(connected, e), rest)
  {
    hide NoHangUp;
    var all := [e] + rest;
    NoHangUpCons(e, rest);
    assert all[0..] == all;
    forall i | 0 <= i < |rest| ensures AcceptedAt(all, i + 1) <==> AcceptedAt(rest, i) {
      assert all[i + 1..] == rest[i..];
    }
    assert AcceptedAt(all, 0) <==> e.Dispatch? && e.p.accepts && NoHangUp(all);
    if i :| 0 <= i < |rest| && AcceptedAt(rest, i) {
      assert AcceptedAt(all, i + 1);
    }
    if i :| 0 <= i < |all| && AcceptedAt(all, i) {
      assert i == 0 || AcceptedAt(rest, i - 1);
    }
  }

  lemma ConnectedNone(connected: bool)
    ensures Connected(connected, []) == connected
  {
  }

  /** After any run from any state a client is connected exactly then. */
  lemma {:induction false} ConnectedAfter(s: State, events: seq<BridgeEvent>)
    requires Healthy(s)
    ensures RunBridge(s, events).state.connected <==> Connected(s.connected, events)
    decreases |events|
  {
    hide Advance, Connected, NextConnected, Healthy;
    if events == [] {
      ConnectedNone(s.connected);
    } else {
      AdvanceConnects(s, events[0]);
      ConnectedAfter(Advance(s, events[0]).state, events[1..]);
      ConnectedCons(s.connected, events[0], events[1..]);
      assert events == [events[0]] + events[1..];
    }
  }

  lemma AdvanceConnects(s: State, e: BridgeEvent)
    requires Healthy(s)
    ensures Advance(s, e).state.connected == NextConnected(s.connected, e)
  {
    hide Step, Shape, FromClient, FromKernel, FromTty, AfterFetch;
  }

  function FetchedNow(tty: Port, connected: bool, e: BridgeEvent): seq<Delivery> {
    if e.Dispatch? && e.p.ttyReady && tty.queue != []
    then [Delivery(tty.queue[0], StaysConnected(connected, e.p) && e.p.clientTakes)]
    else []
  }

  /** The packets fetched over a run; a packet is served when the client is connected, or accepted, in
      the same turn, has not hung up in it, and takes what it is sent. */
  function FetchLog(tty: Port, connected: bool, events: seq<BridgeEvent>): seq<Delivery>
    decreases |events|
  {
    if events == [] then []
    else FetchedNow(tty, connected, events[0])
         + FetchLog(RunPort(tty, TtyEvent(events[0])).port, NextConnected(connected, events[0]), events[1..])
  }

  function PacketsOf(log: seq<Delivery>): seq<seq<Byte>> {
    if log == [] then [] else [log[0].packet] + PacketsOf(log[1..])
  }

  /** The broadcasts that were served, in order. */
  function Served(log: seq<Delivery>): seq<seq<Byte>> {
    if log == [] then []
    else (if ToAll(log[0].packet) && log[0].served then [log[0].packet] else []) + Served(log[1..])
  }

  lemma {:induction false} LogConcat(a: seq<Delivery>, b: seq<Delivery>)
    ensures PacketsOf(a + b) == PacketsOf(a) + PacketsOf(b)
    ensures Served(a + b) == Served(a) + Served(b)
  {
    hide ToAll;
    if a == [] {
      assert a + b == b;
    } else {
      LogConcat(a[1..], b);
      Assoc([a[0].packet], PacketsOf(a[1..]), PacketsOf(b));
      Assoc(if ToAll(a[0].packet) && a[0].served then [a[0].packet] else [], Served(a[1..]), Served(b));
      assert (a + b)[0] == a[0] && (a + b)[1..] == a[1..] + b;
    }
  }

  lemma AdvanceTty(s: State, e: BridgeEvent)
    requires Healthy(s)
    ensures var r := Advance(s, e);
            var tty := RunPort(s.tty, TtyEvent(e));
            var log := FetchedNow(s.tty, s.connected, e);
            && r.state.tty == tty.port && r.state.connected == NextConnected(s.connected, e)
            && MessagesOf(r.output.toKernel) == Filter(Unicast, tty.fetched)
            && PacketsOf(log) == tty.fetched
            && r.output.toClient == Served(log)
  {
    hide Step, Shape;
    assert TtyEvent(e) != [] ==> TtyEvent(e)[1..] == [];
    if e.Dispatch? && e.p.ttyReady && s.tty.queue != [] {
      var msg := s.tty.queue[0];
      assert Small(msg);
      assert RunPort(s.tty, [Fetch]).fetched == [msg] by {
        assert [Fetch][1..] == [];
        assert [msg] + [] == [msg];
      }
      FilterOne(Unicast, msg);
      assert FetchedNow(s.tty, s.connected, e)[1..] == [];
      assert [Attempt(msg, e.p.ttyCalls)][1..] == [];
    }
  }

  lemma AdvanceLinux(s: State, e: BridgeEvent)
    requires Healthy(s)
    ensures var r := Advance(s, e);
            var linux := RunPort(s.linux, LinuxEvent(e));
            && r.state.linux == linux.port
            && SentBy(Kernel, r.output.toSerial) == linux.fetched
  {
    hide Step, Shape, SentBy, FromClient, FromKernel, FromTty, ByteIn, AfterFetch;
    SentByNone(Kernel);
    RunPortNothing(s.linux);
    match e {
      case TtyByte(_, _) =>
      case LinuxByte(b, room) =>
        RunPortCons(s.linux, Arrives(b, room), []);
        RunPortNothing(ByteIn(s.linux, b, room));
        assert [Arrives(b, room)] + [] == [Arrives(b, room)];
      case Dispatch(p) =>
        TurnToSerial(Kernel, s, p);
        RunPortCons(s.linux, Fetch, []);
        RunPortNothing(AfterFetch(s.linux));
        assert [Fetch] + [] == [Fetch];
        assert s.linux.queue != [] ==> Small(s.linux.queue[0]);
    }
  }

  lemma SentByNone(source: Source)
    ensures SentBy(source, []) == []
  {
  }

  /** The broadcasts heard from the client, cut to the client buffer, over a run. */
  function HeardFrom(connected: bool, events: seq<BridgeEvent>): seq<seq<Byte>>
    decreases |events|
  {
    if events == [] then []
    else HeardNow(connected, events[0]) + HeardFrom(NextConnected(connected, events[0]), events[1..])
  }

  /** What the client says reaches the serial line when octet 1, or what is taken for it, is 0x00 or 0xFF;
      of a longer message the first 256 octets. */
  function HeardNow(connected: bool, e: BridgeEvent): seq<seq<Byte>> {
    if e.Dispatch? && (connected || e.p.accepts) && e.p.client.Says? && e.p.client.msg != [] then
      var msg := e.p.client.msg;
      var eid := if |msg| >= 2 then msg[1] else e.p.stray;
      if eid == 0x00 || eid == 0xff then [if |msg| <= 256 then msg else msg[..256]] else []
    else []
  }

  // ----- Routing over whole runs -----

  /** Towards the kernel: every unicast packet fetched from the serial side, in order. Towards the
      client: exactly the broadcasts fetched in turns in which a client was there to take them. */
  lemma {:induction false} FromSerial(s: State, events: seq<BridgeEvent>)
    requires Healthy(s)
    ensures var run := RunBridge(s, events);
            var tty := RunPort(s.tty, TtyView(events));
            var log := FetchLog(s.tty, s.connected, events);
            && run.state.tty == tty.port
            && MessagesOf(run.output.toKernel) == Filter(Unicast, tty.fetched)
            && PacketsOf(log) == tty.fetched
            && run.output.toClient == Served(log)
    decreases |events|
  {
    hide Advance, RunPort, TtyEvent, Shape, Routable, Healthy, FetchedNow, NextConnected;
    if events == [] {
      RunPortNothing(s.tty);
      FilterOne(Unicast, []);
    } else {
      var first := Advance(s, events[0]);
      var a := RunPort(s.tty, TtyEvent(events[0]));
      AdvanceTty(s, events[0]);
      FromSerial(first.state, events[1..]);
      var rest := RunBridge(first.state, events[1..]);
      var b := RunPort(a.port, TtyView(events[1..]));
      ViewIsShort(events[0]);
      RunPortConcat(s.tty, TtyEvent(events[0]), TtyView(events[1..]));
      MessagesOfConcat(first.output.toKernel, rest.output.toKernel);
      FilterConcat(Unicast, a.fetched, b.fetched);
      LogConcat(FetchedNow(s.tty, s.connected, events[0]),
                FetchLog(first.state.tty, first.state.connected, events[1..]));
    }
  }

  /** Every broadcast in the log was served. */
  predicate AllServed(log: seq<Delivery>) {
    forall i :: 0 <= i < |log| && ToAll(log[i].packet) ==> log[i].served
  }

  lemma AllServedCons(log: seq<Delivery>)
    requires log != []
    ensures AllServed(log) <==> (ToAll(log[0].packet) ==> log[0].served) && AllServed(log[1..])
  {
    hide ToAll;
    assert forall i :: 0 < i < |log| ==> log[i] == log[1..][i - 1];
  }

  lemma BroadcastsCons(log: seq<Delivery>)
    requires log != []
    ensures Filter(ToAll, PacketsOf(log))
         == (if ToAll(log[0].packet) then [log[0].packet] else []) + Filter(ToAll, PacketsOf(log[1..]))
  {
    hide ToAll;
    assert PacketsOf(log)[1..] == PacketsOf(log[1..]);
  }

  lemma {:induction false} ServedIsFilter(log: seq<Delivery>)
    ensures |Served(log)| <= |Filter(ToAll, PacketsOf(log))|
    ensures Served(log) == Filter(ToAll, PacketsOf(log)) <==> AllServed(log)
  {
    hide ToAll, Filter, AllServed, PacketsOf;
    if log == [] {
      assert PacketsOf(log) == [] by {
        NoPackets();
      }
      FilterOne(ToAll, []);
      assert AllServed(log) by {
        NoneToServe();
      }
    } else {
      ServedIsFilter(log[1..]);
      BroadcastsCons(log);
      AllServedCons(log);
      var one, x, y := [log[0].packet], Served(log[1..]), Filter(ToAll, PacketsOf(log[1..]));
      AppendNothing(x);
      AppendNothing(y);
      if ToAll(log[0].packet) && log[0].served {
        assert (one + x)[1..] == x && (one + y)[1..] == y;
      }
    }
  }

  lemma NoPackets()
    ensures PacketsOf([]) == []
  {
  }

  lemma NoneToServe()
    ensures AllServed([])
  {
  }

  lemma {:induction false} ServedIsSubsequence(log: seq<Delivery>)
    ensures Subsequence(Served(log), Filter(ToAll, PacketsOf(log)))
  {
    hide ToAll, Subsequence, Filter, PacketsOf;
    if log == [] {
      SubsequenceNone<seq<Byte>>(Filter(ToAll, PacketsOf(log)));
    } else {
      var d := log[0];
      var one := if ToAll(d.packet) then [d.packet] else [];
      ServedIsSubsequence(log[1..]);
      BroadcastsCons(log);
      SubsequenceSelf(one);
      SubsequenceNone(one);
      SubsequenceConcat(if d.served then one else [], one, Served(log[1..]), Filter(ToAll, PacketsOf(log[1..])));
    }
  }

  /** The client is there in every turn that serves the serial side, and takes what it is sent. */
  predicate Attended(connected: bool, events: seq<BridgeEvent>) {
    forall i :: 0 <= i < |events| && events[i].Dispatch? && events[i].p.ttyReady ==>
                  Connected(connected, events[..i + 1]) && events[i].p.clientTakes
  }

  lemma AttendedRest(connected: bool, events: seq<BridgeEvent>)
    requires events != [] && Attended(connected, events)
    ensures events[0].Dispatch? && events[0].p.ttyReady ==>
              StaysConnected(connected, events[0].p) && events[0].p.clientTakes
    ensures Attended(NextConnected(connected, events[0]), events[1..])
  {
    hide Connected, NextConnected, StaysConnected;
    var e, rest := events[0], events[1..];
    if e.Dispatch? && e.p.ttyReady {
      assert events[..1] == [e] + [];
      ConnectedCons(connected, e, []);
      ConnectedNone(NextConnected(connected, e));
      NextOfDispatch(connected, e);
    }
    forall i | 0 <= i < |rest| && rest[i].Dispatch? && rest[i].p.ttyReady
      ensures Connected(NextConnected(connected, e), rest[..i + 1]) && rest[i].p.clientTakes
    {
      assert rest[i] == events[i + 1];
      assert events[..i + 2] == [e] + rest[..i + 1];
      ConnectedCons(connected, e, rest[..i + 1]);
    }
  }

  lemma NextOfDispatch(connected: bool, e: BridgeEvent)
    requires e.Dispatch?
    ensures NextConnected(connected, e) == StaysConnected(connected, e.p)
  {
  }

  lemma {:induction false} AttendedServes(tty: Port, connected: bool, events: seq<BridgeEvent>)
    requires Attended(connected, events)
    ensures forall i :: 0 <= i < |FetchLog(tty, connected, events)| ==> FetchLog(tty, connected, events)[i].served
    decreases |events|
  {
    hide RunPort, Attended, NextConnected, StaysConnected;
    if events != [] {
      AttendedRest(connected, events);
      AttendedServes(RunPort(tty, TtyEvent(events[0])).port, NextConnected(connected, events[0]), events[1..]);
    }
  }

  /** No broadcast is lost exactly when each was fetched with a client there to take it; in particular
      when the client attends throughout. */
  lemma NoBroadcastLost(s: State, events: seq<BridgeEvent>)
    requires Healthy(s)
    ensures var broadcasts := Filter(ToAll, RunPort(s.tty, TtyView(events)).fetched);
            var log := FetchLog(s.tty, s.connected, events);
            var toClient := RunBridge(s, events).output.toClient;
            && Subsequence(toClient, broadcasts)
            && (toClient == broadcasts <==> AllServed(log))
            && (Attended(s.connected, events) ==> toClient == broadcasts)
  {
    hide RunBridge, RunPort, FetchLog, Served, Filter, ToAll, Subsequence, Attended, Healthy;
    FromSerial(s, events);
    ServedIsFilter(FetchLog(s.tty, s.connected, events));
    ServedIsSubsequence(FetchLog(s.tty, s.connected, events));
    if Attended(s.connected, events) {
      AttendedServes(s.tty, s.connected, events);
    }
  }

  /** A connected client that never hangs up and takes what it is sent attends, whoever else knocks. */
  lemma StayingAttends(events: seq<BridgeEvent>)
    requires forall i :: 0 <= i < |events| && events[i].Dispatch? ==>
                           events[i].p.client != Silent(true) && events[i].p.clientTakes
    ensures Attended(true, events)
  {
    forall i | 0 <= i < |events| && events[i].Dispatch? && events[i].p.ttyReady
      ensures Connected(true, events[..i + 1]) && events[i].p.clientTakes
    {
      assert NoHangUp(events[..i + 1]);
    }
  }

  lemma ViewIsShort(e: BridgeEvent)
    ensures |TtyEvent(e)| <= 1 && |LinuxEvent(e)| <= 1
  {
  }

  lemma RunPortNothing(port: Port)
    ensures RunPort(port, []) == PortRun(port, [], [])
  {
  }

  /** Towards the serial line: an interleaving of the kernel's packets, all of them in order, with the
      client's broadcasts, all of them in order; empty messages aside. */
  lemma {:induction false} ToSerial(s: State, events: seq<BridgeEvent>)
    requires Healthy(s)
    ensures var run := RunBridge(s, events);
            var linux := RunPort(s.linux, LinuxView(events));
            && run.state.linux == linux.port
            && SentBy(Kernel, run.output.toSerial) == linux.fetched
            && SentBy(BroadcastClient, run.output.toSerial) == HeardFrom(s.connected, events)
    decreases |events|
  {
    hide Advance, RunPort, LinuxEvent, Shape, Routable, Healthy, HeardNow, NextConnected;
    if events == [] {
      RunPortNothing(s.linux);
    } else {
      var first := Advance(s, events[0]);
      var a := RunPort(s.linux, LinuxEvent(events[0]));
      AdvanceLinux(s, events[0]);
      AdvanceClient(s, events[0]);
      ToSerial(first.state, events[1..]);
      var rest := RunBridge(first.state, events[1..]);
      ViewIsShort(events[0]);
      RunPortConcat(s.linux, LinuxEvent(events[0]), LinuxView(events[1..]));
      SentByConcat(Kernel, first.output.toSerial, rest.output.toSerial);
      SentByConcat(BroadcastClient, first.output.toSerial, rest.output.toSerial);
    }
  }

  lemma TurnToSerial(source: Source, s: State, p: Poll)
    requires Healthy(s)
    ensures SentBy(source, Turn(s, p).1.toSerial)
         == (if source == Kernel then (if p.linuxReady && s.linux.queue != [] then [s.linux.queue[0]] else [])
             else HeardNow(s.connected, Dispatch(p)))
  {
    hide Shape, SentBy, FromTty, AfterFetch, StaysConnected;
    var a := FromClient(s.connected || p.accepts, p);
    var b := FromKernel(s.linux, p);
    SentByConcat(source, a, b);
    SentByNone(source);
    if a != [] {
      SentByOne(source, a[0]);
    }
    if b != [] {
      SentByOne(source, b[0]);
      assert s.linux.queue != [] ==> Small(s.linux.queue[0]);
    }
  }

  lemma AdvanceClient(s: State, e: BridgeEvent)
    requires Healthy(s)
    ensures SentBy(BroadcastClient, Advance(s, e).output.toSerial) == HeardNow(s.connected, e)
    ensures Advance(s, e).state.connected == NextConnected(s.connected, e)
  {
    hide Step, Shape, SentBy, Healthy, FromClient, FromKernel, FromTty, AfterFetch;
    hide StaysConnected, Cut, ClientBroadcasts;
    SentByNone(BroadcastClient);
    if e.Dispatch? {
      TurnToSerial(BroadcastClient, s, e.p);
    }
  }

  // ----- The outputs turn by turn -----

  lemma {:induction false} RunBridgeSnoc(s: State, past: seq<BridgeEvent>, e: BridgeEvent)
    requires Healthy(s)
    ensures var mid := RunBridge(s, past);
            var last := Advance(mid.state, e);
            RunBridge(s, past + [e]) == BridgeRun(last.state, Plus(mid.output, last.output))
    decreases |past|
  {
    hide Advance, Healthy;
    if past == [] {
      assert past + [e] == [e] && [e][1..] == [];
      PlusNothing(Advance(s, e).output);
    } else {
      var first := Advance(s, past[0]);
      assert (past + [e])[0] == past[0] && (past + [e])[1..] == past[1..] + [e];
      RunBridgeSnoc(first.state, past[1..], e);
      var mid := RunBridge(first.state, past[1..]);
      PlusAssoc(first.output, mid.output, Advance(mid.state, e).output);
    }
  }

  lemma PlusNothing(o: Output)
    ensures Plus(o, NOTHING) == o && Plus(NOTHING, o) == o
  {
  }

  lemma PlusAssoc(a: Output, b: Output, c: Output)
    ensures Plus(a, Plus(b, c)) == Plus(Plus(a, b), c)
  {
    Assoc(a.toSerial, b.toSerial, c.toSerial);
    Assoc(a.toKernel, b.toKernel, c.toKernel);
    Assoc(a.toClient, b.toClient, c.toClient);
  }

  /** The packets waiting on a side after a run. */
  function TtyQueue(s: State, events: seq<BridgeEvent>): seq<seq<Byte>> {
    RunPort(s.tty, TtyView(events)).port.queue
  }

  function LinuxQueue(s: State, events: seq<BridgeEvent>): seq<seq<Byte>> {
    RunPort(s.linux, LinuxView(events)).port.queue
  }

  /** What the client gets in a turn: the first packet waiting on the serial side, if it is for everyone,
      somebody is connected once the turn has read from the client, and takes it. */
  function ClientGets(s: State, past: seq<BridgeEvent>, e: BridgeEvent): seq<seq<Byte>> {
    if e.Dispatch? && e.p.ttyReady && TtyQueue(s, past) != [] && ToAll(TtyQueue(s, past)[0])
       && Connected(s.connected, past + [e]) && e.p.clientTakes
    then [TtyQueue(s, past)[0]] else []
  }

  /** What the kernel gets in a turn: the first packet waiting on the serial side, if it is for one. */
  function KernelGets(s: State, past: seq<BridgeEvent>, e: BridgeEvent): seq<seq<Byte>> {
    if e.Dispatch? && e.p.ttyReady && TtyQueue(s, past) != [] && Unicast(TtyQueue(s, past)[0])
    then [TtyQueue(s, past)[0]] else []
  }

  /** What the serial line gets in a turn: the client's broadcast first, then the first packet waiting on
      the kernel side - an empty message if that side is ready and nothing waits. */
  function SerialGets(s: State, past: seq<BridgeEvent>, e: BridgeEvent): seq<seq<Byte>> {
    HeardNow(Connected(s.connected, past), e)
    + if e.Dispatch? && e.p.linuxReady
      then [if LinuxQueue(s, past) == [] then [] else LinuxQueue(s, past)[0]]
      else []
  }

  /** Every output of every run, turn by turn and in order. */
  lemma OutputsTurnByTurn(s: State, past: seq<BridgeEvent>, e: BridgeEvent)
    requires Healthy(s)
    ensures var before := RunBridge(s, past).output;
            var after := RunBridge(s, past + [e]).output;
            && after.toClient == before.toClient + ClientGets(s, past, e)
            && MessagesOf(after.toKernel) == MessagesOf(before.toKernel) + KernelGets(s, past, e)
            && AllSent(after.toSerial) == AllSent(before.toSerial) + SerialGets(s, past, e)
  {
    hide RunBridge, Advance, RunPort, Connected, HeardNow, Unicast, ToAll, AllSent, Healthy, NextConnected;
    var mid := RunBridge(s, past);
    RunBridgeSnoc(s, past, e);
    FromSerial(s, past);
    ToSerial(s, past);
    ConnectedAfter(s, past);
    ConnectedAfter(s, past + [e]);
    AdvanceOutputs(mid.state, e);
    MessagesOfConcat(mid.output.toKernel, Advance(mid.state, e).output.toKernel);
    AllSentConcat(mid.output.toSerial, Advance(mid.state, e).output.toSerial);
  }

  lemma AdvanceOutputs(s: State, e: BridgeEvent)
    requires Healthy(s)
    ensures var r := Advance(s, e);
            && r.output.toClient
               == (if e.Dispatch? && e.p.ttyReady && s.tty.queue != [] && ToAll(s.tty.queue[0])
                      && r.state.connected && e.p.clientTakes then [s.tty.queue[0]] else [])
            && MessagesOf(r.output.toKernel)
               == (if e.Dispatch? && e.p.ttyReady && s.tty.queue != [] && Unicast(s.tty.queue[0])
                   then [s.tty.queue[0]] else [])
            && AllSent(r.output.toSerial)
               == HeardNow(s.connected, e)
                + if e.Dispatch? && e.p.linuxReady then [if s.linux.queue == [] then [] else s.linux.queue[0]] else []
  {
    hide Turn, FromTty, FromClient, FromKernel, ToAll, Unicast, AllSent, Shape, HeardNow, Routable;
    if e.Dispatch? {
      TtyOutputs(s.tty, Turn(s, e.p).0.connected, e.p);
      SerialOutputs(s, e.p);
      TurnInParts(s, e.p);
    } else {
      NothingSent(s, e);
    }
  }

  lemma NothingSent(s: State, e: BridgeEvent)
    requires Healthy(s) && !e.Dispatch?
    ensures Advance(s, e).output == NOTHING && HeardNow(s.connected, e) == []
    ensures AllSent([]) == [] && MessagesOf([]) == []
  {
    hide Step, Shape;
  }

  lemma TurnInParts(s: State, p: Poll)
    requires Healthy(s)
    ensures var (next, output) := Turn(s, p);
            && output.toClient == FromTty(s.tty, next.connected, p).toClient
            && output.toKernel == FromTty(s.tty, next.connected, p).toKernel
            && Advance(s, Dispatch(p)) == BridgeRun(next, output)
  {
    hide FromTty, FromClient, FromKernel, AfterFetch, StaysConnected, Shape;
  }

  lemma TtyOutputs(tty: Port, connected: bool, p: Poll)
    requires Routable(tty)
    ensures FromTty(tty, connected, p).toClient
         == if p.ttyReady && tty.queue != [] && ToAll(tty.queue[0]) && connected && p.clientTakes
            then [tty.queue[0]] else []
    ensures MessagesOf(FromTty(tty, connected, p).toKernel)
         == if p.ttyReady && tty.queue != [] && Unicast(tty.queue[0]) then [tty.queue[0]] else []
  {
    hide Shape;
    if p.ttyReady && tty.queue != [] {
      assert Small(tty.queue[0]);
      assert [Attempt(tty.queue[0], p.ttyCalls)][1..] == [];
    }
  }

  lemma SerialOutputs(s: State, p: Poll)
    requires Healthy(s)
    ensures AllSent(Turn(s, p).1.toSerial)
         == HeardNow(s.connected, Dispatch(p))
          + if p.linuxReady then [if s.linux.queue == [] then [] else s.linux.queue[0]] else []
  {
    hide Shape, FromTty, AfterFetch, StaysConnected, AllSent;
    var a := FromClient(s.connected || p.accepts, p);
    var b := FromKernel(s.linux, p);
    assert s.linux.queue != [] ==> Small(s.linux.queue[0]);
    AllSentConcat(a, b);
    AllSentOne(a);
    AllSentOne(b);
  }

  lemma AllSentOne(sends: seq<SerialSend>)
    requires |sends| <= 1
    ensures AllSent(sends) == if sends == [] then [] else [sends[0].attempt.msg]
  {
    if sends != [] {
      AllSentCons(sends);
      assert sends[1..] == [];
    }
  }

  lemma {:induction false} AllSentConcat(a: seq<SerialSend>, b: seq<SerialSend>)
    ensures AllSent(a + b) == AllSent(a) + AllSent(b)
  {
    AttemptsAppend(a, b);
    MessagesOfConcat(Attempts(a), Attempts(b));
  }

  /** What a client says is received at the far end of the serial line exactly when it has 5 to 255
      octets: a longer message is cut to 256, which no length octet expresses. */
  lemma ClientMessageReceived(r: Rx, msg: seq<Byte>)
    requires Restartable(r)
    ensures Run(r, WireOf(Cut(msg))).delivered == if 5 <= |msg| <= 255 then [msg] else []
  {
    hide Run, WireOf;
    SendReceive(r, Cut(msg));
  }

  // ----- End to end -----

  function TtyBytes(events: seq<BridgeEvent>): seq<Byte> {
    BytesIn(TtyView(events))
  }

  /** The serial-side queue never overflows. */
  predicate TtyRoom(events: seq<BridgeEvent>) {
    forall i :: 0 <= i < |events| && events[i].TtyByte? ==> events[i].room
  }

  lemma {:induction false} RoomInView(events: seq<BridgeEvent>)
    requires TtyRoom(events)
    ensures forall i :: 0 <= i < |TtyView(events)| && TtyView(events)[i].Arrives? ==> TtyView(events)[i].room
    decreases |events|
  {
    if events != [] {
      assert events[0].TtyByte? ==> events[0].room;
      RoomInView(events[1..]);
    }
  }

  /** Over every run without overflow, the messages sent to the kernel, then the unicast packets still
      queued, are exactly the unicast packets among those decoded from the serial bytes. */
  lemma KernelGetsUnicasts(events: seq<BridgeEvent>)
    requires TtyRoom(events)
    ensures var run := RunBridge(START, events);
            MessagesOf(run.output.toKernel) + Filter(Unicast, run.state.tty.queue)
            == Filter(Unicast, Run(INITIAL, TtyBytes(events)).delivered)
  {
    hide Run, RunPort, RunBridge, Subsequence, Filter;
    var tty := RunPort(NEW_PORT, TtyView(events));
    FromSerial(START, events);
    QueueConserves(TtyView(events));
    RoomInView(events);
    FilterConcat(Unicast, tty.fetched, tty.port.queue);
  }

  lemma {:induction false} CompleteLine(attempts: seq<Attempt>)
    requires forall i :: 0 <= i < |attempts| ==> Complete(attempts[i])
    ensures Line(attempts) == WireAll(MessagesOf(attempts))
  {
    hide WireOf, Capacity;
    if attempts != [] {
      assert Complete(attempts[0]);
      CompleteLine(attempts[1..]);
      assert MessagesOf(attempts)[1..] == MessagesOf(attempts[1..]);
    }
  }

  lemma {:induction false} FilterKeeps<T>(f: T -> bool, g: T -> bool, s: seq<T>)
    requires forall x :: x in s ==> g(x)
    ensures forall i :: 0 <= i < |Filter(f, s)| ==> g(Filter(f, s)[i]) && f(Filter(f, s)[i])
    ensures (forall x :: x in s ==> f(x)) ==> Filter(f, s) == s
  {
    if s != [] {
      FilterKeeps(f, g, s[1..]);
      assert s == [s[0]] + s[1..];
    }
  }

  /** End to end: whatever bytes arrive on the serial side, once the queue is drained and if every
      write to the kernel side completes, the kernel side has been sent exactly the frames of the
      unicast packets decoded, and a receiver there decodes exactly those packets. */
  lemma Transparent(events: seq<BridgeEvent>)
    requires TtyRoom(events)
    requires var run := RunBridge(START, events);
             && run.state.tty.queue == []
             && forall i :: 0 <= i < |run.output.toKernel| ==> Complete(run.output.toKernel[i])
    ensures var packets := Filter(Unicast, Run(INITIAL, TtyBytes(events)).delivered);
            var line := Line(RunBridge(START, events).output.toKernel);
            line == WireAll(packets) && Run(INITIAL, line).delivered == packets
  {
    hide Run, RunBridge, WireAll, Line, Complete;
    var run := RunBridge(START, events);
    var decoded := Run(INITIAL, TtyBytes(events)).delivered;
    KernelGetsUnicasts(events);
    assert Filter(Unicast, run.state.tty.queue) == [];
    AppendNothing(MessagesOf(run.output.toKernel));
    CompleteLine(run.output.toKernel);
    DeliveredSizes(TtyBytes(events));
    FilterKeeps(Unicast, Small, decoded);
    var packets := Filter(Unicast, decoded);
    assert MessagesOf(run.output.toKernel) == packets;
    assert forall i :: 0 <= i < |packets| ==> Small(packets[i]);
    WireAllRun(INITIAL, packets);
  }

  /** A serial stream of version-1 unicast frames reaches the kernel side byte for byte. */
  lemma ByteTransparent(events: seq<BridgeEvent>, msgs: seq<seq<Byte>>)
    requires TtyRoom(events)
    requires var run := RunBridge(START, events);
             && run.state.tty.queue == []
             && forall i :: 0 <= i < |run.output.toKernel| ==> Complete(run.output.toKernel[i])
    requires TtyBytes(events) == WireAll(msgs)
    requires forall x :: x in msgs ==> Small(x) && Unicast(x)
    ensures Line(RunBridge(START, events).output.toKernel) == TtyBytes(events)
  {
    hide Run, RunBridge, WireAll, Line, Complete;
    Transparent(events);
    assert forall i :: 0 <= i < |msgs| ==> msgs[i] in msgs && Small(msgs[i]);
    WireAllRun(INITIAL, msgs);
    FilterKeeps(Unicast, Small, msgs);
  }

  // ----- End to end, towards the serial line -----

  /** `m` is made of the elements of `a` and those of `b`, each list in its order. */
  predicate Interleaves<T(==)>(m: seq<T>, a: seq<T>, b: seq<T>)
    decreases |m|
  {
    if m == [] then a == [] && b == []
    else
      || (a != [] && m[0] == a[0] && Interleaves(m[1..], a[1..], b))
      || (b != [] && m[0] == b[0] && Interleaves(m[1..], a, b[1..]))
  }

  lemma InterleavesCons<T>(x: T, m: seq<T>, a: seq<T>, b: seq<T>)
    requires Interleaves(m, a, b)
    ensures Interleaves([x] + m, [x] + a, b)
    ensures Interleaves([x] + m, a, [x] + b)
  {
    assert ([x] + m)[1..] == m && ([x] + a)[1..] == a && ([x] + b)[1..] == b;
  }

  function AllSent(sends: seq<SerialSend>): seq<seq<Byte>> {
    MessagesOf(Attempts(sends))
  }

  lemma {:induction false} SentInterleaved(sends: seq<SerialSend>)
    requires forall i :: 0 <= i < |sends| ==> sends[i].attempt.msg != []
    ensures Interleaves(AllSent(sends), SentBy(Kernel, sends), SentBy(BroadcastClient, sends))
  {
    if sends != [] {
      var x := sends[0];
      assert x.attempt.msg != [];
      SentInterleaved(sends[1..]);
      AllSentCons(sends);
      AppendNothing(SentBy(Kernel, sends[1..]));
      AppendNothing(SentBy(BroadcastClient, sends[1..]));
      InterleavesCons(x.attempt.msg, AllSent(sends[1..]), SentBy(Kernel, sends[1..]),
                      SentBy(BroadcastClient, sends[1..]));
    }
  }

  lemma AllSentCons(sends: seq<SerialSend>)
    requires sends != []
    ensures AllSent(sends) == [sends[0].attempt.msg] + AllSent(sends[1..])
    ensures Attempts(sends)[0] == sends[0].attempt && Attempts(sends)[1..] == Attempts(sends[1..])
  {
  }

  function LinuxBytes(events: seq<BridgeEvent>): seq<Byte> {
    BytesIn(LinuxView(events))
  }

  /** The kernel-side queue never overflows. */
  predicate LinuxRoom(events: seq<BridgeEvent>) {
    forall i :: 0 <= i < |events| && events[i].LinuxByte? ==> events[i].room
  }

  lemma {:induction false} RoomInLinuxView(events: seq<BridgeEvent>)
    requires LinuxRoom(events)
    ensures forall i :: 0 <= i < |LinuxView(events)| && LinuxView(events)[i].Arrives? ==> LinuxView(events)[i].room
    decreases |events|
  {
    if events != [] {
      assert events[0].LinuxByte? ==> events[0].room;
      RoomInLinuxView(events[1..]);
    }
  }

  /** A send that the far end of the serial line can receive. */
  predicate Receivable(x: SerialSend) {
    Complete(x.attempt) && x.attempt.msg != [] && (x.source == BroadcastClient ==> Small(x.attempt.msg))
  }

  lemma {:induction false} KernelSends(s: State, events: seq<BridgeEvent>)
    requires Healthy(s)
    ensures forall i :: 0 <= i < |RunBridge(s, events).output.toSerial| ==>
              (var x := RunBridge(s, events).output.toSerial[i];
               x.source == Kernel && x.attempt.msg != [] ==> Small(x.attempt.msg))
    decreases |events|
  {
    hide Healthy, Small, Shape, FromTty, FromClient, AfterFetch;
    if events != [] {
      KernelSendsNow(s, events[0]);
      KernelSends(Advance(s, events[0]).state, events[1..]);
    }
  }

  lemma KernelSendsNow(s: State, e: BridgeEvent)
    requires Healthy(s)
    ensures forall i :: 0 <= i < |Advance(s, e).output.toSerial| ==>
              (var x := Advance(s, e).output.toSerial[i];
               x.source == Kernel && x.attempt.msg != [] ==> Small(x.attempt.msg))
  {
    assert s.linux.queue != [] ==> Small(s.linux.queue[0]);
  }

  lemma ReceivedAtFarEnd(r: Rx, sends: seq<SerialSend>)
    requires Restartable(r)
    requires forall i :: 0 <= i < |sends| ==> Complete(sends[i].attempt) && Small(sends[i].attempt.msg)
    ensures Run(r, Line(Attempts(sends))).delivered == AllSent(sends)
  {
    hide Run, WireOf, Capacity, MessagesOf, Attempts, Line, Complete;
    AttemptsIn(sends);
    CompleteLine(Attempts(sends));
    WireAllRun(r, AllSent(sends));
  }

  lemma {:induction false} AttemptsIn(sends: seq<SerialSend>)
    ensures |Attempts(sends)| == |sends| == |AllSent(sends)|
    ensures forall i :: 0 <= i < |sends| ==>
              Attempts(sends)[i] == sends[i].attempt && AllSent(sends)[i] == sends[i].attempt.msg
  {
    if sends != [] {
      AttemptsIn(sends[1..]);
      AllSentCons(sends);
      assert forall i :: 0 < i < |sends| ==> sends[i] == sends[1..][i - 1];
      assert forall i :: 0 < i < |Attempts(sends)| ==> Attempts(sends)[i] == Attempts(sends)[1..][i - 1];
      assert forall i :: 0 < i < |AllSent(sends)| ==> AllSent(sends)[i] == AllSent(sends[1..])[i - 1];
    }
  }

  /** End to end, the other way: if the kernel-side queue never overflows, every write to the serial
      line completes, nothing empty is sent and the client's broadcasts have 5 to 255 octets, then a
      receiver at the far end of the line decodes an interleaving of the kernel's packets with the
      client's broadcasts, all of each in order; and the kernel's packets, then those still queued, are
      those decoded from the bytes the kernel side sent. */
  lemma SerialTransparent(events: seq<BridgeEvent>)
    requires LinuxRoom(events)
    requires forall x :: x in RunBridge(START, events).output.toSerial ==> Receivable(x)
    ensures var run := RunBridge(START, events);
            var fromKernel := SentBy(Kernel, run.output.toSerial);
            && Interleaves(Run(INITIAL, Line(Attempts(run.output.toSerial))).delivered,
                           fromKernel, HeardFrom(false, events))
            && fromKernel + run.state.linux.queue == Run(INITIAL, LinuxBytes(events)).delivered
  {
    hide Run, RunPort, RunBridge, Line, HeardFrom, Interleaves, SentBy, Attempts, AllSent, Complete, Small;
    var run := RunBridge(START, events);
    var sends := run.output.toSerial;
    InitialShape();
    ToSerial(START, events);
    KernelSends(START, events);
    forall i | 0 <= i < |sends|
      ensures Complete(sends[i].attempt) && Small(sends[i].attempt.msg) && sends[i].attempt.msg != []
    {
      assert sends[i] in sends;
      assert Receivable(sends[i]);
    }
    SentInterleaved(sends);
    ReceivedAtFarEnd(INITIAL, sends);
    RoomInLinuxView(events);
    QueueConserves(LinuxView(events));
  }
}
