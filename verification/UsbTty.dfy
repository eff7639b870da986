/** Forwarding between a pseudo-terminal and a USB serial device that comes and goes. */
module UsbTty {
  import opened Bytes

  /** What one turn of a forwarding write loop meets: room for some bytes (perhaps none), a transient
      error, or an error that ends the connection. */
  datatype Call = Takes(room: nat) | Retries | Breaks

  /** The bytes there is room for before the connection breaks. */
  function Room(calls: seq<Call>): nat {
    if calls == [] || calls[0].Breaks? then 0
    else (if calls[0].Takes? then calls[0].room else 0) + Room(calls[1..])
  }

  predicate Completes(chunk: seq<Byte>, calls: seq<Call>) {
    Room(calls) >= |chunk|
  }

  /** The loop retries without end, so the calls given must take it to one of its two ends. */
  predicate Ends(chunk: seq<Byte>, calls: seq<Call>) {
    Completes(chunk, calls) || Breaks in calls
  }

  function Forwarded(chunk: seq<Byte>, calls: seq<Call>): seq<Byte> {
    chunk[..Min(|chunk|, Room(calls))]
  }

  // ----- The same from the calls themselves -----

  /** No call breaks the connection: each takes some bytes, or none, or is a transient error. */
  predicate Unbroken(calls: seq<Call>) {
    forall i :: 0 <= i < |calls| ==> calls[i].Takes? || calls[i] == Retries
  }

  /** The room these calls offer in all. */
  function Rooms(calls: seq<Call>): nat {
    if calls == [] then 0 else (if calls[0].Takes? then calls[0].room else 0) + Rooms(calls[1..])
  }

  /** The first `k` calls do not break the connection and offer room for `n` bytes. */
  predicate Reaches(calls: seq<Call>, n: nat, k: nat)
    requires k <= |calls|
  {
    Unbroken(calls[..k]) && Rooms(calls[..k]) >= n
  }

  predicate Offers(calls: seq<Call>, n: nat) {
    exists k :: 0 <= k <= |calls| && Reaches(calls, n, k)
  }

  lemma UnbrokenCons(calls: seq<Call>, k: nat)
    requires 1 <= k <= |calls|
    ensures Unbroken(calls[..k]) <==> calls[0] != Breaks && Unbroken(calls[1..][..k - 1])
    ensures Rooms(calls[..k]) == (if calls[0].Takes? then calls[0].room else 0) + Rooms(calls[1..][..k - 1])
  {
    var s := calls[..k];
    assert s[0] == calls[0] && s[1..] == calls[1..][..k - 1];
    assert forall i :: 0 < i < k ==> s[i] == s[1..][i - 1];
  }

  lemma NoCalls()
    ensures Unbroken([]) && Rooms([]) == 0 && Room([]) == 0
  {
  }

  /** There is room for `n` bytes before the connection breaks exactly when some of the first calls, none
      of which breaks it, offer that much. */
  lemma {:induction false} RoomReaches(calls: seq<Call>, n: nat)
    ensures Room(calls) >= n <==> Offers(calls, n)
    decreases |calls|
  {
    hide Unbroken;
    NoCalls();
    assert calls[..0] == [];
    if n == 0 {
      assert Reaches(calls, 0, 0);
    } else if calls == [] || calls[0] == Breaks {
      forall k | 0 <= k <= |calls| ensures !Reaches(calls, n, k) {
        if k > 0 {
          UnbrokenCons(calls, k);
        }
      }
    } else {
      RoomMore(calls, n);
    }
  }

  lemma {:induction false} RoomMore(calls: seq<Call>, n: nat)
    requires calls != [] && calls[0] != Breaks && n > 0
    ensures Room(calls) >= n <==> Offers(calls, n)
    decreases |calls|, 0
  {
    hide Unbroken;
    var first := if calls[0].Takes? then calls[0].room else 0;
    var rest: nat := if n > first then n - first else 0;
    RoomReaches(calls[1..], rest);
    if k :| 0 <= k <= |calls[1..]| && Reaches(calls[1..], rest, k) {
      UnbrokenCons(calls, k + 1);
      assert Reaches(calls, n, k + 1);
    }
    NoCalls();
    assert calls[..0] == [];
    if k :| 0 <= k <= |calls| && Reaches(calls, n, k) {
      UnbrokenCons(calls, k);
      assert Reaches(calls[1..], rest, k - 1);
    }
  }

  /** A transient error changes nothing, wherever it comes. */
  lemma {:induction false} RetriesUnseen(a: seq<Call>, b: seq<Call>, chunk: seq<Byte>)
    ensures Room(a + [Retries] + b) == Room(a + b)
    ensures Forwarded(chunk, a + [Retries] + b) == Forwarded(chunk, a + b)
    decreases |a|
  {
    if a == [] {
      assert a + [Retries] + b == [Retries] + b && a + b == b && ([Retries] + b)[1..] == b;
    } else {
      RetriesUnseen(a[1..], b, chunk);
      assert (a + [Retries] + b)[0] == a[0] == (a + b)[0];
      assert (a + [Retries] + b)[1..] == a[1..] + [Retries] + b && (a + b)[1..] == a[1..] + b;
    }
  }

  /** Nothing is passed on after a break. */
  lemma {:induction false} BreaksThere(a: seq<Call>, b: seq<Call>)
    requires Unbroken(a)
    ensures Room(a + [Breaks] + b) == Rooms(a)
    decreases |a|
  {
    if a == [] {
      assert a + [Breaks] + b == [Breaks] + b;
    } else {
      UnbrokenCons(a, |a|);
      assert a[..|a|] == a && a[1..][..|a| - 1] == a[1..];
      BreaksThere(a[1..], b);
      assert (a + [Breaks] + b)[0] == a[0] && (a + [Breaks] + b)[1..] == a[1..] + [Breaks] + b;
    }
  }

  /** The forwarding write loop: the whole chunk, or a prefix of it and a broken connection. */
  method WriteChunk(chunk: seq<Byte>, calls: seq<Call>) returns (out: seq<Byte>, ok: bool)
    requires Ends(chunk, calls)
    ensures out == Forwarded(chunk, calls)
    ensures ok == Completes(chunk, calls)
    ensures out <= chunk
    ensures forall n: nat :: n <= |chunk| ==> (|out| >= n <==> Offers(calls, n))
    ensures ok <==> out == chunk
  {
    hide Offers;
    forall n: nat | n <= |chunk|
      ensures Room(calls) >= n <==> Offers(calls, n)
    {
      RoomReaches(calls, n);
    }
    var written := 0;
    var i := 0;
    out := [];
    while written < |chunk|
      invariant 0 <= written <= |chunk| && 0 <= i <= |calls|
      invariant out == chunk[..written]
      invariant Min(|chunk|, written + Room(calls[i..])) == Min(|chunk|, Room(calls))
      invariant written < |chunk| ==> (Completes(chunk, calls) || Breaks in calls[i..])
      decreases |calls| - i
    {
      NoneLeft(calls[i..]);
      assert calls[i..][0] == calls[i] && calls[i..][1..] == calls[i + 1..];
      match calls[i] {
        case Takes(room) =>
          var w := Min(room, |chunk| - written);
          out := out + chunk[written..written + w];
          written := written + w;
        case Retries =>
        case Breaks =>
          ok := false;
          return;
      }
      i := i + 1;
    }
    ok := true;
  }

  lemma NoneLeft(calls: seq<Call>)
    ensures calls == [] ==> Room(calls) == 0 && Breaks !in calls
  {
  }

  /** One direction of one attachment: the bytes passed on, the chunks read, and whether a write
      error ended it. */
  datatype Stream = Stream(bytes: seq<Byte>, chunks: seq<seq<Byte>>, cut: bool)

  /** One attachment of a device: what was written to it, and what was read from it. */
  datatype Session = Session(down: Stream, up: Stream)

  const NEW_SESSION := Session(Stream([], [], false), Stream([], [], false))

  /** All sessions so far, the last one live if `attached`; and what the pseudo-terminal was sent. */
  datatype Usb = Usb(sessions: seq<Session>, attached: bool, toPty: seq<Byte>)

  const UNPLUGGED := Usb([], false, [])

  datatype DeviceRead = Data(chunk: seq<Byte>) | EndOfFile | Transient | Error

  datatype UsbEvent =
    | Added(usable: bool)
    | Removed
    | PtyRead(chunk: seq<Byte>, calls: seq<Call>)
    | DeviceReads(read: DeviceRead, calls: seq<Call>)

  /** Whether a device is attached after an event: decided by the event alone. */
  function NextAttached(attached: bool, e: UsbEvent): bool {
    match e
    case Added(usable) => attached || usable
    case Removed => false
    case PtyRead(chunk, calls) => attached && Completes(chunk, calls)
    case DeviceReads(read, calls) =>
      attached && (match read
                   case Data(chunk) => Completes(chunk, calls)
                   case EndOfFile => false
                   case Transient => true
                   case Error => false)
  }

  function Last(s: Usb): Session
    requires s.sessions != []
  {
    s.sessions[|s.sessions| - 1]
  }

  function WithLast(s: Usb, x: Session): Usb
    requires s.sessions != []
  {
    s.(sessions := s.sessions[..|s.sessions| - 1] + [x])
  }

  class ManagedUsbTty {
    var sessions: seq<Session>
    var attached: bool
    var toPty: seq<Byte>

    ghost function State(): Usb
      reads this
    {
      Usb(sessions, attached, toPty)
    }

    ghost predicate Valid()
      reads this
    {
      Consistent(State())
    }

    constructor ()
      ensures Valid() && State() == UNPLUGGED
    {
      sessions, attached, toPty := [], false, [];
    }

    /** A matching device appears: a usable one becomes the device, even if one was attached. */
    method HandleAdd(usable: bool)
      requires Valid()
      modifies this
      ensures Valid() && State() == StepUsb(old(State()), Added(usable))
    {
      if usable {
        sessions := sessions + [NEW_SESSION];
        attached := true;
      }
    }

    method HandleRemove()
      requires Valid()
      modifies this
      ensures Valid() && State() == StepUsb(old(State()), Removed)
    {
      if attached {
        attached := false;
      }
    }

    /** Data from the pseudo-terminal goes to the device, if there is one. */
    method HandlePty(chunk: seq<Byte>, calls: seq<Call>)
      requires Valid() && Ends(chunk, calls)
      modifies this
      ensures Valid() && State() == StepUsb(old(State()), PtyRead(chunk, calls))
    {
      StepConsistent(State(), PtyRead(chunk, calls));
      if |chunk| > 0 && attached {
        var out, ok := WriteChunk(chunk, calls);
        var n := |sessions| - 1;
        var x := sessions[n];
        sessions := sessions[..n] + [x.(down := Stream(x.down.bytes + out, x.down.chunks + [chunk], !ok))];
        if !ok {
          attached := false;
        }
      }
    }

    /** Data from the device goes to the pseudo-terminal; end of file and errors detach the device. */
    method HandleDevice(read: DeviceRead, calls: seq<Call>)
      requires Valid() && (read.Data? ==> Ends(read.chunk, calls))
      modifies this
      ensures Valid() && State() == StepUsb(old(State()), DeviceReads(read, calls))
    {
      StepConsistent(State(), DeviceReads(read, calls));
      if attached {
        match read {
          case Data(chunk) =>
            var out, ok := WriteChunk(chunk, calls);
            toPty := toPty + out;
            var n := |sessions| - 1;
            var x := sessions[n];
            sessions := sessions[..n] + [x.(up := Stream(x.up.bytes + out, x.up.chunks + [chunk], !ok))];
            if !ok {
              attached := false;
            }
          case EndOfFile =>
            attached := false;
          case Transient =>
          case Error =>
            attached := false;
        }
      }
    }
  }

  /** A stream after one more chunk. */
  function Piece(x: Stream, chunk: seq<Byte>, calls: seq<Call>): Stream {
    Stream(x.bytes + Forwarded(chunk, calls), x.chunks + [chunk], !Completes(chunk, calls))
  }

  function StepUsb(s: Usb, e: UsbEvent): Usb
    requires s.attached ==> s.sessions != []
  {
    var next := s.(attached := NextAttached(s.attached, e));
    match e
    case Added(usable) => if usable then next.(sessions := s.sessions + [NEW_SESSION]) else next
    case Removed => next
    case PtyRead(chunk, calls) =>
      if chunk == [] || !s.attached then s
      else WithLast(next, Last(s).(down := Piece(Last(s).down, chunk, calls)))
    case DeviceReads(read, calls) =>
      if s.attached && read.Data?
      then WithLast(next, Last(s).(up := Piece(Last(s).up, read.chunk, calls)))
           .(toPty := s.toPty + Forwarded(read.chunk, calls))
      else next
  }

  /** What a stream has passed on: every chunk read for it, in order and whole, except that the chunk
      whose write broke the connection may be cut - and then it is the last. */
  predicate Conserved(x: Stream) {
    if !x.cut then x.bytes == Flatten(x.chunks)
    else
      && x.chunks != []
      && var init, last := x.chunks[..|x.chunks| - 1], x.chunks[|x.chunks| - 1];
      && |Flatten(init)| <= |x.bytes| < |Flatten(init)| + |last|
      && x.bytes == Flatten(init) + last[..|x.bytes| - |Flatten(init)|]
  }

  /** What all sessions have sent up, session after session. */
  function AllUp(sessions: seq<Session>): seq<Byte> {
    if sessions == [] then [] else AllUp(sessions[..|sessions| - 1]) + sessions[|sessions| - 1].up.bytes
  }

  predicate Consistent(s: Usb) {
    && (s.attached ==> s.sessions != [] && !Last(s).down.cut && !Last(s).up.cut)
    && (forall i :: 0 <= i < |s.sessions| ==> Conserved(s.sessions[i].down) && Conserved(s.sessions[i].up))
    && s.toPty == AllUp(s.sessions)
  }

  lemma FlattenSnoc(a: seq<seq<Byte>>, x: seq<Byte>)
    ensures Flatten(a + [x]) == Flatten(a) + x
  {
    FlattenAppend(a, [x]);
    assert [x][1..] == [];
    assert Flatten([x]) == x + [];
  }

  lemma PieceConserved(x: Stream, chunk: seq<Byte>, calls: seq<Call>)
    requires Conserved(x) && !x.cut
    ensures Conserved(Piece(x, chunk, calls))
  {
    hide Flatten, Room;
    FlattenSnoc(x.chunks, chunk);
    assert (x.chunks + [chunk])[..|x.chunks|] == x.chunks;
    if Completes(chunk, calls) {
      assert Forwarded(chunk, calls) == chunk;
    }
  }

  lemma UpOfLast(sessions: seq<Session>, x: Session)
    ensures AllUp(sessions + [x]) == AllUp(sessions) + x.up.bytes
  {
    assert (sessions + [x])[..|sessions|] == sessions;
  }

  /** The non-empty chunks read from the pseudo-terminal while a device was attached. */
  function ReadDown(attached: bool, e: UsbEvent): seq<seq<Byte>> {
    if attached && e.PtyRead? && e.chunk != [] then [e.chunk] else []
  }

  /** The chunks read from an attached device. */
  function ReadUp(attached: bool, e: UsbEvent): seq<seq<Byte>> {
    if attached && e.DeviceReads? && e.read.Data? then [e.read.chunk] else []
  }

  /** The part of such a chunk that its write passed on. */
  function SentDown(attached: bool, e: UsbEvent): seq<Byte> {
    if attached && e.PtyRead? && e.chunk != [] then Forwarded(e.chunk, e.calls) else []
  }

  function SentUp(attached: bool, e: UsbEvent): seq<Byte> {
    if attached && e.DeviceReads? && e.read.Data? then Forwarded(e.read.chunk, e.calls) else []
  }

  /** A write error broke the writing of such a chunk. */
  predicate BrokeDown(attached: bool, e: UsbEvent) {
    attached && e.PtyRead? && e.chunk != [] && !Completes(e.chunk, e.calls)
  }

  predicate BrokeUp(attached: bool, e: UsbEvent) {
    attached && e.DeviceReads? && e.read.Data? && !Completes(e.read.chunk, e.calls)
  }

  /** Whether a session of a state is the one in use. */
  predicate Live(s: Usb, i: int) {
    s.attached && i == |s.sessions| - 1
  }

  /** Session `i` is cut after an event if it was before, or if it is in use and the event is a write of
      its own that broke; and otherwise not. */
  predicate Cuts(s: Usb, e: UsbEvent, i: int)
    requires Consistent(s) && 0 <= i < |StepUsb(s, e).sessions|
  {
    var x := StepUsb(s, e).sessions[i];
    && (x.down.cut <==> (i < |s.sessions| && s.sessions[i].down.cut) || (Live(s, i) && BrokeDown(true, e)))
    && (x.up.cut <==> (i < |s.sessions| && s.sessions[i].up.cut) || (Live(s, i) && BrokeUp(true, e)))
  }

  lemma StepCuts(s: Usb, e: UsbEvent, i: int)
    requires Consistent(s) && 0 <= i < |StepUsb(s, e).sessions|
    ensures Cuts(s, e, i)
  {
    hide Forwarded, Completes, Flatten, Conserved, AllUp;
  }

  /** Every event keeps the invariant; and a stream is cut by an event exactly when the event is a write
      of its own, in the session in use, that a write error broke. */
  lemma StepConsistent(s: Usb, e: UsbEvent)
    requires Consistent(s)
    ensures Consistent(StepUsb(s, e))
    ensures forall i :: 0 <= i < |StepUsb(s, e).sessions| ==> Cuts(s, e, i)
  {
    hide Forwarded, Completes, Flatten, Conserved, AllUp, Cuts, BrokeDown, BrokeUp;
    forall i | 0 <= i < |StepUsb(s, e).sessions|
      ensures Cuts(s, e, i)
    {
      StepCuts(s, e, i);
    }
    match e {
      case Added(usable) =>
        NewSession();
        UpOfLast(s.sessions, NEW_SESSION);
      case Removed =>
      case PtyRead(chunk, calls) =>
        if chunk != [] && s.attached {
          var before := s.sessions[..|s.sessions| - 1];
          assert s.sessions == before + [Last(s)];
          PieceConserved(Last(s).down, chunk, calls);
          UpOfLast(before, Last(s));
          UpOfLast(before, Last(StepUsb(s, e)));
        }
      case DeviceReads(read, calls) =>
        if read.Data? && s.attached {
          var before := s.sessions[..|s.sessions| - 1];
          assert s.sessions == before + [Last(s)];
          PieceConserved(Last(s).up, read.chunk, calls);
          UpOfLast(before, Last(s));
          UpOfLast(before, Last(StepUsb(s, e)));
          Assoc(AllUp(before), Last(s).up.bytes, Forwarded(read.chunk, calls));
        }
    }
  }

  lemma NewSession()
    ensures Conserved(NEW_SESSION.down) && Conserved(NEW_SESSION.up)
  {
  }

  function RunUsb(s: Usb, events: seq<UsbEvent>): (r: Usb)
    requires Consistent(s)
    ensures Consistent(r)
    decreases |events|
  {
    if events == [] then s
    else
      StepConsistent(s, events[0]);
      RunUsb(StepUsb(s, events[0]), events[1..])
  }

  function AllReadDown(attached: bool, events: seq<UsbEvent>): seq<seq<Byte>>
    decreases |events|
  {
    if events == [] then []
    else ReadDown(attached, events[0]) + AllReadDown(NextAttached(attached, events[0]), events[1..])
  }

  function AllReadUp(attached: bool, events: seq<UsbEvent>): seq<seq<Byte>>
    decreases |events|
  {
    if events == [] then []
    else ReadUp(attached, events[0]) + AllReadUp(NextAttached(attached, events[0]), events[1..])
  }

  function AllSentDown(attached: bool, events: seq<UsbEvent>): seq<Byte>
    decreases |events|
  {
    if events == [] then []
    else SentDown(attached, events[0]) + AllSentDown(NextAttached(attached, events[0]), events[1..])
  }

  function AllSentUp(attached: bool, events: seq<UsbEvent>): seq<Byte>
    decreases |events|
  {
    if events == [] then []
    else SentUp(attached, events[0]) + AllSentUp(NextAttached(attached, events[0]), events[1..])
  }

  predicate CutDown(attached: bool, events: seq<UsbEvent>)
    decreases |events|
  {
    events != []
    && (BrokeDown(attached, events[0]) || CutDown(NextAttached(attached, events[0]), events[1..]))
  }

  predicate CutUp(attached: bool, events: seq<UsbEvent>)
    decreases |events|
  {
    events != []
    && (BrokeUp(attached, events[0]) || CutUp(NextAttached(attached, events[0]), events[1..]))
  }

  function DownChunks(sessions: seq<Session>): seq<seq<Byte>> {
    if sessions == [] then [] else DownChunks(sessions[..|sessions| - 1]) + sessions[|sessions| - 1].down.chunks
  }

  function UpChunks(sessions: seq<Session>): seq<seq<Byte>> {
    if sessions == [] then [] else UpChunks(sessions[..|sessions| - 1]) + sessions[|sessions| - 1].up.chunks
  }

  /** What all sessions have been sent down, session after session. */
  function AllDown(sessions: seq<Session>): seq<Byte> {
    if sessions == [] then [] else AllDown(sessions[..|sessions| - 1]) + sessions[|sessions| - 1].down.bytes
  }

  lemma ChunksOfLast(sessions: seq<Session>, x: Session)
    ensures DownChunks(sessions + [x]) == DownChunks(sessions) + x.down.chunks
    ensures UpChunks(sessions + [x]) == UpChunks(sessions) + x.up.chunks
    ensures AllDown(sessions + [x]) == AllDown(sessions) + x.down.bytes
  {
    assert (sessions + [x])[..|sessions|] == sessions;
  }

  lemma StepAttached(s: Usb, e: UsbEvent)
    requires Consistent(s)
    ensures StepUsb(s, e).attached == NextAttached(s.attached, e)
  {
    hide Conserved, AllUp, Forwarded, Room;
    if e.PtyRead? && e.chunk == [] {
      assert Completes(e.chunk, e.calls);
    }
  }

  lemma StepChunks(s: Usb, e: UsbEvent)
    requires Consistent(s)
    ensures DownChunks(StepUsb(s, e).sessions) == DownChunks(s.sessions) + ReadDown(s.attached, e)
    ensures UpChunks(StepUsb(s, e).sessions) == UpChunks(s.sessions) + ReadUp(s.attached, e)
    ensures AllDown(StepUsb(s, e).sessions) == AllDown(s.sessions) + SentDown(s.attached, e)
    ensures StepUsb(s, e).toPty == s.toPty + SentUp(s.attached, e)
    ensures StepUsb(s, e).attached == NextAttached(s.attached, e)
  {
    hide Conserved, AllUp, DownChunks, UpChunks, AllDown, Forwarded, Completes;
    StepAttached(s, e);
    if e.Added? && e.usable {
      ChunksOfLast(s.sessions, NEW_SESSION);
    } else if StepUsb(s, e).sessions != s.sessions {
      var before := s.sessions[..|s.sessions| - 1];
      var x, y := Last(s), Last(StepUsb(s, e));
      assert s.sessions == before + [x];
      ChunksOfLast(before, x);
      ChunksOfLast(before, y);
      Assoc(DownChunks(before), x.down.chunks, ReadDown(s.attached, e));
      Assoc(UpChunks(before), x.up.chunks, ReadUp(s.attached, e));
      Assoc(AllDown(before), x.down.bytes, SentDown(s.attached, e));
    }
  }

  /** Over any run of attach, detach, read and write events: the chunks of the sessions, session after
      session, are exactly the chunks read while a device was attached, in each direction; the bytes
      sent to the devices, and to the pseudo-terminal, are exactly the parts of those chunks that their
      writes passed on; and every stream passed its chunks on in order, whole but for a last one. */
  lemma {:induction false} UsbConserves(s: Usb, events: seq<UsbEvent>)
    requires Consistent(s)
    ensures Consistent(RunUsb(s, events))
    ensures var r := RunUsb(s, events);
            && DownChunks(r.sessions) == DownChunks(s.sessions) + AllReadDown(s.attached, events)
            && UpChunks(r.sessions) == UpChunks(s.sessions) + AllReadUp(s.attached, events)
            && AllDown(r.sessions) == AllDown(s.sessions) + AllSentDown(s.attached, events)
            && r.toPty == s.toPty + AllSentUp(s.attached, events)
    decreases |events|
  {
    hide StepUsb, Conserved, DownChunks, UpChunks, ReadDown, ReadUp, Completes, AllUp, NextAttached;
    hide AllDown, SentDown, SentUp;
    if events != [] {
      var e := events[0];
      StepConsistent(s, e);
      StepChunks(s, e);
      var next := StepUsb(s, e);
      UsbConserves(next, events[1..]);
      Assoc(DownChunks(s.sessions), ReadDown(s.attached, e), AllReadDown(next.attached, events[1..]));
      Assoc(UpChunks(s.sessions), ReadUp(s.attached, e), AllReadUp(next.attached, events[1..]));
      Assoc(AllDown(s.sessions), SentDown(s.attached, e), AllSentDown(next.attached, events[1..]));
      Assoc(s.toPty, SentUp(s.attached, e), AllSentUp(next.attached, events[1..]));
    }
  }

  // ----- Session by session -----

  /** Whether an event starts a session. */
  predicate Arrival(e: UsbEvent) {
    e.Added? && e.usable
  }

  function Arrivals(events: seq<UsbEvent>): nat {
    if events == [] then 0 else (if Arrival(events[0]) then 1 else 0) + Arrivals(events[1..])
  }

  lemma {:induction false} RunUsbConcat(s: Usb, a: seq<UsbEvent>, b: seq<UsbEvent>)
    requires Consistent(s)
    ensures RunUsb(s, a + b) == RunUsb(RunUsb(s, a), b)
    decreases |a|
  {
    hide StepUsb, Conserved, AllUp;
    if a == [] {
      assert a + b == b;
    } else {
      assert (a + b)[0] == a[0] && (a + b)[1..] == a[1..] + b;
      StepConsistent(s, a[0]);
      RunUsbConcat(StepUsb(s, a[0]), a[1..], b);
    }
  }

  lemma StepKeeps(s: Usb, e: UsbEvent, n: nat)
    requires Consistent(s) && n <= |s.sessions| && (s.attached ==> n < |s.sessions|)
    ensures var next := StepUsb(s, e);
            n <= |next.sessions| && next.sessions[..n] == s.sessions[..n]
            && (next.attached ==> n < |next.sessions|)
    ensures |StepUsb(s, e).sessions| == |s.sessions| + Arrivals([e])
  {
    hide Conserved, AllUp, Piece, Forwarded;
    assert [e][1..] == [];
  }

  /** No event touches a session that is over. */
  lemma {:induction false} KeepsOlder(s: Usb, events: seq<UsbEvent>, n: nat)
    requires Consistent(s) && n <= |s.sessions| && (s.attached ==> n < |s.sessions|)
    ensures n <= |RunUsb(s, events).sessions| && RunUsb(s, events).sessions[..n] == s.sessions[..n]
    ensures |RunUsb(s, events).sessions| == |s.sessions| + Arrivals(events)
    decreases |events|
  {
    hide StepUsb, Consistent;
    if events != [] {
      StepConsistent(s, events[0]);
      StepKeeps(s, events[0], n);
      assert [events[0]][1..] == [];
      KeepsOlder(StepUsb(s, events[0]), events[1..], n);
    }
  }

  /** What a stream becomes when it takes these chunks, and these bytes of them, and is perhaps cut. */
  function Grown(x: Stream, chunks: seq<seq<Byte>>, bytes: seq<Byte>, cut: bool): Stream {
    Stream(x.bytes + bytes, x.chunks + chunks, x.cut || cut)
  }

  lemma GrownTwice(x: Stream, chunks: seq<seq<Byte>>, bytes: seq<Byte>, cut: bool,
                   chunks': seq<seq<Byte>>, bytes': seq<Byte>, cut': bool)
    ensures Grown(Grown(x, chunks, bytes, cut), chunks', bytes', cut')
         == Grown(x, chunks + chunks', bytes + bytes', cut || cut')
  {
    Assoc(x.bytes, bytes, bytes');
    Assoc(x.chunks, chunks, chunks');
  }

  lemma NotGrown(x: Stream)
    ensures Grown(x, [], [], false) == x
  {
  }

  lemma StepGrowsLast(s: Usb, e: UsbEvent)
    requires Consistent(s) && s.sessions != [] && !Arrival(e)
    ensures var next := StepUsb(s, e);
            && next.sessions != [] && next.attached == NextAttached(s.attached, e)
            && Last(next).down
               == Grown(Last(s).down, ReadDown(s.attached, e), SentDown(s.attached, e), BrokeDown(s.attached, e))
            && Last(next).up
               == Grown(Last(s).up, ReadUp(s.attached, e), SentUp(s.attached, e), BrokeUp(s.attached, e))
  {
    hide Conserved, AllUp, Forwarded, Completes;
    StepAttached(s, e);
    NotGrown(Last(s).down);
    NotGrown(Last(s).up);
  }

  /** Until the next device arrives, the last session takes exactly what is read while it is attached,
      passes on exactly what the writes pass on, and is cut exactly when a write error breaks a write. */
  lemma {:induction false} GrowsLast(s: Usb, events: seq<UsbEvent>)
    requires Consistent(s) && s.sessions != [] && Arrivals(events) == 0
    ensures var r := RunUsb(s, events);
            var a := s.attached;
            && r.sessions != []
            && Last(r).down == Grown(Last(s).down, AllReadDown(a, events), AllSentDown(a, events), CutDown(a, events))
            && Last(r).up == Grown(Last(s).up, AllReadUp(a, events), AllSentUp(a, events), CutUp(a, events))
    decreases |events|
  {
    hide StepUsb, Conserved, AllUp, ReadDown, ReadUp, NextAttached, SentDown, SentUp, BrokeDown, BrokeUp, Grown;
    if events == [] {
      NotGrown(Last(s).down);
      NotGrown(Last(s).up);
    } else {
      var e, a, rest := events[0], s.attached, events[1..];
      StepConsistent(s, e);
      StepGrowsLast(s, e);
      var next := StepUsb(s, e);
      var a' := next.attached;
      GrowsLast(next, rest);
      GrownTwice(Last(s).down, ReadDown(a, e), SentDown(a, e), BrokeDown(a, e),
                 AllReadDown(a', rest), AllSentDown(a', rest), CutDown(a', rest));
      GrownTwice(Last(s).up, ReadUp(a, e), SentUp(a, e), BrokeUp(a, e),
                 AllReadUp(a', rest), AllSentUp(a', rest), CutUp(a', rest));
    }
  }

  lemma Arrived(s: Usb)
    requires Consistent(s)
    ensures Consistent(StepUsb(s, Added(true)))
    ensures RunUsb(s, [Added(true)]) == StepUsb(s, Added(true))
    ensures StepUsb(s, Added(true)) == Usb(s.sessions + [NEW_SESSION], true, s.toPty)
  {
    StepConsistent(s, Added(true));
    assert [Added(true)][1..] == [];
  }

  lemma Unplugged()
    ensures Consistent(UNPLUGGED)
  {
  }

  /** What follows a session, an arrival first, leaves it alone. */
  lemma LaterKeeps(s: Usb, post: seq<UsbEvent>)
    requires Consistent(s) && s.sessions != [] && (post == [] || Arrival(post[0]))
    ensures var r := RunUsb(s, post);
            |r.sessions| == |s.sessions| + Arrivals(post) && r.sessions[|s.sessions| - 1] == Last(s)
  {
    hide StepUsb, Conserved, AllUp;
    var n := |s.sessions|;
    if post != [] {
      Arrived(s);
      var next := StepUsb(s, post[0]);
      assert post[0] == Added(true);
      KeepsOlder(next, post[1..], n);
      assert RunUsb(s, post).sessions[n - 1] == next.sessions[..n][n - 1];
    }
  }

  /** What is read and passed on while a device is attached. */
  function Traffic(attached: bool, v: seq<UsbEvent>): Session {
    Session(Stream(AllSentDown(attached, v), AllReadDown(attached, v), CutDown(attached, v)),
            Stream(AllSentUp(attached, v), AllReadUp(attached, v), CutUp(attached, v)))
  }

  /** The session of a device that lives through `v`: the chunks read while it was attached, the parts
      of them that the writes passed on, and whether a write error broke one. */
  function SessionOf(v: seq<UsbEvent>): Session {
    Traffic(true, v)
  }

  lemma LifeOfSession(s: Usb, v: seq<UsbEvent>)
    requires Consistent(s) && Arrivals(v) == 0
    ensures Consistent(StepUsb(s, Added(true)))
    ensures var r := RunUsb(StepUsb(s, Added(true)), v);
            && |r.sessions| == |s.sessions| + 1
            && Last(r) == SessionOf(v)
            && Conserved(Last(r).down) && Conserved(Last(r).up)
  {
    hide RunUsb, StepUsb, AllReadDown, AllReadUp, AllSentDown, AllSentUp, CutDown, CutUp, AllUp, Conserved;
    Arrived(s);
    var next := StepUsb(s, Added(true));
    assert Last(next) == NEW_SESSION;
    GrowsLast(next, v);
    KeepsOlder(next, v, 0);
  }

  /** The device that arrives after `pre` and lives through `v`: what comes later, an arrival first,
      leaves its session alone, and its session is exactly this. It holds the chunks read in `v` before
      it was detached, in each direction, and the parts of them that were passed on: those chunks in
      order, whole when no write error broke a write to it, and otherwise whole but for the last one,
      whose write broke. There are as many sessions as arrivals. */
  lemma SessionConserves(pre: seq<UsbEvent>, v: seq<UsbEvent>, post: seq<UsbEvent>)
    requires Arrivals(v) == 0 && (post == [] || Arrival(post[0]))
    ensures Consistent(UNPLUGGED)
    ensures var sessions := RunUsb(UNPLUGGED, pre + [Added(true)] + v + post).sessions;
            var k := Arrivals(pre);
            && |sessions| == k + 1 + Arrivals(post)
            && sessions[k] == SessionOf(v)
            && Conserved(SessionOf(v).down) && Conserved(SessionOf(v).up)
  {
    hide RunUsb, StepUsb, SessionOf, AllUp, Conserved, Arrivals;
    Unplugged();
    var s0 := RunUsb(UNPLUGGED, pre);
    KeepsOlder(UNPLUGGED, pre, 0);
    RunUsbConcat(UNPLUGGED, pre, [Added(true)]);
    Arrived(s0);
    RunUsbConcat(UNPLUGGED, pre + [Added(true)], v);
    LifeOfSession(s0, v);
    RunUsbConcat(UNPLUGGED, pre + [Added(true)] + v, post);
    LaterKeeps(RunUsb(StepUsb(s0, Added(true)), v), post);
  }

  /** Every session of every run has such a place: its arrival, its life, and the arrivals after it. */
  lemma {:induction false} SessionPlace(events: seq<UsbEvent>, k: nat)
    returns (pre: seq<UsbEvent>, v: seq<UsbEvent>, post: seq<UsbEvent>)
    requires k < Arrivals(events)
    ensures events == pre + [Added(true)] + v + post
    ensures Arrivals(pre) == k && Arrivals(v) == 0 && (post == [] || Arrival(post[0]))
    decreases |events|
  {
    if k == 0 && Arrival(events[0]) {
      pre := [];
      v, post := UntilArrival(events[1..]);
    } else {
      var rest := if Arrival(events[0]) then k - 1 else k;
      pre, v, post := SessionPlace(events[1..], rest);
      var before := pre;
      pre := [events[0]] + before;
      assert pre[1..] == before;
    }
  }

  lemma {:induction false} UntilArrival(events: seq<UsbEvent>) returns (v: seq<UsbEvent>, post: seq<UsbEvent>)
    ensures events == v + post && Arrivals(v) == 0 && (post == [] || Arrival(post[0]))
    decreases |events|
  {
    if events == [] || Arrival(events[0]) {
      v, post := [], events;
    } else {
      v, post := UntilArrival(events[1..]);
      var after := v;
      v := [events[0]] + after;
      assert v[1..] == after;
    }
  }

  // ----- When a device is attached -----

  /** The writing of a chunk is broken: no first calls that keep the connection offer room for it. */
  predicate Fails(chunk: seq<Byte>, calls: seq<Call>) {
    !Offers(calls, |chunk|)
  }

  /** What ends an attachment: a removal, the end of the device's file, an error in reading from it, and
      an error in writing what was read, on either side. */
  predicate Detaches(e: UsbEvent) {
    || e == Removed
    || (e.PtyRead? && e.chunk != [] && Fails(e.chunk, e.calls))
    || (e.DeviceReads? && e.read == EndOfFile)
    || (e.DeviceReads? && e.read == Error)
    || (e.DeviceReads? && e.read.Data? && Fails(e.read.chunk, e.calls))
  }

  predicate NoneDetaches(events: seq<UsbEvent>) {
    forall i :: 0 <= i < |events| ==> !Detaches(events[i])
  }

  /** A usable device is added at `i`, and nothing detaches it after that. */
  predicate ArrivedAt(events: seq<UsbEvent>, i: nat)
    requires i < |events|
  {
    events[i] == Added(true) && NoneDetaches(events[i + 1..])
  }

  /** Whether a device is attached after a run: one that was there before, or one added in it, and not
      detached since. */
  predicate AttachedBy(attached: bool, events: seq<UsbEvent>) {
    (attached && NoneDetaches(events)) || exists i :: 0 <= i < |events| && ArrivedAt(events, i)
  }

  lemma NoneDetachesCons(e: UsbEvent, rest: seq<UsbEvent>)
    ensures NoneDetaches([e] + rest) <==> !Detaches(e) && NoneDetaches(rest)
  {
    hide Detaches;
    assert ([e] + rest)[0] == e;
    assert forall i :: 0 <= i < |rest| ==> rest[i] == ([e] + rest)[i + 1];
  }

  lemma DetachesNext(attached: bool, e: UsbEvent)
    ensures NextAttached(attached, e) <==> e == Added(true) || (attached && !Detaches(e))
  {
    hide Room, Offers;
    if e.PtyRead? {
      RoomReaches(e.calls, |e.chunk|);
    } else if e.DeviceReads? && e.read.Data? {
      RoomReaches(e.calls, |e.read.chunk|);
    }
  }

  lemma AttachedCons(attached: bool, e: UsbEvent, rest: seq<UsbEvent>)
    ensures AttachedBy(attached, [e] + rest) <==> AttachedBy(NextAttached(attached, e), rest)
  {
    hide NoneDetaches, Detaches, NextAttached;
    var all := [e] + rest;
    NoneDetachesCons(e, rest);
    DetachesNext(attached, e);
    forall i | 0 <= i < |rest| ensures ArrivedAt(all, i + 1) <==> ArrivedAt(rest, i) {
      assert all[i + 2..] == rest[i + 1..];
    }
    assert all[1..] == rest;
    assert ArrivedAt(all, 0) <==> e == Added(true) && NoneDetaches(rest);
    if i :| 0 <= i < |rest| && ArrivedAt(rest, i) {
      assert ArrivedAt(all, i + 1);
    }
    if i :| 0 <= i < |all| && ArrivedAt(all, i) {
      assert i == 0 || ArrivedAt(rest, i - 1);
    }
  }

  /** After any run a device is attached exactly then. */
  lemma {:induction false} AttachedAfter(s: Usb, events: seq<UsbEvent>)
    requires Consistent(s)
    ensures RunUsb(s, events).attached <==> AttachedBy(s.attached, events)
    decreases |events|
  {
    hide StepUsb, Conserved, AllUp, AttachedBy, NextAttached;
    if events == [] {
      NothingAttaches(s.attached);
    } else {
      StepConsistent(s, events[0]);
      StepAttached(s, events[0]);
      AttachedAfter(StepUsb(s, events[0]), events[1..]);
      AttachedCons(s.attached, events[0], events[1..]);
      assert events == [events[0]] + events[1..];
    }
  }

  lemma NothingAttaches(attached: bool)
    ensures AttachedBy(attached, []) == attached
  {
  }

  // ----- What a session is, from its events -----

  /** The events of an attachment: up to the first that ends it, that one included. */
  function Life(v: seq<UsbEvent>): seq<UsbEvent> {
    if v == [] then [] else if Detaches(v[0]) then [v[0]] else [v[0]] + Life(v[1..])
  }

  /** The chunks in a list of events, and what their writes passed on. */
  function PtyChunks(v: seq<UsbEvent>): seq<seq<Byte>> {
    if v == [] then []
    else (if v[0].PtyRead? && v[0].chunk != [] then [v[0].chunk] else []) + PtyChunks(v[1..])
  }

  function DeviceChunks(v: seq<UsbEvent>): seq<seq<Byte>> {
    if v == [] then []
    else (if v[0].DeviceReads? && v[0].read.Data? then [v[0].read.chunk] else []) + DeviceChunks(v[1..])
  }

  function PtyBytes(v: seq<UsbEvent>): seq<Byte> {
    if v == [] then []
    else (if v[0].PtyRead? && v[0].chunk != [] then Forwarded(v[0].chunk, v[0].calls) else []) + PtyBytes(v[1..])
  }

  function DeviceBytes(v: seq<UsbEvent>): seq<Byte> {
    if v == [] then []
    else (if v[0].DeviceReads? && v[0].read.Data? then Forwarded(v[0].read.chunk, v[0].calls) else [])
         + DeviceBytes(v[1..])
  }

  predicate SomePtyFails(v: seq<UsbEvent>) {
    exists i :: 0 <= i < |v| && v[i].PtyRead? && v[i].chunk != [] && Fails(v[i].chunk, v[i].calls)
  }

  predicate SomeDeviceFails(v: seq<UsbEvent>) {
    exists i :: 0 <= i < |v| && v[i].DeviceReads? && v[i].read.Data? && Fails(v[i].read.chunk, v[i].calls)
  }

  lemma TrafficCons(attached: bool, e: UsbEvent, rest: seq<UsbEvent>)
    ensures var t := Traffic(NextAttached(attached, e), rest);
            Traffic(attached, [e] + rest)
            == Session(Stream(SentDown(attached, e) + t.down.bytes, ReadDown(attached, e) + t.down.chunks,
                              BrokeDown(attached, e) || t.down.cut),
                       Stream(SentUp(attached, e) + t.up.bytes, ReadUp(attached, e) + t.up.chunks,
                              BrokeUp(attached, e) || t.up.cut))
  {
    hide NextAttached, SentDown, SentUp, ReadDown, ReadUp, BrokeDown, BrokeUp;
    assert ([e] + rest)[0] == e && ([e] + rest)[1..] == rest;
  }

  /** Nothing is read or passed on while no device is attached and none arrives. */
  lemma {:induction false} NoTraffic(v: seq<UsbEvent>)
    requires Arrivals(v) == 0
    ensures Traffic(false, v) == NEW_SESSION
    decreases |v|
  {
    hide Traffic;
    if v == [] {
      TrafficNone(false);
    } else {
      assert v == [v[0]] + v[1..];
      TrafficCons(false, v[0], v[1..]);
      NoTraffic(v[1..]);
    }
  }

  lemma TrafficNone(attached: bool)
    ensures Traffic(attached, []) == NEW_SESSION
  {
  }

  lemma FailsIsBroken(chunk: seq<Byte>, calls: seq<Call>)
    ensures Fails(chunk, calls) <==> !Completes(chunk, calls)
  {
    hide Room, Offers;
    RoomReaches(calls, |chunk|);
  }

  lemma SomeFailsCons(e: UsbEvent, rest: seq<UsbEvent>)
    ensures SomePtyFails([e] + rest) <==> BrokeDown(true, e) || SomePtyFails(rest)
    ensures SomeDeviceFails([e] + rest) <==> BrokeUp(true, e) || SomeDeviceFails(rest)
  {
    hide Fails, Completes;
    if e.PtyRead? {
      FailsIsBroken(e.chunk, e.calls);
    } else if e.DeviceReads? && e.read.Data? {
      FailsIsBroken(e.read.chunk, e.calls);
    }
    var all := [e] + rest;
    assert all[0] == e && forall i :: 0 <= i < |rest| ==> all[i + 1] == rest[i];
    assert forall i :: 0 < i < |all| ==> all[i] == rest[i - 1];
  }

  lemma NothingFails()
    ensures !SomePtyFails([]) && !SomeDeviceFails([])
  {
  }

  lemma LifeCons(v: seq<UsbEvent>)
    requires v != []
    ensures Life(v) == [v[0]] + if Detaches(v[0]) then [] else Life(v[1..])
  {
  }

  lemma PartsCons(e: UsbEvent, rest: seq<UsbEvent>)
    ensures PtyChunks([e] + rest) == ReadDown(true, e) + PtyChunks(rest)
    ensures DeviceChunks([e] + rest) == ReadUp(true, e) + DeviceChunks(rest)
    ensures PtyBytes([e] + rest) == SentDown(true, e) + PtyBytes(rest)
    ensures DeviceBytes([e] + rest) == SentUp(true, e) + DeviceBytes(rest)
    ensures PtyChunks([]) == [] && DeviceChunks([]) == [] && PtyBytes([]) == [] && DeviceBytes([]) == []
  {
    hide Forwarded;
    assert ([e] + rest)[0] == e && ([e] + rest)[1..] == rest;
  }

  /** A session is made of the events of its attachment: all chunks among them, all that their writes
      passed on, and whether a write was broken. */
  lemma {:induction false} SessionIsLife(v: seq<UsbEvent>)
    requires Arrivals(v) == 0
    ensures SessionOf(v) == Session(Stream(PtyBytes(Life(v)), PtyChunks(Life(v)), SomePtyFails(Life(v))),
                                    Stream(DeviceBytes(Life(v)), DeviceChunks(Life(v)), SomeDeviceFails(Life(v))))
    decreases |v|
  {
    hide Traffic, Life, PtyChunks, DeviceChunks, PtyBytes, DeviceBytes, SomePtyFails, SomeDeviceFails, Detaches;
    hide SentDown, SentUp, ReadDown, ReadUp, BrokeDown, BrokeUp, NextAttached;
    NothingFails();
    if v == [] {
      TrafficNone(true);
      LifeOfNothing();
      PartsCons(Removed, []);
    } else {
      var e, rest := v[0], v[1..];
      assert v == [e] + rest;
      TrafficCons(true, e, rest);
      DetachesNext(true, e);
      LifeCons(v);
        var more := if Detaches(e) then [] else Life(rest);
      PartsCons(e, more);
      SomeFailsCons(e, more);
      if Detaches(e) {
        NotAdded(e);
        NoTraffic(rest);
      } else {
        SessionIsLife(rest);
      }
    }
  }

  lemma NotAdded(e: UsbEvent)
    ensures Detaches(e) ==> !e.Added?
  {
  }

  lemma LifeOfNothing()
    ensures Life([]) == []
  {
  }

  lemma {:induction false} TrafficInFront(attached: bool, v1: seq<UsbEvent>, x: seq<UsbEvent>, y: seq<UsbEvent>)
    requires forall a :: Traffic(a, x) == Traffic(a, y)
    ensures Traffic(attached, v1 + x) == Traffic(attached, v1 + y)
    decreases |v1|
  {
    hide Traffic, NextAttached, SentDown, SentUp, ReadDown, ReadUp, BrokeDown, BrokeUp;
    if v1 == [] {
      assert v1 + x == x && v1 + y == y;
    } else {
      var e, rest := v1[0], v1[1..];
      assert v1 + x == [e] + (rest + x) && v1 + y == [e] + (rest + y);
      TrafficCons(attached, e, rest + x);
      TrafficCons(attached, e, rest + y);
      TrafficInFront(NextAttached(attached, e), rest, x, y);
    }
  }

  /** A removal, the end of the device's file or an error in reading from it ends the session: what the
      pseudo-terminal or the device still says is no part of it. */
  lemma EndsSession(v1: seq<UsbEvent>, e: UsbEvent, v2: seq<UsbEvent>)
    requires Arrivals(v2) == 0
    requires e == Removed || (e.DeviceReads? && (e.read == EndOfFile || e.read == Error))
    ensures SessionOf(v1 + [e] + v2) == SessionOf(v1)
  {
    hide Traffic;
    forall a ensures Traffic(a, [e] + v2) == Traffic(a, []) {
      TrafficCons(a, e, v2);
      NoTraffic(v2);
      TrafficNone(a);
    }
    TrafficInFront(true, v1, [e] + v2, []);
    assert v1 + [e] + v2 == v1 + ([e] + v2) && v1 + [] == v1;
  }

  /** A transient error in reading from the device, a device that cannot be used, and an empty read from
      the pseudo-terminal change nothing. */
  lemma PassesUnseen(v1: seq<UsbEvent>, e: UsbEvent, v2: seq<UsbEvent>)
    requires e == Added(false) || (e.PtyRead? && e.chunk == []) || (e.DeviceReads? && e.read == Transient)
    ensures SessionOf(v1 + [e] + v2) == SessionOf(v1 + v2)
  {
    hide Traffic, Room;
    forall a ensures Traffic(a, [e] + v2) == Traffic(a, v2) {
      TrafficCons(a, e, v2);
      NothingInFront(Traffic(a, v2));
    }
    TrafficInFront(true, v1, [e] + v2, v2);
    assert v1 + [e] + v2 == v1 + ([e] + v2);
  }

  lemma NothingInFront(t: Session)
    ensures Session(Stream([] + t.down.bytes, [] + t.down.chunks, false || t.down.cut),
                    Stream([] + t.up.bytes, [] + t.up.chunks, false || t.up.cut)) == t
  {
  }
}
