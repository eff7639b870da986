/** Writing a frame through a descriptor that takes what it likes, when it likes. */
module Sending {
  import opened Bytes
  import opened Wire
  import opened Receiver
  import opened RoundTrip
  import opened Recovery

  /** What one turn of the write loop meets: the descriptor has room for so many bytes (none is an
      error), a signal, a full buffer that does or does not drain in time, or another error. */
  datatype WriteCall = Takes(room: nat) | Interrupted | WouldBlock(writable: bool) | Fails

  /** How the loop ends; the calls given may run out before it does. */
  datatype WriteResult = AllSent | GaveUp | StillWriting

  predicate Stops(c: WriteCall) {
    c.Fails? || (c.WouldBlock? && !c.writable) || (c.Takes? && c.room == 0)
  }

  /** The bytes a sequence of calls has room for before the first that stops the loop. */
  function Capacity(calls: seq<WriteCall>): nat {
    if calls == [] || Stops(calls[0]) then 0
    else (if calls[0].Takes? then calls[0].room else 0) + Capacity(calls[1..])
  }

  /** What reaches the line of a buffer. */
  function Written(buf: seq<Byte>, calls: seq<WriteCall>): seq<Byte> {
    buf[..Min(|buf|, Capacity(calls))]
  }

  // ----- The same from the calls themselves -----

  /** None of these calls ends the loop: a descriptor that takes some bytes, a signal, or a full buffer
      that drains in time. */
  predicate GoesOn(calls: seq<WriteCall>) {
    forall i :: 0 <= i < |calls| ==>
      calls[i] == Interrupted || calls[i] == WouldBlock(true) || (calls[i].Takes? && calls[i].room > 0)
  }

  /** The room these calls offer in all. */
  function Rooms(calls: seq<WriteCall>): nat {
    if calls == [] then 0 else (if calls[0].Takes? then calls[0].room else 0) + Rooms(calls[1..])
  }

  /** The first `k` calls go on and offer room for `n` bytes. */
  predicate Reaches(calls: seq<WriteCall>, n: nat, k: nat)
    requires k <= |calls|
  {
    GoesOn(calls[..k]) && Rooms(calls[..k]) >= n
  }

  predicate Offers(calls: seq<WriteCall>, n: nat) {
    exists k :: 0 <= k <= |calls| && Reaches(calls, n, k)
  }

  lemma GoesOnCons(calls: seq<WriteCall>, k: nat)
    requires 1 <= k <= |calls|
    ensures GoesOn(calls[..k]) <==> !Stops(calls[0]) && GoesOn(calls[1..][..k - 1])
    ensures Rooms(calls[..k]) == (if calls[0].Takes? then calls[0].room else 0) + Rooms(calls[1..][..k - 1])
  {
    var s := calls[..k];
    assert s[0] == calls[0] && s[1..] == calls[1..][..k - 1];
    assert forall i :: 0 < i < k ==> s[i] == s[1..][i - 1];
  }

  /** There is room for `n` bytes before the loop ends exactly when some of the first calls, none of
      which ends it, offer that much. */
  lemma {:induction false} CapacityReaches(calls: seq<WriteCall>, n: nat)
    ensures Capacity(calls) >= n <==> Offers(calls, n)
    decreases |calls|
  {
    hide GoesOn, Stops;
    NoCalls();
    assert calls[..0] == [];
    if n == 0 {
      assert Reaches(calls, 0, 0);
    } else if calls == [] || Stops(calls[0]) {
      forall k | 0 <= k <= |calls| ensures !Reaches(calls, n, k) {
        if k > 0 {
          GoesOnCons(calls, k);
        }
      }
    } else {
      CapacityMore(calls, n);
    }
  }

  lemma NoCalls()
    ensures GoesOn([]) && Rooms([]) == 0 && Capacity([]) == 0
  {
  }

  lemma {:induction false} CapacityMore(calls: seq<WriteCall>, n: nat)
    requires calls != [] && !Stops(calls[0]) && n > 0
    ensures Capacity(calls) >= n <==> Offers(calls, n)
    decreases |calls|, 0
  {
    hide GoesOn, Stops;
    var first := if calls[0].Takes? then calls[0].room else 0;
    var rest: nat := if n > first then n - first else 0;
    CapacityReaches(calls[1..], rest);
    if k :| 0 <= k <= |calls[1..]| && Reaches(calls[1..], rest, k) {
      GoesOnCons(calls, k + 1);
      assert Reaches(calls, n, k + 1);
    }
    NoCalls();
    assert calls[..0] == [];
    if k :| 0 <= k <= |calls| && Reaches(calls, n, k) {
      GoesOnCons(calls, k);
      assert Reaches(calls[1..], rest, k - 1);
    }
  }

  /** Call `k` ends the loop: an error other than a signal or a full buffer, a full buffer that does not
      drain in time, or a descriptor that takes nothing; all calls before it went on. */
  predicate EndsAt(calls: seq<WriteCall>, k: nat)
    requires k < |calls|
  {
    GoesOn(calls[..k]) && calls[k] in {Fails, WouldBlock(false), Takes(0)}
  }

  /** Some call ends the loop exactly when there is a first one that does. */
  lemma {:induction false} FirstStop(calls: seq<WriteCall>)
    ensures (exists i :: 0 <= i < |calls| && Stops(calls[i])) <==> exists k :: 0 <= k < |calls| && EndsAt(calls, k)
    decreases |calls|
  {
    hide GoesOn;
    if calls != [] {
      NoCalls();
      assert calls[..0] == [];
      if Stops(calls[0]) {
        assert EndsAt(calls, 0);
      } else {
        FirstStop(calls[1..]);
        if i :| 0 <= i < |calls| && Stops(calls[i]) {
          assert calls[i] == calls[1..][i - 1];
        }
        if i :| 0 <= i < |calls[1..]| && Stops(calls[1..][i]) {
          assert calls[i + 1] == calls[1..][i];
        }
        if k :| 0 <= k < |calls[1..]| && EndsAt(calls[1..], k) {
          GoesOnCons(calls, k + 1);
          assert EndsAt(calls, k + 1);
        }
        if k :| 0 <= k < |calls| && EndsAt(calls, k) {
          GoesOnCons(calls, k);
          assert EndsAt(calls[1..], k - 1);
        }
      }
    }
  }

  /** A signal, or a full buffer that drains in time, changes nothing, wherever it comes. */
  lemma {:induction false} RetriesUnseen(a: seq<WriteCall>, c: WriteCall, b: seq<WriteCall>, buf: seq<Byte>)
    requires c == Interrupted || c == WouldBlock(true)
    ensures Capacity(a + [c] + b) == Capacity(a + b) && Written(buf, a + [c] + b) == Written(buf, a + b)
    decreases |a|
  {
    if a == [] {
      assert a + [c] + b == [c] + b && a + b == b && ([c] + b)[1..] == b;
    } else {
      RetriesUnseen(a[1..], c, b, buf);
      assert (a + [c] + b)[0] == a[0] == (a + b)[0];
      assert (a + [c] + b)[1..] == a[1..] + [c] + b && (a + b)[1..] == a[1..] + b;
    }
  }

  /** What reaches the line under a call that ends the loop: what the calls before it had room for. */
  lemma {:induction false} StopsThere(a: seq<WriteCall>, c: WriteCall, b: seq<WriteCall>)
    requires c in {Fails, WouldBlock(false), Takes(0)} && GoesOn(a)
    ensures Capacity(a + [c] + b) == Rooms(a)
    decreases |a|
  {
    if a == [] {
      assert a + [c] + b == [c] + b;
    } else {
      GoesOnCons(a, |a|);
      assert a[..|a|] == a && a[1..][..|a| - 1] == a[1..];
      StopsThere(a[1..], c, b);
      assert (a + [c] + b)[0] == a[0] && (a + [c] + b)[1..] == a[1..] + [c] + b;
    }
  }

  lemma WrittenOffers(buf: seq<Byte>, calls: seq<WriteCall>)
    ensures Written(buf, calls) <= buf
    ensures forall n: nat :: n <= |buf| ==> (|Written(buf, calls)| >= n <==> Offers(calls, n))
  {
    hide Offers;
    forall n: nat | n <= |buf| ensures |Written(buf, calls)| >= n <==> Offers(calls, n) {
      CapacityReaches(calls, n);
    }
  }

  /** The write loop. It ends well exactly when the calls have room for the whole buffer. */
  method WriteAll(buf: seq<Byte>, calls: seq<WriteCall>) returns (result: WriteResult, written: seq<Byte>)
    ensures written == Written(buf, calls)
    ensures result == AllSent <==> Capacity(calls) >= |buf|
    ensures result == AllSent <==> written == buf
    ensures written <= buf
    ensures forall n: nat :: n <= |buf| ==> (|written| >= n <==> Offers(calls, n))
    ensures result == AllSent <==> Offers(calls, |buf|)
    ensures result == GaveUp <==> Capacity(calls) < |buf| && exists k :: 0 <= k < |calls| && EndsAt(calls, k)
  {
    hide Offers, EndsAt;
    WrittenOffers(buf, calls);
    FirstStop(calls);
    var sent := 0;
    var i := 0;
    written := [];
    while sent < |buf|
      invariant 0 <= sent <= |buf| && 0 <= i <= |calls|
      invariant written == buf[..sent]
      invariant Min(|buf|, sent + Capacity(calls[i..])) == Min(|buf|, Capacity(calls))
      invariant forall j :: 0 <= j < i ==> !Stops(calls[j])
      decreases |calls| - i
    {
      if i == |calls| {
        result := StillWriting;
        return;
      }
      assert calls[i..][0] == calls[i] && calls[i..][1..] == calls[i + 1..];
      match calls[i] {
        case Takes(room) =>
          if room == 0 {
            result := GaveUp;
            return;
          }
          var n := Min(room, |buf| - sent);
          written := written + buf[sent..sent + n];
          sent := sent + n;
        case Interrupted =>
        case WouldBlock(writable) =>
          if !writable {
            result := GaveUp;
            return;
          }
        case Fails =>
          result := GaveUp;
          return;
      }
      i := i + 1;
    }
    result := AllSent;
  }

  /** A message, and the calls its frame was written with. */
  datatype Attempt = Attempt(msg: seq<Byte>, calls: seq<WriteCall>)

  function Line(attempts: seq<Attempt>): seq<Byte> {
    if attempts == [] then []
    else Written(WireOf(attempts[0].msg), attempts[0].calls) + Line(attempts[1..])
  }

  predicate Complete(a: Attempt) {
    Capacity(a.calls) >= |WireOf(a.msg)|
  }

  /** A complete attempt, or one cut where the next frame still gets through. */
  predicate Harmless(a: Attempt) {
    && 5 <= |a.msg| <= 255
    && (Complete(a) || HarmlessCut(a.msg, Capacity(a.calls)))
  }

  function CompleteMessages(attempts: seq<Attempt>): seq<seq<Byte>> {
    if attempts == [] then []
    else (if Complete(attempts[0]) then [attempts[0].msg] else []) + CompleteMessages(attempts[1..])
  }

  lemma {:induction false} LineAppend(a: seq<Attempt>, b: seq<Attempt>)
    ensures Line(a + b) == Line(a) + Line(b)
  {
    hide Written, WireOf;
    if a == [] {
      assert a + b == b;
    } else {
      LineAppend(a[1..], b);
      assert (a + b)[0] == a[0] && (a + b)[1..] == a[1..] + b;
      Assoc(Written(WireOf(a[0].msg), a[0].calls), Line(a[1..]), Line(b));
    }
  }

  /** A whole session of sends, each under its own write schedule: as long as failed writes cut their
      frames harmlessly, exactly the completely written messages are received, in order. */
  lemma {:induction false} SessionDelivers(r: Rx, attempts: seq<Attempt>)
    requires Restartable(r)
    requires forall i :: 0 <= i < |attempts| ==> Harmless(attempts[i])
    ensures Run(r, Line(attempts)).delivered == CompleteMessages(attempts)
    decreases |attempts|
  {
    hide Run, Step, WireOf, Capacity, HarmlessCut;
    if attempts == [] {
      RunNothing(r);
    } else {
      var a := attempts[0];
      var w := Written(WireOf(a.msg), a.calls);
      assert Harmless(a);
      if Complete(a) {
        assert w == WireOf(a.msg);
        SendReceive(r, a.msg);
      } else {
        CutFrame(r, a.msg, Capacity(a.calls));
      }
      RunConcat(r, w, Line(attempts[1..]));
      SessionDelivers(Run(r, w).next, attempts[1..]);
    }
  }
}
