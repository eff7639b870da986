/** The sending side of the framer: full messages, octet stuffing, and the bytes put on the wire. */
module Wire {
  import opened Bytes
  import opened CrcRegister
  import opened FrameCheck

  const FRAME_CHAR: Byte := 0x7E
  const ESCAPE_CHAR: Byte := 0x7D

  // ----- Octet stuffing (section 4.2 of RFC 1662) -----

  predicate NeedsEscape(b: Byte) {
    b == FRAME_CHAR || b == ESCAPE_CHAR
  }

  function Stuff(b: Byte): (r: seq<Byte>)
    ensures 1 <= |r| <= 2
  {
    if NeedsEscape(b) then [ESCAPE_CHAR, b - 0x20] else [b]
  }

  function Escape(p: seq<Byte>): (r: seq<Byte>)
    ensures |p| <= |r| <= 2 * |p|
    ensures FRAME_CHAR !in r
  {
    if p == [] then [] else Stuff(p[0]) + Escape(p[1..])
  }

  lemma {:induction false} EscapeConcat(p: seq<Byte>, q: seq<Byte>)
    ensures Escape(p + q) == Escape(p) + Escape(q)
  {
    hide Stuff;
    if p == [] {
      assert p + q == q;
    } else {
      EscapeConcat(p[1..], q);
      assert (p + q)[0] == p[0] && (p + q)[1..] == p[1..] + q;
      Assoc(Stuff(p[0]), Escape(p[1..]), Escape(q));
    }
  }

  lemma EscapeOne(b: Byte)
    ensures Escape([b]) == Stuff(b)
  {
    assert Escape([]) == [];
    assert [b][1..] == [];
  }

  /** The two special octets are sent as two, all others as they are. */
  lemma StuffOctets(b: Byte)
    ensures Escape([0x7e]) == [0x7d, 0x5e] && Escape([0x7d]) == [0x7d, 0x5d]
    ensures b != 0x7e && b != 0x7d ==> Escape([b]) == [b]
  {
    hide Escape;
    EscapeOne(0x7e);
    EscapeOne(0x7d);
    EscapeOne(b);
  }

  // ----- Frames -----

  /** What the check sequence covers: version, length, payload. */
  function Covered(v: Byte, p: seq<Byte>): seq<Byte> {
    [v, |p| % 256] + p
  }

  /** The unescaped frame of a payload, flags included. The length octet is the payload's length
      cut to eight bits. */
  function FullMessage(v: Byte, p: seq<Byte>): seq<Byte> {
    var f := Fcs(INITFCS, Covered(v, p));
    [FRAME_CHAR] + Covered(v, p) + [HighOctet(f), LowOctet(f), FRAME_CHAR]
  }

  /** The frame as sent: header, escaped payload, then check sequence and closing flag as they are. */
  function Frame(v: Byte, p: seq<Byte>): seq<Byte> {
    [FRAME_CHAR, v, |p| % 256] + Escape(p) + Trailer(v, p)
  }

  function Trailer(v: Byte, p: seq<Byte>): (r: seq<Byte>)
    ensures |r| == 3 && r[2] == FRAME_CHAR
  {
    var f := Fcs(INITFCS, Covered(v, p));
    [HighOctet(f), LowOctet(f), FRAME_CHAR]
  }

  /** The framer sends version 1. */
  function WireOf(msg: seq<Byte>): seq<Byte> {
    Frame(1, msg)
  }

  /** Escape all but the three header and three trailer octets. */
  function EscapeInterior(full: seq<Byte>): seq<Byte> {
    if |full| <= 6 then full
    else full[..3] + Escape(full[3..|full| - 3]) + full[|full| - 3..]
  }

  lemma InteriorOfFull(v: Byte, p: seq<Byte>)
    ensures EscapeInterior(FullMessage(v, p)) == Frame(v, p)
  {
    hide Fcs, HighOctet, LowOctet, Escape;
    var full := FullMessage(v, p);
    assert full[..3] == [FRAME_CHAR, v, |p| % 256];
    assert full[3..|full| - 3] == p;
    assert full[|full| - 3..] == Trailer(v, p);
    if p == [] {
      assert Escape(p) == [] by {
        assert |Escape(p)| == 0;
      }
      assert full == Frame(v, p);
    }
  }

  /** The escaping loop of the sender, over indices. Below four octets the program's unsigned `size - 4`
      wraps, but every index is then below three. */
  method EscapeFull(full: seq<Byte>) returns (out: seq<Byte>)
    ensures out == EscapeInterior(full)
  {
    hide Escape, EscapeInterior;
    out := [];
    var i := 0;
    while i < |full|
      invariant 0 <= i <= |full|
      invariant out == EscapedUpTo(full, i)
    {
      var data := full[i];
      EscapedUpToStep(full, i);
      if i < 3 || i > |full| - 4 {
        out := out + [data];
      } else if data == FRAME_CHAR || data == ESCAPE_CHAR {
        out := out + [ESCAPE_CHAR];
        out := out + [data - 0x20];
      } else {
        out := out + [data];
      }
      i := i + 1;
    }
    EscapedUpToEnd(full);
  }

  /** What the loop has put out when it has read `i` octets. */
  function EscapedUpTo(full: seq<Byte>, i: nat): seq<Byte>
    requires i <= |full|
  {
    if |full| <= 6 || i <= 3 then full[..i]
    else if i <= |full| - 3 then full[..3] + Escape(full[3..i])
    else full[..3] + Escape(full[3..|full| - 3]) + full[|full| - 3..i]
  }

  lemma EscapedUpToStep(full: seq<Byte>, i: nat)
    requires i < |full|
    ensures EscapedUpTo(full, i + 1)
         == EscapedUpTo(full, i) + (if i < 3 || i > |full| - 4 then [full[i]] else Stuff(full[i]))
  {
    hide Escape, Stuff;
    EscapeNothing();
    if |full| <= 6 || i < 3 {
      assert full[..i + 1] == full[..i] + [full[i]];
      if i == 2 && |full| > 6 {
        assert full[3..3] == [];
      }
    } else if i < |full| - 3 {
      assert full[3..i + 1] == full[3..i] + [full[i]];
      EscapeConcat(full[3..i], [full[i]]);
      EscapeOne(full[i]);
      if i == 3 {
        assert full[3..3] == [];
      }
    } else {
      if i == |full| - 3 {
        assert full[|full| - 3..i] == [];
      }
      assert full[|full| - 3..i + 1] == full[|full| - 3..i] + [full[i]];
    }
  }

  lemma EscapeNothing()
    ensures Escape([]) == []
  {
  }

  lemma EscapedUpToEnd(full: seq<Byte>)
    ensures EscapedUpTo(full, |full|) == EscapeInterior(full)
  {
    assert full[..|full|] == full;
    if |full| > 6 {
      assert full[|full| - 3..|full|] == full[|full| - 3..];
    }
  }

  /** The wire bytes of a message of any length, and its check sequence. */
  method BuildWire(msg: seq<Byte>) returns (out: seq<Byte>, outFcs: bv16)
    ensures out == WireOf(msg)
    ensures outFcs == FcsBits(INITFCS, Bits(Covered(1, msg)))
  {
    hide Fcs, FcsBits, Bits, HighOctet, LowOctet, Escape, EscapeInterior, Frame;
    var full: seq<Byte> := [];
    full := full + [FRAME_CHAR];
    full := full + [0x01];
    full := full + [|msg| % 256];
    full := full + msg;
    assert full[1..] == Covered(1, msg);
    var fcs := CalcFcs(INITFCS, full[1..]);
    full := full + [HighOctet(fcs)];
    full := full + [LowOctet(fcs)];
    full := full + [FRAME_CHAR];
    outFcs := fcs;
    assert full == FullMessage(1, msg);
    out := EscapeFull(full);
    InteriorOfFull(1, msg);
  }
}
