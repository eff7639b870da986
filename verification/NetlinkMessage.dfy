/** The netlink message under construction: a zeroed buffer written in place. The length of the
    message is a field here; in the program it is the first field of the buffer's header. */
module NetlinkMessage {
  import opened Bytes
  import opened NetlinkLayout

  const IFLA_AF_SPEC := 26
  const AF_MCTP := 45
  const IFLA_MCTP_NET := 1

  /** Bytes put over those at `at`. */
  function Overwrite(s: seq<Byte>, at: nat, data: seq<Byte>): (r: seq<Byte>)
    requires at + |data| <= |s|
    ensures |r| == |s|
  {
    s[..at] + data + s[at + |data|..]
  }

  predicate ZeroFrom(s: seq<Byte>, n: nat) {
    forall i :: n <= i < |s| ==> s[i] == 0
  }

  class NlMessage {
    const buf: array<Byte>
    var len: nat

    ghost predicate Valid()
      reads this
    {
      len <= buf.Length
    }

    /** Nothing has been written beyond the message. */
    ghost predicate Clean()
      requires Valid()
      reads this, buf
    {
      ZeroFrom(buf[..], len)
    }

    ghost function Contents(): seq<Byte>
      requires Valid()
      reads this, buf
    {
      buf[..len]
    }

    /** A buffer of `size` zeros holding a header. */
    constructor (size: nat, header: seq<Byte>)
      requires |header| <= size
      ensures Valid() && Clean() && fresh(buf) && buf.Length == size
      ensures Contents() == header
    {
      buf := new Byte[size](i requires 0 <= i < size => if i < |header| then header[i] else 0);
      len := |header|;
    }

    method WriteShort(at: nat, n: nat)
      requires at + 2 <= buf.Length
      modifies buf
      ensures buf[..] == Overwrite(old(buf[..]), at, Short(n))
    {
      buf[at], buf[at + 1] := n % 256, n / 256 % 256;
    }

    method CopyIn(at: nat, data: seq<Byte>)
      requires at + |data| <= buf.Length
      modifies buf
      ensures buf[..] == Overwrite(old(buf[..]), at, data)
    {
      var i := 0;
      while i < |data|
        invariant 0 <= i <= |data|
        invariant forall k :: 0 <= k < i ==> buf[at + k] == data[k]
        invariant forall k :: (0 <= k < at || at + i <= k < buf.Length) ==> buf[k] == old(buf[k])
      {
        buf[at + i] := data[i];
        i := i + 1;
      }
    }

    /** Append an attribute at the aligned end. The caller sees to the room. A length beyond 16 bits is
        cut, and the new end is taken from the cut length. */
    method NlaPut(attrtype: nat, data: seq<Byte>)
      requires Valid()
      requires Align(len) + Align(RTA_HEADER + |data|) <= buf.Length
      modifies this`len, buf
      ensures Valid()
      ensures buf[..] == Overwrite(old(buf[..]), Align(old(len)), Header(RTA_HEADER + |data|, attrtype) + data)
      ensures len == Align(old(len)) + Align((RTA_HEADER + |data|) % 0x1_0000)
      ensures RTA_HEADER + |data| < 0x1_0000 && old(Clean()) ==>
                Clean() && Contents() == PutBytes(old(Contents()), attrtype, data)
    {
      hide Short, Align, Header, PutBytes, ZeroFrom, Overwrite, ReadShort;
      ghost var before := buf[..];
      var cur := len;
      var rta := Align(cur);
      WriteShort(rta + 2, attrtype);
      WriteShort(rta, RTA_HEADER + |data|);
      HeaderWritten(before, rta, RTA_HEADER + |data|, attrtype);
      CopyIn(rta + RTA_HEADER, data);
      OverwriteBoth(before, rta, Header(RTA_HEADER + |data|, attrtype), data);
      RecordLength(before, rta, attrtype, data);
      var rtaLen := ReadShort(buf[..][rta..]);
      AlignCut(RTA_HEADER + |data|);
      len := Align(cur) + Align(rtaLen);
      RecordOnClean(before, cur, attrtype, data);
      assert buf[..len] == buf[..][..len] && before[..cur] == old(buf[..len]);
    }

    /** Open a nest; the offset handed back closes it. */
    method NlaNestStart(attrtype: nat) returns (start: nat)
      requires Valid()
      requires Align(len) + RTA_HEADER <= buf.Length
      modifies this`len, buf
      ensures Valid() && start == old(len)
      ensures buf[..] == Overwrite(old(buf[..]), Align(old(len)), Header(RTA_HEADER, Flagged(attrtype)))
      ensures len == Align(old(len)) + RTA_HEADER
      ensures old(Clean()) ==> Clean() && Contents() == StartBytes(old(Contents()), attrtype)
    {
      hide Short, Align, Header, StartBytes, Flagged, ZeroFrom, Overwrite;
      ghost var before := buf[..];
      var cur := len;
      var rta := Align(cur);
      WriteShort(rta + 2, Flagged(attrtype));
      WriteShort(rta, RTA_HEADER);
      HeaderWritten(before, rta, RTA_HEADER, Flagged(attrtype));
      len := Align(cur) + RTA_HEADER;
      start := cur;
      HeaderOnClean(before, cur, attrtype);
      assert buf[..len] == buf[..][..len] && before[..cur] == old(buf[..len]);
    }

    /** Close a nest: its length becomes the distance from its start to the end, cut to 16 bits. */
    method NlaNestEnd(start: nat)
      requires Valid()
      requires Align(start) + RTA_HEADER <= len && Align(len) <= buf.Length
      modifies this`len, buf
      ensures Valid()
      ensures buf[..] == Overwrite(old(buf[..]), Align(start), Short(old(len) - Align(start)))
      ensures len == Align(start) + Align((old(len) - Align(start)) % 0x1_0000)
      ensures old(len) % 4 == 0 && old(len) - Align(start) < 0x1_0000 ==>
                len == old(len) && Contents() == EndBytes(old(Contents()), start)
      ensures old(len) % 4 == 0 && old(len) - Align(start) < 0x1_0000 && old(Clean()) ==> Clean()
    {
      hide Short, Align, EndBytes, ZeroFrom, Overwrite, ReadShort;
      ghost var before := buf[..];
      var cur := len;
      var rta := Align(start);
      var nestedLen := len - (Align(start) + RTA_HEADER);
      WriteShort(rta, RTA_HEADER + nestedLen);
      NestLength(before, rta, RTA_HEADER + nestedLen);
      var rtaLen := ReadShort(buf[..][rta..]);
      AlignCut(cur - rta);
      AlignBelow(start, cur);
      len := Align(start) + Align(rtaLen);
      PatchedBytes(before, cur, start);
      assert buf[..len] == buf[..][..len] && before[..cur] == old(buf[..len]);
    }
  }

  /** A 32-bit number, low byte first. */
  function Word32(n: nat): (r: seq<Byte>)
    ensures |r| == 4
  {
    Short(n) + Short(n / 0x1_0000)
  }

  /** The attribute tree that sets an interface's network id. */
  function NetIdTree(net: nat): Attr {
    Nest(IFLA_AF_SPEC, [Nest(AF_MCTP, [Leaf(IFLA_MCTP_NET, Word32(net))])])
  }

  /** The request that sets the network id: two nests and one attribute, built in place. */
  method NetIdRequest(header: seq<Byte>, net: nat) returns (m: NlMessage)
    requires |header| == 32
    ensures fresh(m) && m.Valid() && m.Clean()
    ensures m.Contents() == header + EncodeAll([NetIdTree(net)])
  {
    hide Short, Header, PutBytes, StartBytes, EndBytes, EncodeAll, Align, Flagged, Overwrite, ZeroFrom, NetIdTree;
    RequestBytes(header, net);
    m := new NlMessage(512, header);
    var startAfSpec := m.NlaNestStart(IFLA_AF_SPEC);
    var startAf := m.NlaNestStart(AF_MCTP);
    m.NlaPut(IFLA_MCTP_NET, Word32(net));
    m.NlaNestEnd(startAf);
    m.NlaNestEnd(startAfSpec);
  }

  lemma RequestBytes(header: seq<Byte>, net: nat)
    requires |header| == 32
    ensures forall n :: n in {8, 32, 36, 40, 48} ==> Align(n) == n
    ensures var s1 := StartBytes(header, IFLA_AF_SPEC);
            var s2 := StartBytes(s1, AF_MCTP);
            var s3 := PutBytes(s2, IFLA_MCTP_NET, Word32(net));
            && |s1| == 36 && |s2| == 40 && |s3| == 48
            && EndBytes(EndBytes(s3, 36), 32) == header + EncodeAll([NetIdTree(net)])
  {
    hide Short, Header, PutBytes, StartBytes, EndBytes, EncodeAll, Encode, Layout, Align, Flagged;
    var leaf := Leaf(IFLA_MCTP_NET, Word32(net));
    var b0 := Top([]);
    var b1 := Inside(b0, IFLA_AF_SPEC, []);
    var b2 := Inside(b1, AF_MCTP, []);
    var b3 := Add(b2, leaf);
    var b4 := Add(b1, Nest(AF_MCTP, [leaf]));
    RequestSizes(net);
    assert b3 == Inside(b1, AF_MCTP, [leaf]);
    assert b4 == Inside(b0, IFLA_AF_SPEC, [Nest(AF_MCTP, [leaf])]);
    assert header + Layout(b0) == header;
    StartBuilds(header, b0, IFLA_AF_SPEC);
    StartBuilds(header, b1, AF_MCTP);
    PutBuilds(header, b2, IFLA_MCTP_NET, Word32(net));
    EndBuilds(header, b3);
    EndBuilds(header, b4);
    assert Add(b0, NetIdTree(net)) == Top([NetIdTree(net)]);
    LayoutOfTop([NetIdTree(net)]);
  }

  /** The octets of a nest with one attribute in it. */
  lemma NestOfOne(kind: nat, t: Attr)
    ensures EncodeAll([Nest(kind, [t])]) == Header(RTA_HEADER + |Encode(t)|, Flagged(kind)) + Encode(t)
  {
    hide Encode, Header, Short, Flagged;
    EncodeAllOne(t);
    EncodeAllOne(Nest(kind, [t]));
    NestInParts(kind, [t]);
    Assoc(Short(RTA_HEADER + |Encode(t)|), Short(Flagged(kind)), Encode(t));
    HeaderInParts(RTA_HEADER + |Encode(t)|, Flagged(kind));
  }

  lemma HeaderInParts(len: nat, kind: nat)
    ensures Header(len, kind) == Short(len) + Short(kind)
  {
  }

  /** The sixteen octets that set a network id: two flagged nests around a 32-bit number. */
  lemma RequestOctets(net: nat)
    ensures EncodeAll([NetIdTree(net)])
         == [16, 0, 26, 128, 12, 0, 45, 128, 8, 0, 1, 0,
             net % 256, net / 256 % 256, net / 0x1_0000 % 256, net / 0x1_0000 / 256 % 256]
  {
    hide Encode, EncodeAll;
    var leaf := Leaf(IFLA_MCTP_NET, Word32(net));
    LeafOctets(net);
    EncodeAllOne(Nest(AF_MCTP, [leaf]));
    NestOfOne(AF_MCTP, leaf);
    NestOfOne(IFLA_AF_SPEC, Nest(AF_MCTP, [leaf]));
  }

  lemma LeafOctets(net: nat)
    ensures Encode(Leaf(IFLA_MCTP_NET, Word32(net)))
         == [8, 0, 1, 0, net % 256, net / 256 % 256, net / 0x1_0000 % 256, net / 0x1_0000 / 256 % 256]
  {
  }

  lemma LayoutOfTop(ts: seq<Attr>)
    ensures Layout(Top(ts)) == EncodeAll(ts)
  {
  }

  lemma RequestSizes(net: nat)
    ensures forall n :: n in {8, 32, 36, 40, 48} ==> Align(n) == n
    ensures Layout(Top([])) == []
    ensures |Layout(Inside(Top([]), IFLA_AF_SPEC, []))| == 4
    ensures |Layout(Inside(Inside(Top([]), IFLA_AF_SPEC, []), AF_MCTP, []))| == 8
    ensures |Layout(Inside(Inside(Top([]), IFLA_AF_SPEC, []), AF_MCTP, [Leaf(IFLA_MCTP_NET, Word32(net))]))| == 16
    ensures |Layout(Inside(Top([]), IFLA_AF_SPEC, [Nest(AF_MCTP, [Leaf(IFLA_MCTP_NET, Word32(net))])]))| == 16
  {
    var leaf := Leaf(IFLA_MCTP_NET, Word32(net));
    EncodeAllOne(leaf);
    EncodeAllOne(Nest(AF_MCTP, [leaf]));
    assert |Encode(leaf)| == 8;
    assert |Encode(Nest(AF_MCTP, [leaf]))| == 12;
  }

  /** Any steps of the builder, one after the other on one message; the start offsets are kept by the
      caller, innermost first. Room in the buffer for the final message and lengths that fit their
      fields in the final tree are all it takes. */
  method RunSteps(m: NlMessage, cmds: seq<Cmd>) returns (starts: seq<nat>)
    requires m.Valid() && m.Clean() && m.len % 4 == 0
    requires Bracketed(Top([]), cmds) && SoundSoFar(PerformAll(Top([]), cmds))
    requires m.len + |Layout(PerformAll(Top([]), cmds))| <= m.buf.Length
    modifies m`len, m.buf
    ensures m.Valid() && m.Clean()
    ensures m.Contents() == old(m.Contents()) + Layout(PerformAll(Top([]), cmds))
    ensures m.Contents() == Execute(old(m.Contents()), [], cmds)
    ensures starts == Starts(old(m.len), PerformAll(Top([]), cmds))
  {
    hide Short, Header, PutBytes, StartBytes, EndBytes, Layout, Align, Flagged, Execute, SoundSoFar, Perform, Starts;
    ghost var base := m.Contents();
    ghost var final := PerformAll(Top([]), cmds);
    ghost var b := Top([]);
    starts := [];
    NothingBuilt(base);
    ExecuteBuilds(base, b, cmds);
    var i := 0;
    while i < |cmds|
      invariant 0 <= i <= |cmds|
      invariant m.Valid() && m.Clean() && m.Contents() == base + Layout(b)
      invariant starts == Starts(|base|, b)
      invariant Bracketed(b, cmds[i..]) && PerformAll(b, cmds[i..]) == final
    {
      assert cmds[i..][0] == cmds[i] && cmds[i..][1..] == cmds[i + 1..];
      StepFits(b, cmds[i..]);
      StepBuilds(base, b, cmds[i]);
      match cmds[i] {
        case Put(kind, data) =>
          m.NlaPut(kind, data);
        case NestStart(kind) =>
          var start := m.NlaNestStart(kind);
          starts := [start] + starts;
        case NestEnd =>
          m.NlaNestEnd(starts[0]);
          starts := starts[1..];
      }
      b := Perform(b, cmds[i]);
      i := i + 1;
    }
  }

  lemma NothingBuilt(base: seq<Byte>)
    ensures base + Layout(Top([])) == base && Starts(|base|, Top([])) == []
  {
  }

  lemma StepFits(b: Building, cmds: seq<Cmd>)
    requires cmds != [] && Bracketed(b, cmds) && SoundSoFar(PerformAll(b, cmds))
    ensures |Layout(Perform(b, cmds[0]))| <= |Layout(PerformAll(b, cmds))|
    ensures cmds[0].Put? ==>
              RTA_HEADER + |cmds[0].data| < 0x1_0000
              && |Layout(b)| + Align(RTA_HEADER + |cmds[0].data|) == |Layout(Perform(b, cmds[0]))|
    ensures cmds[0].NestStart? ==> |Layout(b)| + RTA_HEADER == |Layout(Perform(b, cmds[0]))|
    ensures cmds[0].NestEnd? ==>
              |Layout(b)| == |Layout(b.outer)| + RTA_HEADER + |EncodeAll(b.done)|
              && RTA_HEADER + |EncodeAll(b.done)| < 0x1_0000
              && |Layout(b)| == |Layout(Perform(b, cmds[0]))|
  {
    hide Header, Encode, EncodeAll, Flagged, SoundSoFar, Align, Short;
    FitsOnTheWay(Perform(b, cmds[0]), cmds[1..]);
    SoundBefore(b, cmds[0]);
    match cmds[0] {
      case Put(kind, data) =>
        LayoutAdd(b, Leaf(kind, data));
        AlignOfRecord(|data|);
        LeafLength(kind, data);
      case NestStart(kind) =>
        EncodeAllOne(Leaf(kind, []));
      case NestEnd =>
        LayoutAdd(b.outer, Nest(b.kind, b.done));
        NestInParts(b.kind, b.done);
    }
  }

  lemma LeafLength(kind: nat, data: seq<Byte>)
    ensures |Encode(Leaf(kind, data))| == RTA_HEADER + Align(|data|)
  {
  }

  lemma StepBuilds(base: seq<Byte>, b: Building, cmd: Cmd)
    requires |base| % 4 == 0 && (cmd.NestEnd? ==> b.Inside?)
    ensures |base + Layout(b)| % 4 == 0 && Align(|base + Layout(b)|) == |base + Layout(b)|
    ensures cmd.Put? ==>
              PutBytes(base + Layout(b), cmd.kind, cmd.data) == base + Layout(Perform(b, cmd))
              && Starts(|base|, Perform(b, cmd)) == Starts(|base|, b)
    ensures cmd.NestStart? ==>
              StartBytes(base + Layout(b), cmd.kind) == base + Layout(Perform(b, cmd))
              && Starts(|base|, Perform(b, cmd)) == [|base + Layout(b)|] + Starts(|base|, b)
    ensures cmd.NestEnd? ==>
              var start := |base| + |Layout(b.outer)|;
              && Align(start) == start && start + RTA_HEADER <= |base + Layout(b)|
              && Starts(|base|, b) == [start] + Starts(|base|, Perform(b, cmd))
              && EndBytes(base + Layout(b), start) == base + Layout(Perform(b, cmd))
  {
    hide Layout, PutBytes, StartBytes, EndBytes, Encode, EncodeAll, Align;
    AlignedSum(|base|, |Layout(b)|);
    AlignFixed(|base + Layout(b)|);
    match cmd {
      case Put(kind, data) =>
        PutBuilds(base, b, kind, data);
        StartsAdd(|base|, b, Leaf(kind, data));
      case NestStart(kind) =>
        StartBuilds(base, b, kind);
      case NestEnd =>
        EndBuilds(base, b);
        AlignedSum(|base|, |Layout(b.outer)|);
        AlignFixed(|base| + |Layout(b.outer)|);
        StartsAdd(|base|, b.outer, Nest(b.kind, b.done));
    }
  }

  lemma AlignOfRecord(n: nat)
    ensures Align(RTA_HEADER + n) == RTA_HEADER + Align(n)
    ensures Align(0) == 0
  {
  }

  lemma AlignCut(n: nat)
    ensures Align(n % 0x1_0000) <= Align(n)
    ensures n < 0x1_0000 ==> n % 0x1_0000 == n
  {
    assert n % 0x1_0000 <= n;
  }

  /** The end found for a closed nest is the message's own when that is aligned and the nest fits. */
  lemma AlignBelow(start: nat, len: nat)
    requires Align(start) <= len
    ensures Align(start) + Align(len - Align(start)) == Align(len)
    ensures len % 4 == 0 ==> Align(len) == len
  {
    hide Align;
    var k := Align(start) / 4;
    assert Align(start) == 4 * k;
    AlignShift(k, len - Align(start));
    if len % 4 == 0 {
      AlignFixed(len);
    }
  }

  lemma AlignShift(k: nat, m: nat)
    ensures Align(4 * k + m) == 4 * k + Align(m)
  {
    assert (4 * k + m + 3) / 4 == k + (m + 3) / 4;
  }

  lemma OverwriteBoth(s: seq<Byte>, at: nat, a: seq<Byte>, b: seq<Byte>)
    requires at + |a| + |b| <= |s|
    ensures Overwrite(Overwrite(s, at, a), at + |a|, b) == Overwrite(s, at, a + b)
    ensures Overwrite(Overwrite(s, at + |a|, b), at, a) == Overwrite(s, at, a + b)
  {
  }

  lemma HeaderWritten(s: seq<Byte>, rta: nat, len: nat, kind: nat)
    requires rta + RTA_HEADER <= |s|
    ensures Overwrite(Overwrite(s, rta + 2, Short(kind)), rta, Short(len)) == Overwrite(s, rta, Header(len, kind))
  {
    hide Short, Overwrite;
    OverwriteBoth(s, rta, Short(len), Short(kind));
  }

  lemma ReadWritten(s: seq<Byte>, at: nat, n: nat, more: seq<Byte>)
    requires at + 2 + |more| <= |s|
    ensures ReadShort(Overwrite(s, at, Short(n) + more)[at..]) == n % 0x1_0000
  {
    hide Short, ReadShort;
    var rest := more + s[at + 2 + |more|..];
    assert Overwrite(s, at, Short(n) + more)[at..] == Short(n) + rest;
    ShortRoundTrip(n, rest);
  }

  lemma RecordLength(s: seq<Byte>, rta: nat, kind: nat, data: seq<Byte>)
    requires rta + RTA_HEADER + |data| <= |s|
    ensures ReadShort(Overwrite(s, rta, Header(RTA_HEADER + |data|, kind) + data)[rta..])
         == (RTA_HEADER + |data|) % 0x1_0000
  {
    hide Short, ReadShort, Overwrite;
    var n := RTA_HEADER + |data|;
    ReadWritten(s, rta, n, Short(kind) + data);
    Assoc(Short(n), Short(kind), data);
  }

  lemma NestLength(s: seq<Byte>, rta: nat, n: nat)
    requires rta + 2 <= |s|
    ensures ReadShort(Overwrite(s, rta, Short(n))[rta..]) == n % 0x1_0000
  {
    hide Short, ReadShort, Overwrite;
    ReadWritten(s, rta, n, []);
    assert Short(n) + [] == Short(n);
  }

  /** On a clean buffer the padding around a new record is zero. */
  lemma RecordOnClean(s: seq<Byte>, cur: nat, kind: nat, data: seq<Byte>)
    requires cur <= |s| && Align(cur) + Align(RTA_HEADER + |data|) <= |s|
    ensures var after := Overwrite(s, Align(cur), Header(RTA_HEADER + |data|, kind) + data);
            var end := Align(cur) + Align(RTA_HEADER + |data|);
            ZeroFrom(s, cur) ==> after[..end] == PutBytes(s[..cur], kind, data) && ZeroFrom(after, end)
  {
    hide Short, Align, Header, Pad, ZeroFrom;
    AlignOfRecord(|data|);
    if ZeroFrom(s, cur) {
      var h := Header(RTA_HEADER + |data|, kind);
      var rest := s[Align(cur) + RTA_HEADER + |data|..];
      PaddedFront(s, cur);
      ZeroAfter(s, cur, Align(cur) + RTA_HEADER + |data|);
      RecordShaped(Pad(s[..cur]) + h, data, rest, Align(|data|) - |data|);
      Assoc(Pad(s[..cur]), h, data);
      PutInParts(s[..cur], kind, data);
    }
  }

  lemma ZeroAfter(s: seq<Byte>, n: nat, m: nat)
    requires n <= m <= |s| && ZeroFrom(s, n)
    ensures ZeroFrom(s[m..], 0)
  {
  }

  lemma HeaderOnClean(s: seq<Byte>, cur: nat, kind: nat)
    requires cur <= |s| && Align(cur) + RTA_HEADER <= |s|
    ensures var after := Overwrite(s, Align(cur), Header(RTA_HEADER, Flagged(kind)));
            var end := Align(cur) + RTA_HEADER;
            ZeroFrom(s, cur) ==> after[..end] == StartBytes(s[..cur], kind) && ZeroFrom(after, end)
  {
    hide Short, Align, Header, Pad, Flagged;
    if ZeroFrom(s, cur) {
      PaddedFront(s, cur);
    }
  }

  lemma PaddedFront(s: seq<Byte>, cur: nat)
    requires cur <= |s| && Align(cur) <= |s| && ZeroFrom(s, cur)
    ensures s[..Align(cur)] == Pad(s[..cur])
  {
    hide Align;
  }

  lemma PatchedBytes(s: seq<Byte>, len: nat, start: nat)
    requires len <= |s| && Align(start) + RTA_HEADER <= len
    ensures var after := Overwrite(s, Align(start), Short(len - Align(start)));
            after[..len] == EndBytes(s[..len], start) && (ZeroFrom(s, len) ==> ZeroFrom(after, len))
  {
    hide Short, Align;
  }

  lemma RecordShaped(head: seq<Byte>, data: seq<Byte>, rest: seq<Byte>, pad: nat)
    requires pad <= |rest| && ZeroFrom(rest, 0)
    ensures (head + data + rest)[..|head| + |data| + pad] == head + data + Zeros(pad)
    ensures ZeroFrom(head + data + rest, |head| + |data| + pad)
  {
    assert rest[..pad] == Zeros(pad);
    assert (head + data + rest)[..|head| + |data| + pad] == head + data + rest[..pad];
  }

  lemma PutInParts(s: seq<Byte>, kind: nat, data: seq<Byte>)
    ensures PutBytes(s, kind, data)
         == Pad(s) + Header(RTA_HEADER + |data|, kind) + data + Zeros(Align(|data|) - |data|)
  {
    hide Align, Short, Header;
    var h := Header(RTA_HEADER + |data|, kind);
    var z := Zeros(Align(|data|) - |data|);
    assert Pad(s) + h + data + z == Pad(s) + (h + data + z);
  }
}
