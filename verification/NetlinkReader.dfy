/** Reading attributes back: the record walk, whole trees, and the network id of an interface. */
module NetlinkReader {
  import opened Bytes
  import opened NetlinkLayout
  import opened NetlinkMessage

  /** A record as the walk meets it. */
  datatype Rta = Rta(kind: nat, payload: seq<Byte>)

  /** Room for a header, and a record length that covers the header and stays inside. */
  predicate RtaOk(s: seq<Byte>) {
    |s| >= RTA_HEADER && RTA_HEADER <= ReadShort(s) <= |s|
  }

  function RtaAt(s: seq<Byte>): Rta
    requires RtaOk(s)
  {
    Rta(ReadShort(s[2..]), s[RTA_HEADER..ReadShort(s)])
  }

  /** What remains after a record and its padding; the padding may be missing at the very end. */
  function RtaRest(s: seq<Byte>): (r: seq<Byte>)
    requires RtaOk(s)
    ensures |r| <= |s| - RTA_HEADER
  {
    if Align(ReadShort(s)) <= |s| then s[Align(ReadShort(s))..] else []
  }

  function Walk(s: seq<Byte>): seq<Rta>
    decreases |s|
  {
    if RtaOk(s) then [RtaAt(s)] + Walk(RtaRest(s)) else []
  }

  // ----- Walking what was built -----

  /** No type in the tree reaches the nest flag. */
  predicate Unflagged(t: Attr)
    decreases t
  {
    t.kind < NLA_F_NESTED && (t.Nest? ==> forall c :: c in t.children ==> Unflagged(c))
  }

  /** A tree whose lengths and types fit their 16-bit fields, types free of the nest flag. */
  predicate Encodable(t: Attr) {
    Sized(t) && Unflagged(t)
  }

  predicate AllEncodable(ts: seq<Attr>) {
    forall t :: t in ts ==> Encodable(t)
  }

  /** A tree as a single record. */
  function Record(t: Attr): Rta {
    match t
    case Leaf(kind, payload) => Rta(kind, payload)
    case Nest(kind, children) => Rta(Flagged(kind), EncodeAll(children))
  }

  lemma RecordShape(len: nat, kind: nat, payload: seq<Byte>, pad: nat, rest: seq<Byte>)
    requires len == RTA_HEADER + |payload| < 0x1_0000 && kind < 0x1_0000
    requires pad == Align(|payload|) - |payload|
    ensures var s := Header(len, kind) + payload + Zeros(pad) + rest;
            RtaOk(s) && RtaAt(s) == Rta(kind, payload) && RtaRest(s) == rest
  {
    hide Short, ReadShort, Align;
    var s := Header(len, kind) + payload + Zeros(pad) + rest;
    var tail := payload + Zeros(pad) + rest;
    assert s == Short(len) + (Short(kind) + tail);
    ShortRoundTrip(len, Short(kind) + tail);
    assert s[2..] == Short(kind) + tail;
    ShortRoundTrip(kind, tail);
    AlignOfRecord(|payload|);
    assert s[RTA_HEADER..len] == payload;
    assert s[Align(len)..] == rest;
  }

  lemma EncodedShape(t: Attr, rest: seq<Byte>)
    requires Encodable(t)
    ensures var s := Encode(t) + rest; RtaOk(s) && RtaAt(s) == Record(t) && RtaRest(s) == rest
  {
    hide RtaOk, RtaAt, RtaRest, EncodeAll, Header;
    match t
    case Leaf(kind, payload) =>
      RecordShape(RTA_HEADER + |payload|, kind, payload, Align(|payload|) - |payload|, rest);
    case Nest(kind, children) =>
      var body := EncodeAll(children);
      assert Align(|body|) == |body|;
      assert Header(RTA_HEADER + |body|, Flagged(kind)) + body + Zeros(0) == Encode(t);
      RecordShape(RTA_HEADER + |body|, Flagged(kind), body, 0, rest);
  }

  function Records(ts: seq<Attr>): seq<Rta> {
    if ts == [] then [] else [Record(ts[0])] + Records(ts[1..])
  }

  /** Walking the bytes of a list of trees meets exactly their records, in order. */
  lemma {:induction false} WalkEncoded(ts: seq<Attr>)
    requires AllEncodable(ts)
    ensures Walk(EncodeAll(ts)) == Records(ts)
    decreases |ts|
  {
    hide Encode, RtaOk, RtaAt, RtaRest, Record;
    if ts == [] {
      NothingOk();
    } else {
      assert AllEncodable(ts[1..]);
      EncodedShape(ts[0], EncodeAll(ts[1..]));
      WalkEncoded(ts[1..]);
    }
  }

  lemma NothingOk()
    ensures !RtaOk([])
  {
  }

  lemma UnpaddedShape(len: nat, kind: nat, payload: seq<Byte>)
    requires len == RTA_HEADER + |payload| < 0x1_0000 && kind < 0x1_0000
    ensures var s := Header(len, kind) + payload; RtaOk(s) && RtaAt(s) == Rta(kind, payload) && RtaRest(s) == []
  {
    hide Short, ReadShort, Align;
    var s := Header(len, kind) + payload;
    assert s == Short(len) + (Short(kind) + payload);
    ShortRoundTrip(len, Short(kind) + payload);
    assert s[2..] == Short(kind) + payload;
    ShortRoundTrip(kind, payload);
    assert s[RTA_HEADER..len] == payload;
    assert s[len..] == [];
  }

  /** The last record may lack its padding. */
  lemma WalkUnpadded(kind: nat, payload: seq<Byte>)
    requires 4 + |payload| < 0x1_0000 && kind < 0x1_0000
    ensures Walk(Header(4 + |payload|, kind) + payload) == [Rta(kind, payload)]
  {
    hide RtaOk, RtaAt, RtaRest, Header;
    UnpaddedShape(4 + |payload|, kind, payload);
    WalkStep(Header(4 + |payload|, kind) + payload);
    WalkStep([]);
    NothingOk();
  }

  /** The walk stops where there is no room for a header, and at a length that is below the header's or
      runs past the end. */
  lemma WalkStops(s: seq<Byte>)
    ensures |s| < 4 ==> Walk(s) == []
    ensures |s| >= 4 ==> var n: nat, m: nat := s[0], s[1]; (Walk(s) == [] <==> n + 256 * m < 4 || |s| < n + 256 * m)
  {
    hide RtaAt, RtaRest;
    WalkStep(s);
  }

  /** The trees that bytes stand for: a flagged record is a nest. */
  function Parse(s: seq<Byte>): seq<Attr>
    decreases |s|, 1
  {
    if !RtaOk(s) then [] else [TreeOf(RtaAt(s))] + Parse(RtaRest(s))
  }

  /** The tree a record stands for. */
  function TreeOf(r: Rta): Attr
    decreases |r.payload|, 2
  {
    if r.kind >= NLA_F_NESTED then Nest(r.kind - NLA_F_NESTED, Parse(r.payload)) else Leaf(r.kind, r.payload)
  }

  lemma ParseStep(s: seq<Byte>)
    ensures Parse(s) == if RtaOk(s) then [TreeOf(RtaAt(s))] + Parse(RtaRest(s)) else []
  {
    hide RtaOk, RtaRest;
  }

  /** Round trip: reading the bytes of any list of trees gives back the trees, to every depth. */
  lemma {:induction false} ParseEncoded(ts: seq<Attr>)
    requires AllEncodable(ts)
    ensures Parse(EncodeAll(ts)) == ts
    decreases ts, 1
  {
    hide Encode, RtaOk, RtaAt, RtaRest, Parse, Encodable, TreeOf, Record;
    ParseStep(EncodeAll(ts));
    if ts == [] {
      NothingOk();
    } else {
      assert AllEncodable(ts[1..]);
      EncodedShape(ts[0], EncodeAll(ts[1..]));
      ParseEncoded(ts[1..]);
      TreeOfRecord(ts[0]);
      assert ts == [ts[0]] + ts[1..];
    }
  }

  lemma {:induction false} TreeOfRecord(t: Attr)
    requires Encodable(t)
    ensures TreeOf(Record(t)) == t
    decreases t, 0
  {
    hide Encode, EncodeAll, Parse;
    if t.Nest? {
      assert AllEncodable(t.children);
      ParseEncoded(t.children);
    }
  }

  /** A finished bracketed sequence of builder steps, read back, gives the tree the steps describe. */
  lemma BuildParse(base: seq<Byte>, cmds: seq<Cmd>)
    requires |base| % 4 == 0
    requires Bracketed(Top([]), cmds) && PerformAll(Top([]), cmds).Top? && AllEncodable(PerformAll(Top([]), cmds).done)
    ensures base <= Execute(base, [], cmds)
    ensures Parse(Execute(base, [], cmds)[|base|..]) == PerformAll(Top([]), cmds).done
    ensures SoundSoFar(PerformAll(Top([]), cmds))
  {
    hide Execute, PerformAll, Parse, EncodeAll;
    var ts := PerformAll(Top([]), cmds).done;
    ExecuteBuilds(base, Top([]), cmds);
    LayoutOfTop([]);
    EncodeAllOne(Leaf(0, []));
    assert base + Layout(Top([])) == base;
    LayoutOfTop(ts);
    assert (base + EncodeAll(ts))[|base|..] == EncodeAll(ts);
    ParseEncoded(ts);
  }

  // ----- The network id -----

  function ReadWord(s: seq<Byte>): nat
    requires |s| >= 4
  {
    ReadShort(s) + 0x1_0000 * ReadShort(s[2..])
  }

  /** The id a record holds, if any: four bytes or more are a 32-bit id, exactly one is a small id. */
  function NetIdIn(m: Rta): seq<nat> {
    if m.kind != IFLA_MCTP_NET then []
    else if |m.payload| >= 4 then [ReadWord(m.payload)]
    else if |m.payload| == 1 then [m.payload[0]]
    else []
  }

  function FlatMap<T, U>(f: T -> seq<U>, s: seq<T>): seq<U> {
    if s == [] then [] else f(s[0]) + FlatMap(f, s[1..])
  }

  function NetIdsInFamily(af: Rta): seq<nat> {
    if af.kind == AF_MCTP then FlatMap(NetIdIn, Walk(af.payload)) else []
  }

  function NetIdsInLink(a: Rta): seq<nat> {
    if a.kind == IFLA_AF_SPEC then FlatMap(NetIdsInFamily, Walk(a.payload)) else []
  }

  /** Every network id in the attributes of a link message, depth first. */
  function NetIds(attrs: seq<Byte>): seq<nat> {
    FlatMap(NetIdsInLink, Walk(attrs))
  }

  /** The bytes left to a walk at `off` with `len` to go; the count can end a little below zero. */
  function Region(buf: seq<Byte>, off: nat, len: int): seq<Byte>
    requires len <= 0 || off + len <= |buf|
  {
    if len <= 0 then [] else buf[off..off + len]
  }

  lemma SliceOfSlice(buf: seq<Byte>, lo: nat, hi: nat, i: nat, j: nat)
    requires lo <= hi <= |buf| && i <= j <= hi - lo
    ensures buf[lo..hi][i..j] == buf[lo + i..lo + j]
  {
    var part := buf[lo..hi];
    assert forall k :: 0 <= k < hi - lo ==> part[k] == buf[lo + k];
    assert forall k :: 0 <= k < j - i ==> part[i..j][k] == buf[lo + i..lo + j][k];
  }

  lemma RegionRest(buf: seq<Byte>, off: nat, len: nat, n: nat)
    requires 0 < len && off + len <= |buf| && RTA_HEADER <= n <= len
    ensures len - Align(n) >= -3
    ensures Region(buf, off + Align(n), len - Align(n))
         == if Align(n) <= len then Region(buf, off, len)[Align(n)..] else []
  {
    hide Align;
    var s := buf[off..off + len];
    if Align(n) < len {
      SliceOfSlice(buf, off, off + len, Align(n), len);
      assert s[Align(n)..] == s[Align(n)..len];
    } else if Align(n) == len {
      assert s[len..] == [];
    }
  }

  lemma RegionStep(buf: seq<Byte>, off: nat, len: int)
    requires 0 < len && off + len <= |buf|
    requires RtaOk(Region(buf, off, len))
    ensures var n := ReadShort(Region(buf, off, len));
            && len - Align(n) >= -3
            && (len - Align(n) <= 0 || off + Align(n) + (len - Align(n)) <= |buf|)
            && Region(buf, off + Align(n), len - Align(n)) == RtaRest(Region(buf, off, len))
            && RtaAt(Region(buf, off, len)).payload == Region(buf, off + RTA_HEADER, n - RTA_HEADER)
            && Walk(Region(buf, off, len))
               == [RtaAt(Region(buf, off, len))] + Walk(Region(buf, off + Align(n), len - Align(n)))
  {
    hide Walk, ReadShort, Align;
    var s := Region(buf, off, len);
    var n := ReadShort(s);
    WalkStep(s);
    assert s == buf[off..off + len];
    SliceOfSlice(buf, off, off + len, RTA_HEADER, n);
    RegionRest(buf, off, len, n);
  }

  lemma WalkStep(s: seq<Byte>)
    ensures Walk(s) == if RtaOk(s) then [RtaAt(s)] + Walk(RtaRest(s)) else []
  {
    hide RtaOk, RtaAt, RtaRest;
  }

  lemma FlatMapCons<T, U>(f: T -> seq<U>, x: T, s: seq<T>)
    ensures FlatMap(f, [x] + s) == f(x) + FlatMap(f, s)
  {
    assert ([x] + s)[1..] == s;
  }

  /** The innermost loop: the first id among the records of an MCTP family block. */
  method FindInFamily(buf: seq<Byte>, off: nat, len: nat) returns (found: bool, net: nat)
    requires off + len <= |buf|
    ensures found <==> FlatMap(NetIdIn, Walk(Region(buf, off, len))) != []
    ensures found ==> net == FlatMap(NetIdIn, Walk(Region(buf, off, len)))[0]
  {
    hide Walk, RtaOk, FlatMap, ReadShort, Align, Region, RtaAt, RtaRest, ReadWord;
    var m: nat, mlen: int := off, len;
    net := 0;
    while RtaOk(Region(buf, m, mlen))
      invariant mlen >= -3 && (mlen <= 0 || m + mlen <= |buf|)
      invariant FlatMap(NetIdIn, Walk(Region(buf, off, len))) == FlatMap(NetIdIn, Walk(Region(buf, m, mlen)))
      decreases mlen
    {
      RegionOk(buf, m, mlen);
      RegionStep(buf, m, mlen);
      var r := RtaAt(Region(buf, m, mlen));
      var n := ReadShort(Region(buf, m, mlen));
      FlatMapCons(NetIdIn, r, Walk(Region(buf, m + Align(n), mlen - Align(n))));
      if r.kind == IFLA_MCTP_NET {
        var payload := |r.payload|;
        if payload >= 4 {
          return true, ReadWord(r.payload);
        } else if payload == 1 {
          return true, r.payload[0];
        }
      }
      m := m + Align(n);
      mlen := mlen - Align(n);
    }
    found := false;
    WalkStep(Region(buf, m, mlen));
    FlatMapNothing<Rta, nat>(NetIdIn);
  }

  lemma FlatMapNothing<T, U>(f: T -> seq<U>)
    ensures FlatMap(f, []) == []
  {
  }

  lemma RegionOk(buf: seq<Byte>, off: nat, len: int)
    requires len <= 0 || off + len <= |buf|
    requires RtaOk(Region(buf, off, len))
    ensures len >= RTA_HEADER && RTA_HEADER <= ReadShort(Region(buf, off, len)) <= len
    ensures Align(ReadShort(Region(buf, off, len))) >= RTA_HEADER
  {
  }

  /** The middle loop: the address families of an IFLA_AF_SPEC attribute. */
  method FindInLink(buf: seq<Byte>, off: nat, len: nat) returns (found: bool, net: nat)
    requires off + len <= |buf|
    ensures found <==> FlatMap(NetIdsInFamily, Walk(Region(buf, off, len))) != []
    ensures found ==> net == FlatMap(NetIdsInFamily, Walk(Region(buf, off, len)))[0]
  {
    hide Walk, RtaOk, FlatMap, ReadShort, Align, Region, RtaAt, RtaRest, NetIdIn;
    var af: nat, afLen: int := off, len;
    net := 0;
    while RtaOk(Region(buf, af, afLen))
      invariant afLen >= -3 && (afLen <= 0 || af + afLen <= |buf|)
      invariant FlatMap(NetIdsInFamily, Walk(Region(buf, off, len)))
             == FlatMap(NetIdsInFamily, Walk(Region(buf, af, afLen)))
      decreases afLen
    {
      RegionOk(buf, af, afLen);
      RegionStep(buf, af, afLen);
      var r := RtaAt(Region(buf, af, afLen));
      var n := ReadShort(Region(buf, af, afLen));
      FlatMapCons(NetIdsInFamily, r, Walk(Region(buf, af + Align(n), afLen - Align(n))));
      if r.kind == AF_MCTP {
        found, net := FindInFamily(buf, af + RTA_HEADER, n - RTA_HEADER);
        if found {
          return;
        }
      }
      af := af + Align(n);
      afLen := afLen - Align(n);
    }
    found := false;
    WalkStep(Region(buf, af, afLen));
    FlatMapNothing<Rta, nat>(NetIdsInFamily);
  }

  lemma RegionToEnd(buf: seq<Byte>, off: nat)
    requires off <= |buf|
    ensures Region(buf, off, |buf| - off) == buf[off..]
  {
  }

  /** The netlink header and the link header. */
  const NLMSG_HDRLEN := 16
  const IFINFO_LENGTH := 16

  /** The link message's attributes start after both. */
  const ATTRS_AT := NLMSG_HDRLEN + IFINFO_LENGTH

  /** The network id in one link message: the first id there is, depth first; none exactly when
      there is none. */
  method GetNetId(msg: seq<Byte>) returns (found: bool, net: nat)
    ensures found <==> |msg| >= 32 && NetIds(msg[32..]) != []
    ensures found ==> net == NetIds(msg[32..])[0]
  {
    hide Walk, RtaOk, FlatMap, ReadShort, Align, RtaAt, RtaRest, NetIdsInFamily, Region;
    var rta: nat, attrLen: int := ATTRS_AT, |msg| - ATTRS_AT;
    net := 0;
    if attrLen < 0 {
      // The remaining count is negative, so the walk's test fails at once.
      return false, 0;
    }
    RegionToEnd(msg, rta);
    while RtaOk(Region(msg, rta, attrLen))
      invariant attrLen >= -3 && (attrLen <= 0 || rta + attrLen <= |msg|)
      invariant NetIds(msg[ATTRS_AT..]) == FlatMap(NetIdsInLink, Walk(Region(msg, rta, attrLen)))
      decreases attrLen
    {
      RegionOk(msg, rta, attrLen);
      RegionStep(msg, rta, attrLen);
      var r := RtaAt(Region(msg, rta, attrLen));
      var n := ReadShort(Region(msg, rta, attrLen));
      FlatMapCons(NetIdsInLink, r, Walk(Region(msg, rta + Align(n), attrLen - Align(n))));
      if r.kind == IFLA_AF_SPEC {
        found, net := FindInLink(msg, rta + RTA_HEADER, n - RTA_HEADER);
        if found {
          return;
        }
      }
      rta := rta + Align(n);
      attrLen := attrLen - Align(n);
    }
    found := false;
    WalkStep(Region(msg, rta, attrLen));
    FlatMapNothing<Rta, nat>(NetIdsInLink);
  }

  // ----- Which id the reader returns -----

  lemma {:induction false} FlatMapFirst<T, U>(f: T -> seq<U>, s: seq<T>) returns (i: nat)
    requires FlatMap(f, s) != []
    ensures i < |s| && f(s[i]) != [] && FlatMap(f, s)[0] == f(s[i])[0]
    ensures forall i' :: 0 <= i' < i ==> f(s[i']) == []
    decreases |s|
  {
    if f(s[0]) != [] {
      i := 0;
    } else {
      var i' := FlatMapFirst(f, s[1..]);
      i := i' + 1;
      assert FlatMap(f, s) == FlatMap(f, s[1..]);
      assert forall k :: 0 < k < i ==> s[k] == s[1..][k - 1];
    }
  }

  lemma {:induction false} FlatMapEmpty<T, U>(f: T -> seq<U>, s: seq<T>, i: nat)
    requires FlatMap(f, s) == [] && i < |s|
    ensures f(s[i]) == []
    decreases |s|
  {
    if i > 0 {
      FlatMapEmpty(f, s[1..], i - 1);
    }
  }

  /** Record `k` of family block `j` of attribute `i`. */
  predicate OnPath(attrs: seq<Byte>, i: nat, j: nat, k: nat) {
    && i < |Walk(attrs)| && Walk(attrs)[i].kind == IFLA_AF_SPEC
    && j < |Walk(Walk(attrs)[i].payload)| && Walk(Walk(attrs)[i].payload)[j].kind == AF_MCTP
    && k < |Walk(Walk(Walk(attrs)[i].payload)[j].payload)|
  }

  /** The id that record holds, if there is such a record and it holds one. */
  function ValueAt(attrs: seq<Byte>, i: nat, j: nat, k: nat): seq<nat> {
    if OnPath(attrs, i, j, k) then NetIdIn(Walk(Walk(Walk(attrs)[i].payload)[j].payload)[k]) else []
  }

  predicate Before(i: nat, j: nat, k: nat, i': nat, j': nat, k': nat) {
    i < i' || (i == i' && (j < j' || (j == j' && k < k')))
  }

  lemma NothingAt(attrs: seq<Byte>, i: nat, j: nat, k: nat)
    requires OnPath(attrs, i, j, k)
    ensures NetIdsInLink(Walk(attrs)[i]) == [] ==> NetIdsInFamily(Walk(Walk(attrs)[i].payload)[j]) == []
    ensures NetIdsInFamily(Walk(Walk(attrs)[i].payload)[j]) == [] ==> ValueAt(attrs, i, j, k) == []
  {
    hide Walk, NetIdIn, FlatMap;
    var afs := Walk(Walk(attrs)[i].payload);
    if NetIdsInLink(Walk(attrs)[i]) == [] {
      FlatMapEmpty(NetIdsInFamily, afs, j);
    }
    if NetIdsInFamily(afs[j]) == [] {
      FlatMapEmpty(NetIdIn, Walk(afs[j].payload), k);
    }
  }

  /** The id returned is held by a record of an MCTP block of a link attribute, and no record on such
      a path before it, depth first, holds one. */
  lemma FirstNetId(attrs: seq<Byte>) returns (i: nat, j: nat, k: nat)
    requires NetIds(attrs) != []
    ensures ValueAt(attrs, i, j, k) == [NetIds(attrs)[0]]
    ensures forall i', j', k' :: Before(i', j', k', i, j, k) ==> ValueAt(attrs, i', j', k') == []
  {
    hide Walk, NetIdIn, FlatMap;
    i := FlatMapFirst(NetIdsInLink, Walk(attrs));
    var afs := Walk(Walk(attrs)[i].payload);
    j := FlatMapFirst(NetIdsInFamily, afs);
    k := FlatMapFirst(NetIdIn, Walk(afs[j].payload));
    OneIdAtMost(Walk(afs[j].payload)[k]);
    forall i', j', k' | Before(i', j', k', i, j, k)
      ensures ValueAt(attrs, i', j', k') == []
    {
      if OnPath(attrs, i', j', k') {
        NothingAt(attrs, i', j', k');
      }
    }
  }

  lemma OneIdAtMost(m: Rta)
    ensures |NetIdIn(m)| <= 1
  {
  }

  /** The reader fails exactly when no record on such a path holds an id. */
  lemma NoNetId(attrs: seq<Byte>)
    ensures NetIds(attrs) == [] <==> forall i, j, k :: ValueAt(attrs, i, j, k) == []
  {
    hide Walk, NetIdIn, FlatMap;
    if NetIds(attrs) == [] {
      forall i, j, k ensures ValueAt(attrs, i, j, k) == [] {
        if OnPath(attrs, i, j, k) {
          FlatMapEmpty(NetIdsInLink, Walk(attrs), i);
          NothingAt(attrs, i, j, k);
        }
      }
    } else {
      var i, j, k := FirstNetId(attrs);
      assert ValueAt(attrs, i, j, k) != [];
    }
  }

  // ----- The reader on what the builder builds -----

  lemma WordRoundTrip(n: nat)
    requires n < 0x1_0000_0000
    ensures ReadWord(Word32(n)) == n
  {
    hide Short, ReadShort;
    ShortRoundTrip(n, Short(n / 0x1_0000));
    assert Word32(n)[2..] == Short(n / 0x1_0000) + [];
    ShortRoundTrip(n / 0x1_0000, []);
  }

  /** The ids in the records of a list are those of its trees, one after the other. */
  lemma {:induction false} FlatMapRecords<U>(f: Rta -> seq<U>, g: Attr -> seq<U>, ts: seq<Attr>)
    requires forall t :: t in ts ==> f(Record(t)) == g(t)
    ensures FlatMap(f, Records(ts)) == FlatMap(g, ts)
    decreases |ts|
  {
    hide Record;
    if ts != [] {
      assert f(Record(ts[0])) == g(ts[0]);
      FlatMapRecords(f, g, ts[1..]);
      assert Records(ts)[1..] == Records(ts[1..]);
    }
  }

  /** What the reader finds in one of the trees the builder encodes: the nest flag is not masked, so
      nothing in a nest, and in a leaf what its payload holds. */
  function LeafIds(t: Attr): seq<nat> {
    if t.Leaf? then NetIdsInLink(Rta(t.kind, t.payload)) else []
  }

  /** What the reader finds in anything the builder encodes, to the byte: the ids in the payloads of
      leaves of type IFLA_AF_SPEC, and none in any nest. It fails exactly when there is no such leaf. */
  lemma BuiltIds(ts: seq<Attr>)
    requires AllEncodable(ts)
    ensures NetIds(EncodeAll(ts)) == FlatMap(LeafIds, ts)
    ensures NetIds(EncodeAll(ts)) == []
       <==> forall t :: t in ts && t.Leaf? && t.kind == IFLA_AF_SPEC ==>
              FlatMap(NetIdsInFamily, Walk(t.payload)) == []
  {
    hide Walk, EncodeAll, NetIdsInFamily, FlatMap;
    WalkEncoded(ts);
    FlatMapRecords(NetIdsInLink, LeafIds, ts);
    FlatMapNone(LeafIds, ts);
    forall t ensures LeafIds(t) == [] <==> (t.Leaf? && t.kind == IFLA_AF_SPEC ==>
                                              FlatMap(NetIdsInFamily, Walk(t.payload)) == []) {
    }
  }

  lemma {:induction false} FlatMapNone<T, U>(f: T -> seq<U>, s: seq<T>)
    ensures FlatMap(f, s) == [] <==> forall x :: x in s ==> f(x) == []
    decreases |s|
  {
    if s != [] {
      FlatMapNone(f, s[1..]);
      assert s == [s[0]] + s[1..];
    }
  }

  /** The reader does not mask the nest flag, which the builder always sets: an id inside a nest the
      builder made is never found, whatever the nest's type. */
  lemma SkipsBuiltNests(ts: seq<Attr>)
    requires AllEncodable(ts) && forall t :: t in ts ==> t.Nest?
    ensures NetIds(EncodeAll(ts)) == []
  {
    hide NetIds, FlatMap, EncodeAll, Encodable;
    BuiltIds(ts);
  }

  /** The library's own request to set a network id, read back with the library's own reader, holds
      no id: for every header and every id. */
  lemma OwnRequestUnread(header: seq<Byte>, net: nat)
    requires |header| == 32
    ensures NetIds((header + EncodeAll([NetIdTree(net)]))[32..]) == []
  {
    hide NetIds, EncodeAll, Word32;
    var request := EncodeAll([NetIdTree(net)]);
    assert (header + request)[32..] == request;
    NetIdTreeFits(net);
    SkipsBuiltNests([NetIdTree(net)]);
  }

  lemma NetIdTreeFits(net: nat)
    ensures Encodable(NetIdTree(net))
  {
    hide Encode, Word32;
    var leaf := Leaf(IFLA_MCTP_NET, Word32(net));
    LeafLength(IFLA_MCTP_NET, Word32(net));
    EncodeAllOne(leaf);
    NestLengthOf(AF_MCTP, [leaf]);
    EncodeAllOne(Nest(AF_MCTP, [leaf]));
    assert Align(4) == 4;
    assert Encodable(leaf);
    assert Encodable(Nest(AF_MCTP, [leaf]));
    assert NetIdTree(net) == Nest(IFLA_AF_SPEC, [Nest(AF_MCTP, [leaf])]);
    assert |EncodeAll(NetIdTree(net).children)| == 12;
  }

  lemma NestLengthOf(kind: nat, children: seq<Attr>)
    ensures |Encode(Nest(kind, children))| == RTA_HEADER + |EncodeAll(children)|
  {
  }

  // ----- The reader on nests without the flag -----

  /** The tree whose encoding is that of `t` with no nest flag set: a nest becomes a plain record
      around the same children. */
  function Plain(t: Attr): Attr
    decreases t, 0
  {
    match t
    case Leaf(_, _) => t
    case Nest(kind, children) => Leaf(kind, EncodeAll(PlainAll(children)))
  }

  function PlainAll(ts: seq<Attr>): (r: seq<Attr>)
    ensures |r| == |ts|
    decreases ts, 1
  {
    if ts == [] then [] else [Plain(ts[0])] + PlainAll(ts[1..])
  }

  /** The tree's lengths fit when it is encoded without the flag. */
  predicate PlainFits(t: Attr)
    decreases t
  {
    Encodable(Plain(t)) && (t.Nest? ==> forall c :: c in t.children ==> PlainFits(c))
  }

  predicate PlainFitAll(ts: seq<Attr>) {
    forall t :: t in ts ==> PlainFits(t)
  }

  /** The id a tree holds as an attribute of an MCTP block. */
  function IdOf(t: Attr): seq<nat> {
    NetIdIn(Record(Plain(t)))
  }

  /** The ids below an address-family block: those of its children if it is an MCTP block. A leaf's
      payload is read as records. */
  function FamilyIds(t: Attr): seq<nat> {
    if t.kind != AF_MCTP then []
    else match t
      case Nest(_, children) => FlatMap(IdOf, children)
      case Leaf(_, payload) => FlatMap(NetIdIn, Walk(payload))
  }

  /** The ids below a link attribute, depth first. */
  function LinkIds(t: Attr): seq<nat> {
    if t.kind != IFLA_AF_SPEC then []
    else match t
      case Nest(_, children) => FlatMap(FamilyIds, children)
      case Leaf(_, payload) => FlatMap(NetIdsInFamily, Walk(payload))
  }

  lemma {:induction false} PlainRecords(ts: seq<Attr>)
    requires PlainFitAll(ts)
    ensures AllEncodable(PlainAll(ts))
    ensures Walk(EncodeAll(PlainAll(ts))) == Records(PlainAll(ts))
    decreases |ts|
  {
    hide Plain, Encodable, Walk, EncodeAll, Record;
    if ts != [] {
      assert PlainFits(ts[0]);
      PlainRecords(ts[1..]);
    }
    WalkEncoded(PlainAll(ts));
  }

  lemma {:induction false} FlatMapPlain<U>(f: Rta -> seq<U>, g: Attr -> seq<U>, ts: seq<Attr>)
    requires forall t :: t in ts ==> f(Record(Plain(t))) == g(t)
    ensures FlatMap(f, Records(PlainAll(ts))) == FlatMap(g, ts)
    decreases |ts|
  {
    hide Record, Plain;
    if ts != [] {
      assert f(Record(Plain(ts[0]))) == g(ts[0]);
      FlatMapPlain(f, g, ts[1..]);
      assert Records(PlainAll(ts))[1..] == Records(PlainAll(ts)[1..]);
      assert PlainAll(ts)[1..] == PlainAll(ts[1..]);
    }
  }

  lemma FamilyOfPlain(t: Attr)
    requires PlainFits(t)
    ensures NetIdsInFamily(Record(Plain(t))) == FamilyIds(t)
  {
    hide Walk, EncodeAll, PlainAll, FlatMap, Encodable, NetIdIn;
    if t.Nest? && t.kind == AF_MCTP {
      assert PlainFitAll(t.children);
      PlainRecords(t.children);
      FlatMapPlain(NetIdIn, IdOf, t.children);
    }
  }

  lemma LinkOfPlain(t: Attr)
    requires PlainFits(t)
    ensures NetIdsInLink(Record(Plain(t))) == LinkIds(t)
  {
    hide Walk, EncodeAll, PlainAll, FlatMap, Encodable, NetIdsInFamily, FamilyIds;
    if t.Nest? && t.kind == IFLA_AF_SPEC {
      assert PlainFitAll(t.children);
      PlainRecords(t.children);
      forall c | c in t.children ensures NetIdsInFamily(Record(Plain(c))) == FamilyIds(c) {
        FamilyOfPlain(c);
      }
      FlatMapPlain(NetIdsInFamily, FamilyIds, t.children);
    }
  }

  /** From any attribute trees encoded without the nest flag, the reader's ids are those of a
      depth-first search of the trees. */
  lemma PlainIds(ts: seq<Attr>)
    requires PlainFitAll(ts)
    ensures NetIds(EncodeAll(PlainAll(ts))) == FlatMap(LinkIds, ts)
  {
    hide Walk, EncodeAll, PlainAll, FlatMap, Encodable, NetIdsInLink, LinkIds, Plain, Record;
    PlainRecords(ts);
    forall t | t in ts ensures NetIdsInLink(Record(Plain(t))) == LinkIds(t) {
      LinkOfPlain(t);
    }
    FlatMapPlain(NetIdsInLink, LinkIds, ts);
  }

  lemma FlatMapOne<T, U>(f: T -> seq<U>, x: T)
    ensures FlatMap(f, [x]) == f(x)
  {
    assert [x][1..] == [];
  }

  lemma PlainOne(kind: nat, t: Attr)
    ensures Plain(Nest(kind, [t])) == Leaf(kind, Encode(Plain(t)))
    ensures PlainAll([t]) == [Plain(t)]
  {
    hide Encode, EncodeAll, Plain;
    assert [t][1..] == [];
    assert PlainAll([t]) == [Plain(t)] + PlainAll([]) == [Plain(t)];
    EncodeAllOne(Plain(t));
    PlainNest(kind, [t]);
  }

  lemma PlainNest(kind: nat, children: seq<Attr>)
    ensures Plain(Nest(kind, children)) == Leaf(kind, EncodeAll(PlainAll(children)))
  {
  }

  /** The tree of the library's request, its nests without the nest flag as in the kernel's form,
      gives back its id: for every 32-bit id. */
  lemma ReadsUnflagged(net: nat)
    requires net < 0x1_0000_0000
    ensures var inner := Encode(Leaf(IFLA_MCTP_NET, Word32(net)));
            EncodeAll(PlainAll([NetIdTree(net)])) == Encode(Leaf(IFLA_AF_SPEC, Encode(Leaf(AF_MCTP, inner))))
    ensures NetIds(EncodeAll(PlainAll([NetIdTree(net)]))) == [net]
  {
    hide Walk, Encode, EncodeAll, FlatMap, ReadWord, Word32, Plain, PlainAll, NetIds, FamilyIds, LinkIds, IdOf;
    var t1 := Leaf(IFLA_MCTP_NET, Word32(net));
    var t2 := Nest(AF_MCTP, [t1]);
    var t3 := NetIdTree(net);
    PlainLeaf(t1);
    PlainOne(AF_MCTP, t1);
    PlainOne(IFLA_AF_SPEC, t2);
    PlainOne(0, t3);
    EncodeAllOne(Plain(t3));
    NetIdTreePlainFits(net);
    PlainIds([t3]);
    NetIdTreeIds(net);
    FlatMapOne(LinkIds, t3);
  }

  lemma PlainLeaf(t: Attr)
    requires t.Leaf?
    ensures Plain(t) == t
  {
  }

  lemma NetIdTreePlainFits(net: nat)
    ensures PlainFits(NetIdTree(net))
  {
    hide Encode, EncodeAll, Word32, Plain;
    var t1 := Leaf(IFLA_MCTP_NET, Word32(net));
    var t2 := Nest(AF_MCTP, [t1]);
    PlainLeaf(t1);
    PlainOne(AF_MCTP, t1);
    PlainOne(IFLA_AF_SPEC, t2);
    LeafLength(IFLA_MCTP_NET, Word32(net));
    assert Align(4) == 4 && Align(8) == 8;
    LeafLength(AF_MCTP, Encode(t1));
    assert PlainFits(t1);
    PlainFitsNest(AF_MCTP, t1);
    PlainFitsNest(IFLA_AF_SPEC, t2);
  }

  lemma PlainFitsNest(kind: nat, t: Attr)
    requires Encodable(Plain(Nest(kind, [t]))) && PlainFits(t)
    ensures PlainFits(Nest(kind, [t]))
  {
    hide Encodable, Plain;
    var nest := Nest(kind, [t]);
    assert forall c :: c in nest.children ==> c == t;
  }

  lemma NetIdTreeIds(net: nat)
    requires net < 0x1_0000_0000
    ensures LinkIds(NetIdTree(net)) == [net]
  {
    hide Walk, EncodeAll, FlatMap, ReadWord, Word32;
    var t1 := Leaf(IFLA_MCTP_NET, Word32(net));
    var t2 := Nest(AF_MCTP, [t1]);
    WordRoundTrip(net);
    FlatMapOne(IdOf, t1);
    FlatMapOne(FamilyIds, t2);
  }

  /** The whole message: behind any 32 octets of headers, trees encoded without the nest flag give the
      first id of their depth-first search, and nothing if there is none. */
  method ReadLinkMessage(header: seq<Byte>, ts: seq<Attr>) returns (found: bool, net: nat)
    requires |header| == 32 && PlainFitAll(ts)
    ensures found <==> FlatMap(LinkIds, ts) != []
    ensures found ==> net == FlatMap(LinkIds, ts)[0]
  {
    hide NetIds, EncodeAll, PlainAll, FlatMap, PlainFitAll, LinkIds;
    var attrs := EncodeAll(PlainAll(ts));
    assert (header + attrs)[32..] == attrs;
    PlainIds(ts);
    found, net := GetNetId(header + attrs);
  }

  lemma PlainLeafOctets(kind: nat, payload: seq<Byte>)
    ensures Encode(Leaf(kind, payload))
         == Header(RTA_HEADER + |payload|, kind) + payload + Zeros(Align(|payload|) - |payload|)
  {
  }

  lemma AlignOctets()
    ensures Align(1) == 4 && Align(4) == 4 && Align(8) == 8 && Align(12) == 12
  {
  }

  /** The octets of one attribute inside two plain nests. */
  lemma PlainNestOctets(kind: nat, payload: seq<Byte>)
    requires |Encode(Leaf(kind, payload))| == 8
    ensures EncodeAll(PlainAll([Nest(IFLA_AF_SPEC, [Nest(AF_MCTP, [Leaf(kind, payload)])])]))
         == [16, 0, 26, 0, 12, 0, 45, 0] + Encode(Leaf(kind, payload))
  {
    hide Encode, EncodeAll, Plain, PlainAll;
    var t1 := Leaf(kind, payload);
    var t2 := Nest(AF_MCTP, [t1]);
    var t3 := Nest(IFLA_AF_SPEC, [t2]);
    PlainLeaf(t1);
    PlainOne(AF_MCTP, t1);
    PlainOne(IFLA_AF_SPEC, t2);
    PlainOne(0, t3);
    EncodeAllOne(Plain(t3));
    AlignOctets();
    PlainLeafOctets(AF_MCTP, Encode(t1));
    PlainLeafOctets(IFLA_AF_SPEC, Encode(Plain(t2)));
    var inner := Encode(t1);
    assert Encode(Plain(t2)) == [12, 0, 45, 0] + inner;
    assert Encode(Plain(t3)) == [16, 0, 26, 0] + ([12, 0, 45, 0] + inner);
  }

  /** The octets from which a 32-bit id is read back. */
  lemma WideIdOctets(net: nat)
    requires net < 0x1_0000_0000
    ensures NetIds([16, 0, 26, 0, 12, 0, 45, 0, 8, 0, 1, 0,
                    net % 256, net / 256 % 256, net / 0x1_0000 % 256, net / 0x1_0000 / 256 % 256]) == [net]
  {
    hide NetIds, Encode, EncodeAll, PlainAll;
    ReadsUnflagged(net);
    LeafOctets(net);
    PlainNestOctets(IFLA_MCTP_NET, Word32(net));
    var octets: seq<Byte> := [16, 0, 26, 0, 12, 0, 45, 0, 8, 0, 1, 0,
                              net % 256, net / 256 % 256, net / 0x1_0000 % 256, net / 0x1_0000 / 256 % 256];
    assert EncodeAll(PlainAll([NetIdTree(net)])) == octets;
  }

  lemma SmallIdTree(b: Byte)
    ensures var t := Nest(IFLA_AF_SPEC, [Nest(AF_MCTP, [Leaf(IFLA_MCTP_NET, [b])])]);
            PlainFits(t) && FlatMap(LinkIds, [t]) == [b]
  {
    hide Encode, EncodeAll, Plain, FlatMap, Walk;
    var t1 := Leaf(IFLA_MCTP_NET, [b]);
    var t2 := Nest(AF_MCTP, [t1]);
    var t3 := Nest(IFLA_AF_SPEC, [t2]);
    PlainLeaf(t1);
    PlainOne(AF_MCTP, t1);
    PlainOne(IFLA_AF_SPEC, t2);
    AlignOctets();
    LeafLength(IFLA_MCTP_NET, [b]);
    LeafLength(AF_MCTP, Encode(t1));
    assert PlainFits(t1);
    PlainFitsNest(AF_MCTP, t1);
    PlainFitsNest(IFLA_AF_SPEC, t2);
    FlatMapOne(IdOf, t1);
    FlatMapOne(FamilyIds, t2);
    FlatMapOne(LinkIds, t3);
  }

  /** The octets from which a one-byte id is read. */
  lemma SmallIdOctets(b: Byte)
    ensures NetIds([16, 0, 26, 0, 12, 0, 45, 0, 5, 0, 1, 0, b, 0, 0, 0]) == [b]
  {
    hide NetIds, Encode, EncodeAll, PlainAll, LinkIds, FlatMap, PlainFits;
    var t1 := Leaf(IFLA_MCTP_NET, [b]);
    SmallIdTree(b);
    AlignOctets();
    PlainLeafOctets(IFLA_MCTP_NET, [b]);
    assert Encode(t1) == [5, 0, 1, 0, b, 0, 0, 0];
    PlainNestOctets(IFLA_MCTP_NET, [b]);
    PlainIds([Nest(IFLA_AF_SPEC, [Nest(AF_MCTP, [t1])])]);
    var octets: seq<Byte> := [16, 0, 26, 0, 12, 0, 45, 0, 5, 0, 1, 0, b, 0, 0, 0];
    assert EncodeAll(PlainAll([Nest(IFLA_AF_SPEC, [Nest(AF_MCTP, [t1])])])) == octets;
  }

  /** An attribute of type IFLA_MCTP_NET with two or three octets, or none, holds no id; one with more
      than four holds the number in the first four. */
  lemma IdSizes(payload: seq<Byte>)
    ensures IdOf(Leaf(1, payload))
         == if |payload| >= 4 then
              var a: nat, b: nat, c: nat, d: nat := payload[0], payload[1], payload[2], payload[3];
              [a + 0x100 * b + 0x1_0000 * c + 0x100_0000 * d]
            else if |payload| == 1 then [payload[0]] else []
    ensures forall kind, p :: kind != 1 ==> IdOf(Leaf(kind, p)) == []
  {
  }
}
