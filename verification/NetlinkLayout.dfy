/** The netlink attribute builder: type-length-value records, aligned to four bytes, with nests whose
    length is patched when they close. Numbers are little-endian. */
module NetlinkLayout {
  import opened Bytes

  /** The flag a nest's type carries. */
  const NLA_F_NESTED := 0x8000

  const RTA_HEADER := 4

  function Align(n: nat): (r: nat)
    ensures n <= r < n + 4 && r % 4 == 0
  {
    (n + 3) / 4 * 4
  }

  function Zeros(n: nat): (r: seq<Byte>)
    ensures |r| == n
  {
    seq(n, _ => 0)
  }

  /** An unsigned 16-bit field; larger numbers are cut. */
  function Short(n: nat): (r: seq<Byte>)
    ensures |r| == 2
  {
    [n % 256, n / 256 % 256]
  }

  function ReadShort(s: seq<Byte>): nat
    requires |s| >= 2
  {
    var low: int := s[0];
    var high: int := s[1];
    low + 256 * high
  }

  lemma ShortParts(n: nat)
    ensures n % 256 + 256 * (n / 256 % 256) == n % 0x1_0000
  {
    var high := n / 256;
    assert n == 256 * high + n % 256 && high == 256 * (high / 256) + high % 256;
    assert n == 0x1_0000 * (high / 256) + (256 * (high % 256) + n % 256);
  }

  lemma ShortRoundTrip(n: nat, rest: seq<Byte>)
    ensures ReadShort(Short(n) + rest) == n % 0x1_0000
  {
    assert (Short(n) + rest)[0] == Short(n)[0] && (Short(n) + rest)[1] == Short(n)[1];
    ShortParts(n);
  }

  /** The builder takes the end of a record from the 16-bit length it has stored; that is the record's
      own end exactly when the length fits. */
  lemma StoredLength(n: nat, rest: seq<Byte>)
    ensures Align(ReadShort(Short(RTA_HEADER + n) + rest)) == Align(RTA_HEADER + n) <==> RTA_HEADER + n < 0x1_0000
  {
    hide Short, ReadShort;
    ShortRoundTrip(RTA_HEADER + n, rest);
    if RTA_HEADER + n >= 0x1_0000 {
      assert (RTA_HEADER + n) % 0x1_0000 <= RTA_HEADER + n - 0x1_0000;
    }
  }

  /** The type with the flag or-ed in. */
  function Flagged(kind: nat): nat {
    if kind / NLA_F_NESTED % 2 == 0 then kind + NLA_F_NESTED else kind
  }

  // ----- Attribute trees and their bytes -----

  datatype Attr = Leaf(kind: nat, payload: seq<Byte>) | Nest(kind: nat, children: seq<Attr>)

  lemma AlignedSum(a: nat, b: nat)
    requires a % 4 == 0 && b % 4 == 0
    ensures (a + b) % 4 == 0
  {
  }

  lemma AlignFixed(n: nat)
    requires n % 4 == 0
    ensures Align(n) == n
  {
  }

  function Header(len: nat, kind: nat): (r: seq<Byte>)
    ensures |r| == RTA_HEADER
  {
    Short(len) + Short(kind)
  }

  function Encode(t: Attr): (r: seq<Byte>)
    ensures |r| % 4 == 0 && |r| >= 4
    decreases t, 0
  {
    match t
    case Leaf(kind, payload) =>
      AlignedSum(RTA_HEADER, Align(|payload|));
      Header(RTA_HEADER + |payload|, kind) + payload + Zeros(Align(|payload|) - |payload|)
    case Nest(kind, children) =>
      AlignedSum(RTA_HEADER, |EncodeAll(children)|);
      Header(RTA_HEADER + |EncodeAll(children)|, Flagged(kind)) + EncodeAll(children)
  }

  function EncodeAll(ts: seq<Attr>): (r: seq<Byte>)
    ensures |r| % 4 == 0
    decreases ts, 1
  {
    if ts == [] then []
    else
      AlignedSum(|Encode(ts[0])|, |EncodeAll(ts[1..])|);
      Encode(ts[0]) + EncodeAll(ts[1..])
  }

  lemma {:induction false} EncodeAllConcat(a: seq<Attr>, b: seq<Attr>)
    ensures EncodeAll(a + b) == EncodeAll(a) + EncodeAll(b)
    decreases |a|
  {
    hide Encode;
    if a == [] {
      assert a + b == b;
    } else {
      EncodeAllConcat(a[1..], b);
      assert (a + b)[0] == a[0] && (a + b)[1..] == a[1..] + b;
      Assoc(Encode(a[0]), EncodeAll(a[1..]), EncodeAll(b));
    }
  }

  lemma EncodeAllOne(t: Attr)
    ensures EncodeAll([t]) == Encode(t)
    ensures EncodeAll([]) == []
  {
    hide Encode;
    assert [t][1..] == [];
  }

  // ----- Trees under construction -----

  /** A list of finished attributes, at top level or inside a nest that is still open. */
  datatype Building = Top(done: seq<Attr>) | Inside(outer: Building, kind: nat, done: seq<Attr>)

  function Add(b: Building, t: Attr): Building {
    b.(done := b.done + [t])
  }

  /** The bytes of a tree under construction: an open nest's length still says it is empty. */
  function Layout(b: Building): (r: seq<Byte>)
    ensures |r| % 4 == 0
  {
    match b
    case Top(done) => EncodeAll(done)
    case Inside(outer, kind, done) =>
      AlignedSum(|Layout(outer)|, RTA_HEADER);
      AlignedSum(|Layout(outer)| + RTA_HEADER, |EncodeAll(done)|);
      Layout(outer) + Header(RTA_HEADER, Flagged(kind)) + EncodeAll(done)
  }

  /** The offsets at which the open nests start, innermost first. */
  function Starts(base: nat, b: Building): seq<nat> {
    match b
    case Top(_) => []
    case Inside(outer, _, _) => [base + |Layout(outer)|] + Starts(base, outer)
  }

  // ----- The three steps on bytes -----

  function Pad(s: seq<Byte>): (r: seq<Byte>)
    ensures |r| == Align(|s|)
  {
    s + Zeros(Align(|s|) - |s|)
  }

  function PutBytes(s: seq<Byte>, kind: nat, data: seq<Byte>): seq<Byte> {
    Pad(s) + Encode(Leaf(kind, data))
  }

  function StartBytes(s: seq<Byte>, kind: nat): seq<Byte> {
    Pad(s) + Header(RTA_HEADER, Flagged(kind))
  }

  /** Closing patches the two length bytes at the nest's start, and nothing else. */
  function EndBytes(s: seq<Byte>, start: nat): (r: seq<Byte>)
    requires Align(start) + RTA_HEADER <= |s|
    ensures |r| == |s|
    ensures forall i :: 0 <= i < |s| && !(Align(start) <= i < Align(start) + 2) ==> r[i] == s[i]
  {
    s[..Align(start)] + Short(|s| - Align(start)) + s[Align(start) + 2..]
  }

  lemma PutBuilds(base: seq<Byte>, b: Building, kind: nat, data: seq<Byte>)
    requires |base| % 4 == 0
    ensures PutBytes(base + Layout(b), kind, data) == base + Layout(Add(b, Leaf(kind, data)))
  {
    hide Encode;
    var s := base + Layout(b);
    var t := Leaf(kind, data);
    AlignedSum(|base|, |Layout(b)|);
    AlignFixed(|s|);
    assert Pad(s) == s;
    LayoutAdd(b, t);
    Assoc(base, Layout(b), Encode(t));
  }

  lemma LayoutAdd(b: Building, t: Attr)
    ensures Layout(Add(b, t)) == Layout(b) + Encode(t)
  {
    hide Encode;
    EncodeAllConcat(b.done, [t]);
    EncodeAllOne(t);
    match b
    case Top(_) =>
    case Inside(outer, kind, done) =>
      Assoc(Layout(outer) + Header(RTA_HEADER, Flagged(kind)), EncodeAll(done), Encode(t));
  }

  lemma StartBuilds(base: seq<Byte>, b: Building, kind: nat)
    requires |base| % 4 == 0
    ensures StartBytes(base + Layout(b), kind) == base + Layout(Inside(b, kind, []))
  {
    hide Align;
    var s := base + Layout(b);
    AlignedSum(|base|, |Layout(b)|);
    AlignFixed(|s|);
    assert Pad(s) == s;
    assert EncodeAll([]) == [];
  }

  lemma PatchLength(head: seq<Byte>, len: nat, rest: seq<Byte>)
    requires |head| % 4 == 0 && |rest| >= 2
    ensures Align(|head|) == |head|
    ensures EndBytes(head + (Short(len) + rest), |head|) == head + (Short(2 + |rest|) + rest)
  {
    hide Short, Align;
    AlignFixed(|head|);
    var s := head + (Short(len) + rest);
    assert s[..|head|] == head;
    assert s[|head| + 2..] == rest;
    Assoc(head, Short(2 + |rest|), rest);
  }

  lemma OpenNestInParts(base: seq<Byte>, outer: Building, kind: nat, done: seq<Attr>)
    ensures base + Layout(Inside(outer, kind, done))
         == base + Layout(outer) + (Short(RTA_HEADER) + (Short(Flagged(kind)) + EncodeAll(done)))
  {
    hide EncodeAll, Short;
    var h, k, body := Short(RTA_HEADER), Short(Flagged(kind)), EncodeAll(done);
    assert Layout(outer) + (h + k) + body == Layout(outer) + (h + (k + body));
    Assoc(base, Layout(outer), h + (k + body));
  }

  lemma NestInParts(kind: nat, done: seq<Attr>)
    ensures Encode(Nest(kind, done))
         == Short(RTA_HEADER + |EncodeAll(done)|) + (Short(Flagged(kind)) + EncodeAll(done))
  {
    hide EncodeAll, Short;
    Assoc(Short(RTA_HEADER + |EncodeAll(done)|), Short(Flagged(kind)), EncodeAll(done));
  }

  lemma EndBuilds(base: seq<Byte>, b: Building)
    requires |base| % 4 == 0 && b.Inside?
    ensures var start := |base| + |Layout(b.outer)|;
            && Align(start) + RTA_HEADER <= |base + Layout(b)|
            && EndBytes(base + Layout(b), start) == base + Layout(Add(b.outer, Nest(b.kind, b.done)))
  {
    hide EncodeAll, Encode, Layout, Short, EndBytes, Align;
    var outer := Layout(b.outer);
    var rest := Short(Flagged(b.kind)) + EncodeAll(b.done);
    AlignedSum(|base|, |outer|);
    OpenNestInParts(base, b.outer, b.kind, b.done);
    PatchLength(base + outer, RTA_HEADER, rest);
    NestInParts(b.kind, b.done);
    LayoutAdd(b.outer, Nest(b.kind, b.done));
    Assoc(base, outer, Encode(Nest(b.kind, b.done)));
  }

  // ----- Any sequence of steps -----

  datatype Cmd = Put(kind: nat, data: seq<Byte>) | NestStart(kind: nat) | NestEnd

  /** What the steps mean for the tree: `NestEnd` closes the innermost open nest. */
  function Perform(b: Building, cmd: Cmd): Building
    requires cmd.NestEnd? ==> b.Inside?
  {
    match cmd
    case Put(kind, data) => Add(b, Leaf(kind, data))
    case NestStart(kind) => Inside(b, kind, [])
    case NestEnd => Add(b.outer, Nest(b.kind, b.done))
  }

  predicate Bracketed(b: Building, cmds: seq<Cmd>)
    decreases |cmds|
  {
    cmds == [] || ((cmds[0].NestEnd? ==> b.Inside?) && Bracketed(Perform(b, cmds[0]), cmds[1..]))
  }

  function PerformAll(b: Building, cmds: seq<Cmd>): Building
    requires Bracketed(b, cmds)
    decreases |cmds|
  {
    if cmds == [] then b else PerformAll(Perform(b, cmds[0]), cmds[1..])
  }

  /** What the steps do to the bytes; the caller keeps the start offsets and hands each one back. */
  function Execute(s: seq<Byte>, starts: seq<nat>, cmds: seq<Cmd>): seq<Byte>
    decreases |cmds|
  {
    if cmds == [] then s
    else match cmds[0]
      case Put(kind, data) => Execute(PutBytes(s, kind, data), starts, cmds[1..])
      case NestStart(kind) => Execute(StartBytes(s, kind), [|s|] + starts, cmds[1..])
      case NestEnd =>
        if starts == [] || Align(starts[0]) + RTA_HEADER > |s| then s
        else Execute(EndBytes(s, starts[0]), starts[1..], cmds[1..])
  }

  /** After every bracketed sequence of steps, finished or not, the bytes are the layout of the tree
      built so far: every closed nest's length covers its children, at every depth. */
  lemma {:induction false} ExecuteBuilds(base: seq<Byte>, b: Building, cmds: seq<Cmd>)
    requires |base| % 4 == 0 && Bracketed(b, cmds)
    ensures Execute(base + Layout(b), Starts(|base|, b), cmds) == base + Layout(PerformAll(b, cmds))
    decreases |cmds|
  {
    hide Layout, PutBytes, StartBytes, EndBytes, Encode, Align;
    if cmds != [] {
      var next := Perform(b, cmds[0]);
      match cmds[0] {
        case Put(kind, data) =>
          PutBuilds(base, b, kind, data);
          StartsAdd(|base|, b, Leaf(kind, data));
        case NestStart(kind) =>
          StartBuilds(base, b, kind);
        case NestEnd =>
          EndBuilds(base, b);
          StartsAdd(|base|, b.outer, Nest(b.kind, b.done));
          assert Starts(|base|, b)[1..] == Starts(|base|, b.outer);
      }
      ExecuteBuilds(base, next, cmds[1..]);
    }
  }

  lemma StartsAdd(base: nat, b: Building, t: Attr)
    ensures Starts(base, Add(b, t)) == Starts(base, b)
  {
  }

  // ----- Lengths that fit their fields -----

  /** Every length in the tree fits its 16-bit field. */
  predicate Sized(t: Attr)
    decreases t
  {
    match t
    case Leaf(_, payload) => RTA_HEADER + |payload| < 0x1_0000
    case Nest(_, children) => RTA_HEADER + |EncodeAll(children)| < 0x1_0000 && forall c :: c in children ==> Sized(c)
  }

  predicate AllSized(ts: seq<Attr>) {
    forall t :: t in ts ==> Sized(t)
  }

  /** The finished attributes of a tree under construction, at every depth, have lengths that fit. */
  predicate SoundSoFar(b: Building) {
    AllSized(b.done) && (b.Inside? ==> SoundSoFar(b.outer))
  }

  lemma LayoutGrows(b: Building, cmd: Cmd)
    requires cmd.NestEnd? ==> b.Inside?
    ensures |Layout(b)| <= |Layout(Perform(b, cmd))|
  {
    hide Encode, EncodeAll, Flagged;
    match cmd
    case Put(kind, data) => LayoutAdd(b, Leaf(kind, data));
    case NestStart(kind) =>
    case NestEnd =>
      LayoutAdd(b.outer, Nest(b.kind, b.done));
      NestInParts(b.kind, b.done);
  }

  lemma SoundBefore(b: Building, cmd: Cmd)
    requires cmd.NestEnd? ==> b.Inside?
    requires SoundSoFar(Perform(b, cmd))
    ensures SoundSoFar(b)
    ensures cmd.Put? ==> Sized(Leaf(cmd.kind, cmd.data))
    ensures cmd.NestEnd? ==> Sized(Nest(b.kind, b.done))
  {
    hide Sized;
    match cmd
    case Put(kind, data) =>
      assert forall t :: t in b.done ==> t in Perform(b, cmd).done;
      assert Leaf(kind, data) in Perform(b, cmd).done;
    case NestStart(kind) =>
    case NestEnd =>
      assert forall t :: t in b.outer.done ==> t in Perform(b, cmd).done;
      assert Nest(b.kind, b.done) in Perform(b, cmd).done;
      SizedNest(b.kind, b.done);
  }

  lemma SizedNest(kind: nat, children: seq<Attr>)
    requires Sized(Nest(kind, children))
    ensures AllSized(children) && RTA_HEADER + |EncodeAll(children)| < 0x1_0000
  {
  }

  /** A tree whose final form fits its buffer and its fields fits them at every step on the way. */
  lemma {:induction false} FitsOnTheWay(b: Building, cmds: seq<Cmd>)
    requires Bracketed(b, cmds) && SoundSoFar(PerformAll(b, cmds))
    ensures SoundSoFar(b) && |Layout(b)| <= |Layout(PerformAll(b, cmds))|
    decreases |cmds|
  {
    hide Layout, SoundSoFar, Perform;
    if cmds != [] {
      FitsOnTheWay(Perform(b, cmds[0]), cmds[1..]);
      LayoutGrows(b, cmds[0]);
      SoundBefore(b, cmds[0]);
    }
  }
}
