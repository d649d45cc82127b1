// Packet framing (share/inc/Packet.h, MemberSession.cpp, GateSession.cpp, netcore Sessionx.cpp and
// CellSessionx.cpp): how packets become bytes, and how a byte stream becomes packets again.
module Framing {

  type Byte = b: int | 0 <= b < 256
  type U16 = n: int | 0 <= n < 0x1_0000
  type U64 = n: int | 0 <= n < 0x1_0000_0000_0000_0000
  type Body = s: seq<Byte> | |s| < 0x1_0000

  datatype Packet = Packet(opcode: U16, guid: U64, body: Body)

  // The three wire formats: the head without or with a guid, and the largest body that a reader accepts.
  // MemberSession and GateSession write a guid of 0 or none at all; Sessionx sends the packet's own head.
  datatype Format = Member | Gate | Cell {
    function HeadSize(): nat { if Member? then 4 else 12 }

    function Limit(): nat {
      match this
      case Member => 1024 * 4
      case Gate => 10240 * 4
      case Cell => 0xffff
    }
  }

  // ---------- Numbers as bytes ----------

  // The k lowest bytes of a number, lowest first.
  function Bytes(n: nat, k: nat): (s: seq<Byte>)
    ensures |s| == k
  {
    if k == 0 then [] else [n % 256] + Bytes(n / 256, k - 1)
  }

  function Number(s: seq<Byte>): nat {
    if s == [] then 0 else s[0] + 256 * Number(s[1..])
  }

  function Power(k: nat): nat { if k == 0 then 1 else 256 * Power(k - 1) }

  lemma {:induction false} NumberOfBytes(n: nat, k: nat)
    requires n < Power(k)
    ensures Number(Bytes(n, k)) == n
  {
    if k != 0 {
      NumberOfBytes(n / 256, k - 1);
      assert Bytes(n, k)[1..] == Bytes(n / 256, k - 1);
    }
  }

  lemma {:induction false} NumberBound(s: seq<Byte>)
    ensures Number(s) < Power(|s|)
  {
    if s != [] {
      NumberBound(s[1..]);
    }
  }

  lemma Powers()
    ensures Power(2) == 0x1_0000 && Power(8) == 0x1_0000_0000_0000_0000
  {
    assert Power(3) == 0x100_0000 && Power(4) == 0x1_0000_0000 && Power(6) == 0x1_0000_0000_0000;
  }

  // ---------- Encoding ----------

  // The packed struct that precedes the body.
  function Head(f: Format, opcode: U16, size: U16, guid: U64): (s: seq<Byte>)
    ensures |s| == f.HeadSize()
  {
    Bytes(opcode, 2) + Bytes(size, 2) + if f.Member? then [] else Bytes(guid, 8)
  }

  // What a reader gets of a packet: Member and Gate lose the guid.
  function Delivered(f: Format, p: Packet): Packet {
    if f.Cell? then p else p.(guid := 0)
  }

  function Encode(f: Format, p: Packet): seq<Byte> {
    Head(f, p.opcode, |p.body|, Delivered(f, p).guid) + p.body
  }

  function EncodeAll(f: Format, ps: seq<Packet>): seq<Byte> {
    if ps == [] then [] else Encode(f, ps[0]) + EncodeAll(f, ps[1..])
  }

  function DeliveredAll(f: Format, ps: seq<Packet>): seq<Packet> {
    if ps == [] then [] else [Delivered(f, ps[0])] + DeliveredAll(f, ps[1..])
  }

  // ---------- Decoding ----------

  function OpcodeOf(s: seq<Byte>): U16
    requires |s| >= 2
  {
    NumberBound(s[..2]);
    Powers();
    Number(s[..2])
  }

  function SizeOf(s: seq<Byte>): U16
    requires |s| >= 4
  {
    NumberBound(s[2..4]);
    Powers();
    Number(s[2..4])
  }

  function GuidOf(f: Format, s: seq<Byte>): U64
    requires |s| >= f.HeadSize()
  {
    if f.Member? then 0
    else
      NumberBound(s[4..12]);
      Powers();
      Number(s[4..12])
  }

  // What a reader has made of a stream: the packets, the bytes it has not used, and whether it gave up
  // on an oversized head.
  datatype Parsed = Parsed(packets: seq<Packet>, rest: seq<Byte>, bad: bool)

  function Parse(f: Format, s: seq<Byte>): Parsed {
    if |s| < f.HeadSize() then Parsed([], s, false)
    else if SizeOf(s) > f.Limit() then Parsed([], s, true)
    else if |s| < f.HeadSize() + SizeOf(s) then Parsed([], s, false)
    else
      var n := f.HeadSize() + SizeOf(s);
      var p := Packet(OpcodeOf(s), GuidOf(f, s), s[f.HeadSize()..n]);
      var r := Parse(f, s[n..]);
      Parsed([p] + r.packets, r.rest, r.bad)
  }

  // ---------- The laws ----------

  // More bytes do not change what a head says.
  lemma HeadOfPrefix(f: Format, s: seq<Byte>, more: seq<Byte>)
    requires |s| >= f.HeadSize()
    ensures SizeOf(s + more) == SizeOf(s) && OpcodeOf(s + more) == OpcodeOf(s) && GuidOf(f, s + more) == GuidOf(f, s)
  {
    assert (s + more)[..2] == s[..2] && (s + more)[2..4] == s[2..4];
    if !f.Member? {
      assert (s + more)[4..12] == s[4..12];
    }
  }

  // A stream starts with a whole packet that the reader accepts, and goes on with the given rest.
  ghost predicate StartsWith(f: Format, s: seq<Byte>, p: Packet, rest: seq<Byte>) {
    && |s| == f.HeadSize() + |p.body| + |rest|
    && OpcodeOf(s) == p.opcode && SizeOf(s) == |p.body| <= f.Limit() && GuidOf(f, s) == p.guid
    && s[f.HeadSize()..f.HeadSize() + |p.body|] == p.body
    && s[f.HeadSize() + |p.body|..] == rest
  }

  function Before(p: Packet, r: Parsed): Parsed {
    Parsed([p] + r.packets, r.rest, r.bad)
  }

  lemma ParseOne(f: Format, s: seq<Byte>, p: Packet, rest: seq<Byte>)
    requires StartsWith(f, s, p, rest)
    ensures Parse(f, s) == Before(p, Parse(f, rest))
  {
  }

  // Continuing from a result with more bytes.
  function Continue(f: Format, r: Parsed, more: seq<Byte>): Parsed {
    if r.bad then Parsed(r.packets, r.rest + more, true)
    else
      var q := Parse(f, r.rest + more);
      Parsed(r.packets + q.packets, q.rest, q.bad)
  }

  lemma ContinueBefore(f: Format, p: Packet, r: Parsed, more: seq<Byte>)
    ensures Continue(f, Before(p, r), more) == Before(p, Continue(f, r, more))
  {
    var q := Parse(f, r.rest + more);
    assert [p] + (r.packets + q.packets) == [p] + r.packets + q.packets;
  }

  lemma StartsWithMore(f: Format, s: seq<Byte>, p: Packet, rest: seq<Byte>, more: seq<Byte>)
    requires StartsWith(f, s, p, rest)
    ensures StartsWith(f, s + more, p, rest + more)
  {
    HeadOfPrefix(f, s, more);
    assert (s + more)[f.HeadSize() + |p.body|..] == rest + more;
    assert (s + more)[f.HeadSize()..f.HeadSize() + |p.body|] == p.body;
  }

  // A stream parsed up to some point can be taken up from what was left over.
  lemma {:induction false} ParseInPieces(f: Format, a: seq<Byte>, b: seq<Byte>)
    ensures Parse(f, a + b) == Continue(f, Parse(f, a), b)
    decreases |a|
  {
    if |a| >= f.HeadSize() && SizeOf(a) > f.Limit() {
      HeadOfPrefix(f, a, b);
    } else if |a| >= f.HeadSize() && |a| >= f.HeadSize() + SizeOf(a) {
      var n := f.HeadSize() + SizeOf(a);
      var p := Packet(OpcodeOf(a), GuidOf(f, a), a[f.HeadSize()..n]);
      ParseOne(f, a, p, a[n..]);
      StartsWithMore(f, a, p, a[n..], b);
      ParseOne(f, a + b, p, a[n..] + b);
      ParseInPieces(f, a[n..], b);
      ContinueBefore(f, p, Parse(f, a[n..]), b);
    } else {
      var q := Parse(f, a + b);
      assert [] + q.packets == q.packets;
    }
  }

  // The bytes left over are less than a head and a body, so a buffer larger than that has room for more.
  lemma {:induction false} RestIsShort(f: Format, s: seq<Byte>)
    ensures !Parse(f, s).bad ==> |Parse(f, s).rest| < f.HeadSize() + f.Limit()
    ensures |Parse(f, s).rest| <= |s|
    decreases |s|
  {
    if |s| >= f.HeadSize() && SizeOf(s) <= f.Limit() && |s| >= f.HeadSize() + SizeOf(s) {
      RestIsShort(f, s[f.HeadSize() + SizeOf(s)..]);
    }
  }

  lemma HeadRoundTrip(f: Format, p: Packet, tail: seq<Byte>)
    requires |p.body| <= f.Limit()
    ensures StartsWith(f, Encode(f, p) + tail, Delivered(f, p), tail)
  {
    var s, guid := Encode(f, p) + tail, Delivered(f, p).guid;
    Powers();
    NumberOfBytes(p.opcode, 2);
    NumberOfBytes(|p.body|, 2);
    NumberOfBytes(guid, 8);
    assert s[..2] == Bytes(p.opcode, 2);
    assert s[2..4] == Bytes(|p.body|, 2);
    if !f.Member? {
      assert s[4..12] == Bytes(guid, 8);
    }
  }

  // The layout on the wire: opcode and size in two bytes each, lowest first, in the longer heads the guid in
  // eight, and the body. Only the cell's packets keep their guid.
  lemma Layout(f: Format, p: Packet)
    ensures var e, n := Encode(f, p), if f.Member? then 4 else 12;
            && |e| == n + |p.body| && e[n..] == p.body
            && (e[0] as int) + 0x100 * (e[1] as int) == p.opcode
            && (e[2] as int) + 0x100 * (e[3] as int) == |p.body|
            && (!f.Member? ==> Number(e[4..12]) == if f.Cell? then p.guid else 0)
  {
    TwoBytes(p.opcode);
    TwoBytes(|p.body|);
    var e := Encode(f, p);
    assert e[0] == Bytes(p.opcode, 2)[0] && e[1] == Bytes(p.opcode, 2)[1];
    assert e[2] == Bytes(|p.body|, 2)[0] && e[3] == Bytes(|p.body|, 2)[1];
    if !f.Member? {
      var guid := if f.Cell? then p.guid else 0;
      Powers();
      NumberOfBytes(guid, 8);
      assert e[4..12] == Bytes(guid, 8);
    }
  }

  lemma TwoBytes(n: U16)
    ensures (Bytes(n, 2)[0] as int) + 0x100 * (Bytes(n, 2)[1] as int) == n
  {
    assert Bytes(n, 2)[1] == Bytes(n / 256, 1)[0];
  }

  // A member's reader accepts bodies of up to 4096 bytes, a gate's of up to 40960, and a cell's all; from a
  // longer one on it has given up.
  lemma AcceptedExact(f: Format, p: Packet, more: seq<Byte>)
    ensures var s := Encode(f, p) + more;
            if |p.body| <= (if f.Member? then 4096 else if f.Gate? then 40960 else 0xffff) then
              var rest := Parse(f, more);
              Parse(f, s) == Parsed([Packet(p.opcode, if f.Cell? then p.guid else 0, p.body)] + rest.packets,
                                    rest.rest, rest.bad)
            else Parse(f, s) == Parsed([], s, true)
  {
    var s := Encode(f, p) + more;
    if |p.body| <= f.Limit() {
      HeadRoundTrip(f, p, more);
      ParseOne(f, s, Delivered(f, p), more);
    } else {
      Powers();
      NumberOfBytes(|p.body|, 2);
      assert s[2..4] == Bytes(|p.body|, 2);
    }
  }

  function After(ps: seq<Packet>, r: Parsed): Parsed {
    Parsed(ps + r.packets, r.rest, r.bad)
  }

  lemma RoundTripOne(f: Format, p: Packet, s: seq<Byte>, ps: seq<Packet>, r: Parsed)
    requires |p.body| <= f.Limit() && Parse(f, s) == After(ps, r)
    ensures Parse(f, Encode(f, p) + s) == After([Delivered(f, p)] + ps, r)
  {
    HeadRoundTrip(f, p, s);
    ParseOne(f, Encode(f, p) + s, Delivered(f, p), s);
    assert [Delivered(f, p)] + (ps + r.packets) == [Delivered(f, p)] + ps + r.packets;
  }

  lemma Regroup<T>(a: seq<T>, b: seq<T>, c: seq<T>)
    ensures a + (b + c) == a + b + c
  {
  }

  // Encoding and parsing are inverse to each other, whatever comes behind.
  lemma {:induction false} RoundTrip(f: Format, ps: seq<Packet>, tail: seq<Byte>)
    requires forall i :: 0 <= i < |ps| ==> |ps[i].body| <= f.Limit()
    ensures Parse(f, EncodeAll(f, ps) + tail) == After(DeliveredAll(f, ps), Parse(f, tail))
  {
    if ps == [] {
      assert EncodeAll(f, ps) + tail == tail;
      assert [] + Parse(f, tail).packets == Parse(f, tail).packets;
    } else {
      RoundTrip(f, ps[1..], tail);
      RoundTripOne(f, ps[0], EncodeAll(f, ps[1..]) + tail, DeliveredAll(f, ps[1..]), Parse(f, tail));
      Regroup(Encode(f, ps[0]), EncodeAll(f, ps[1..]), tail);
    }
  }

  // ---------- Fragmentation ----------

  function Concat(chunks: seq<seq<Byte>>): seq<Byte> {
    if chunks == [] then [] else Concat(chunks[..|chunks| - 1]) + chunks[|chunks| - 1]
  }

  // A reader fed chunk by chunk: each time it parses what was left and the new chunk; after an oversized
  // head it reads no more.
  function Feed(f: Format, chunks: seq<seq<Byte>>): Parsed {
    if chunks == [] then Parsed([], [], false)
    else
      var before := Feed(f, chunks[..|chunks| - 1]);
      if before.bad then before
      else
        var r := Parse(f, before.rest + chunks[|chunks| - 1]);
        Parsed(before.packets + r.packets, r.rest, r.bad)
  }

  // However a stream is cut, the same packets are delivered, and the reader gives up or not alike.
  lemma {:induction false} FragmentationIrrelevant(f: Format, chunks: seq<seq<Byte>>)
    ensures var r := Parse(f, Concat(chunks));
            && Feed(f, chunks).packets == r.packets
            && Feed(f, chunks).bad == r.bad
            && (!r.bad ==> Feed(f, chunks).rest == r.rest)
  {
    if chunks != [] {
      FragmentationIrrelevant(f, chunks[..|chunks| - 1]);
      ParseInPieces(f, Concat(chunks[..|chunks| - 1]), chunks[|chunks| - 1]);
    }
  }

  // What is written arrives: packets with bodies that the reader accepts come out of any fragmentation
  // unchanged and in order, with nothing left over.
  lemma WrittenPacketsArrive(f: Format, ps: seq<Packet>, chunks: seq<seq<Byte>>)
    requires forall i :: 0 <= i < |ps| ==> |ps[i].body| <= f.Limit()
    requires Concat(chunks) == EncodeAll(f, ps)
    ensures Feed(f, chunks) == Parsed(DeliveredAll(f, ps), [], false)
  {
    FragmentationIrrelevant(f, chunks);
    RoundTrip(f, ps, []);
    assert EncodeAll(f, ps) + [] == EncodeAll(f, ps);
    assert DeliveredAll(f, ps) + [] == DeliveredAll(f, ps);
  }

  // While some of the bytes are still under way, the packets delivered so far are the first ones.
  lemma SomeBytesArrived(f: Format, ps: seq<Packet>, chunks: seq<seq<Byte>>)
    requires forall i :: 0 <= i < |ps| ==> |ps[i].body| <= f.Limit()
    requires Concat(chunks) <= EncodeAll(f, ps)
    ensures !Feed(f, chunks).bad && Feed(f, chunks).packets <= DeliveredAll(f, ps)
  {
    var some, all := Concat(chunks), EncodeAll(f, ps);
    FragmentationIrrelevant(f, chunks);
    ParseInPieces(f, some, all[|some|..]);
    assert some + all[|some|..] == all == all + [];
    RoundTrip(f, ps, []);
    assert DeliveredAll(f, ps) + [] == DeliveredAll(f, ps);
  }
}
