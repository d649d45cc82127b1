// The reading and the writing half of a session: MemberSession.cpp:77-162 and 215-279 with
// GateSession.cpp, and netcore Sessionx.cpp with CellSessionx.cpp. The two halves share no state.
module PacketSessions {
  import opened Framing
  import opened MessageBlocks

  // What recv returns: bytes, an orderly close, nothing for now, or an error.
  datatype Received = Data(bytes: seq<Byte>) | Closed | NothingYet | Failed

  datatype Outcome = More | Wait | Oversized

  lemma AfterBefore(ps: seq<Packet>, p: Packet, r: Parsed)
    ensures After(ps, Before(p, r)) == After(ps + [p], r)
  {
    assert ps + ([p] + r.packets) == ps + [p] + r.packets;
  }

  class Reader {
    const f: Format
    const block: MessageBlock
    // The packets handed to the input handler.
    var delivered: seq<Packet>
    // Every byte that recv returned.
    ghost var received: seq<Byte>

    // The unused bytes continue the packets delivered so far.
    ghost predicate Holds()
      reads this, block, block.data
    {
      block.Valid() && Parse(f, received) == After(delivered, Parse(f, block.Contents()))
    }

    // Between calls, unless an oversized head was met: the packets are those of the stream so far, the
    // block holds what is left of it, and there is room for more.
    ghost predicate Valid()
      reads this, block, block.data
    {
      var r := Parse(f, received);
      && block.Valid() && block.data.Length > f.HeadSize() + f.Limit()
      && !r.bad && delivered == r.packets && block.Contents() == r.rest
      && |block.Contents()| < f.HeadSize() + f.Limit()
    }

    constructor (f: Format, size: nat)
      requires size > f.HeadSize() + f.Limit()
      ensures Valid() && received == [] && delivered == [] && fresh(block) && fresh(block.data) && this.f == f
      ensures block.rd == 0
    {
      this.f := f;
      block := new MessageBlock(size);
      delivered := [];
      received := [];
    }

    method PeekHead() returns (head: seq<Byte>)
      requires block.Valid() && |block.Contents()| >= f.HeadSize()
      ensures var s := block.Contents();
              && head == s[..f.HeadSize()]
              && SizeOf(head) == SizeOf(s) && OpcodeOf(head) == OpcodeOf(s) && GuidOf(f, head) == GuidOf(f, s)
    {
      head := block.Peek(f.HeadSize());
      ghost var s := block.Contents();
      assert s == head + s[f.HeadSize()..];
      HeadOfPrefix(f, head, s[f.HeadSize()..]);
    }

    // A whole packet leaves the block.
    method TakePacket(head: seq<Byte>, size: U16) returns (p: Packet)
      requires block.Valid() && |block.Contents()| >= f.HeadSize() + size && |head| == f.HeadSize()
      requires var s := block.Contents();
               && SizeOf(head) == size == SizeOf(s) <= f.Limit()
               && OpcodeOf(head) == OpcodeOf(s) && GuidOf(f, head) == GuidOf(f, s)
      modifies block`rd
      ensures block.Valid() && StartsWith(f, old(block.Contents()), p, block.Contents())
    {
      block.Skip(f.HeadSize());
      var body := block.Peek(size);
      block.Skip(size);
      p := Packet(OpcodeOf(head), GuidOf(f, head), body);
    }

    // One round of the loop of parseInputPacket: a packet, or too few bytes, or an oversized head.
    method NextPacket() returns (outcome: Outcome)
      requires Holds()
      modifies this`delivered, block`rd
      ensures block.Valid() && block.wr == old(block.wr)
      ensures outcome == More ==> Holds() && block.rd > old(block.rd)
      ensures outcome != More ==> block.rd == old(block.rd) && delivered == old(delivered)
      ensures outcome != More ==> Parse(f, block.Contents()) == Parsed([], block.Contents(), outcome == Oversized)
    {
      if block.Length() < f.HeadSize() {
        return Wait;
      }
      ghost var s := block.Contents();
      var head := PeekHead();
      var size := SizeOf(head);
      if size > f.Limit() {
        return Oversized;
      }
      if block.Length() < f.HeadSize() + size {
        return Wait;
      }
      var p := TakePacket(head, size);
      ParseOne(f, s, p, block.Contents());
      AfterBefore(delivered, p, Parse(f, block.Contents()));
      delivered := delivered + [p];
      return More;
    }

    // parseInputPacket up to the final crunch.
    method ParseInputPacket() returns (result: int)
      requires Holds()
      modifies this`delivered, block`rd
      ensures block.Valid() && block.wr == old(block.wr)
      ensures delivered == Parse(f, received).packets && block.Contents() == Parse(f, received).rest
      ensures result == if Parse(f, received).bad then 2 else 0
    {
      while true
        invariant Holds() && block.wr == old(block.wr)
        decreases block.wr - block.rd
      {
        var outcome := NextPacket();
        if outcome != More {
          assert delivered + [] == delivered;
          return if outcome == Oversized then 2 else 0;
        }
      }
    }

    // More bytes continue the stream.
    method Receive(bytes: seq<Byte>)
      requires Valid() && |bytes| <= block.Space()
      modifies this`received, block`wr, block.data
      ensures Holds() && received == old(received) + bytes
    {
      ghost var r := Parse(f, received);
      ParseInPieces(f, received, bytes);
      var _ := block.Copy(bytes);
      received := received + bytes;
    }

    // MemberSession and GateSession: receive, parse, crunch. The block is crunched between calls, so recv
    // is never given an empty space, whose result 0 would read as a close.
    method ProcessRead(recv: Received) returns (result: int)
      requires Valid() && block.rd == 0
      requires recv.Data? ==> 0 < |recv.bytes| <= block.Space()
      modifies this`delivered, this`received, block, block.data
      ensures received == old(received) + if recv.Data? then recv.bytes else []
      ensures delivered == Parse(f, received).packets
      ensures result == match recv
                        case Data(_) => if Parse(f, received).bad then 2 else 0
                        case NothingYet => 1
                        case _ => 2
      ensures !Parse(f, received).bad ==> Valid() && block.rd == 0 && block.Space() > 0
    {
      match recv
      case Data(bytes) =>
        Receive(bytes);
        result := ParseInputPacket();
        if result == 2 {
          return;
        }
        RestIsShort(f, received);
        block.Crunch();
      case NothingYet => result := 1;
      case _ => result := 2;
    }

    // Sessionx: crunch, receive, parse.
    method ReadStream(recv: Received) returns (result: int)
      requires f.Cell? && Valid()
      requires recv.Data? ==> 0 < |recv.bytes| <= block.data.Length - |block.Contents()|
      modifies this`delivered, this`received, block, block.data
      ensures Valid() && received == old(received) + if recv.Data? then recv.bytes else []
      ensures delivered == Parse(f, received).packets
      ensures result == if recv.Closed? || recv.Failed? then -1 else 0
    {
      block.Crunch();
      match recv
      case Data(bytes) =>
        Receive(bytes);
        var _ := ParseInputPacket();
        RestIsShort(f, received);
        NeverOversized(received);
        result := 0;
      case NothingYet => result := 0;
      case _ => result := -1;
    }
  }

  // A 16-bit size never exceeds the largest one.
  lemma {:induction false} NeverOversized(s: seq<Byte>)
    ensures !Parse(Cell, s).bad
    decreases |s|
  {
    if |s| >= 12 && |s| >= 12 + SizeOf(s) {
      NeverOversized(s[12 + SizeOf(s)..]);
    }
  }

  // ---------- Writing ----------

  // Packet::stream_size, in the 16 bits of its return type.
  function StreamSize(p: Packet): U16 {
    (12 + |p.body|) % 0x1_0000
  }

  lemma StreamSizeExact(p: Packet)
    ensures StreamSize(p) == 12 + |p.body| <==> |p.body| <= 65523
  {
  }

  ghost predicate NoneWraps(ps: seq<Packet>) {
    forall i :: 0 <= i < |ps| ==> |ps[i].body| <= 65523
  }

  // What the two copies of processWrite put into a block with some space: each copy is all or nothing,
  // and its result is not looked at.
  function Put(f: Format, space: int, p: Packet): seq<Byte> {
    var head := Head(f, p.opcode, |p.body|, 0);
    var first := if |head| <= space then head else [];
    first + if |p.body| <= space - |first| then p.body else []
  }

  // A packet that passes the test on its stream size is put whole if and only if its size does not wrap
  // or there is room for it all the same.
  lemma PutWholeExact(f: Format, space: int, p: Packet)
    requires !f.Cell? && StreamSize(p) <= space
    ensures Put(f, space, p) == Encode(f, p) <==> |p.body| <= 65523 || f.HeadSize() + |p.body| <= space
  {
    assert |Encode(f, p)| == f.HeadSize() + |p.body|;
    StreamSizeExact(p);
    if |p.body| > 65523 && f.HeadSize() + |p.body| > space {
      assert |Put(f, space, p)| < f.HeadSize() + |p.body|;
    }
  }

  // The loop of processWrite that fills the block: the bytes put, and the packets left.
  function Fill(f: Format, space: int, ps: seq<Packet>): (seq<Byte>, seq<Packet>) {
    if ps == [] || StreamSize(ps[0]) > space then ([], ps)
    else
      var b := Put(f, space, ps[0]);
      Prepend(b, Fill(f, space - |b|, ps[1..]))
  }

  function Prepend(b: seq<Byte>, r: (seq<Byte>, seq<Packet>)): (seq<Byte>, seq<Packet>) {
    (b + r.0, r.1)
  }

  // Nothing is lost: what is put and what is left in the queue are everything that was queued.
  lemma {:induction false} FillConserves(f: Format, space: int, ps: seq<Packet>)
    requires !f.Cell? && NoneWraps(ps)
    ensures Fill(f, space, ps).0 + EncodeAll(f, Fill(f, space, ps).1) == EncodeAll(f, ps)
    ensures NoneWraps(Fill(f, space, ps).1)
  {
    if ps != [] && StreamSize(ps[0]) <= space {
      StreamSizeExact(ps[0]);
      PutWholeExact(f, space, ps[0]);
      FillConserves(f, space - |Put(f, space, ps[0])|, ps[1..]);
    }
  }

  // An empty block of the sessions' size takes at least one packet.
  lemma FillMakesProgress(f: Format, space: int, ps: seq<Packet>)
    requires !f.Cell? && ps != [] && space >= 0x1_0000 + 12
    ensures Fill(f, space, ps).0 != []
  {
    var head := Head(f, ps[0].opcode, |ps[0].body|, 0);
    assert Put(f, space, ps[0]) == head + ps[0].body;
    assert |Put(f, space, ps[0])| >= 4;
  }

  // It stops only when the queue is empty or the next packet is too large for what is left.
  lemma {:induction false} FillStops(f: Format, space: int, ps: seq<Packet>)
    ensures var r := Fill(f, space, ps); r.1 == [] || StreamSize(r.1[0]) > space - |r.0|
  {
    if ps != [] && StreamSize(ps[0]) <= space {
      FillStops(f, space - |Put(f, space, ps[0])|, ps[1..]);
    }
  }

  lemma {:induction false} EncodeAllAppend(f: Format, ps: seq<Packet>, p: Packet)
    ensures EncodeAll(f, ps + [p]) == EncodeAll(f, ps) + Encode(f, p)
  {
    if ps == [] {
      assert ps + [p] == [p] && EncodeAll(f, []) == [];
      assert EncodeAll(f, [p]) == Encode(f, p) + EncodeAll(f, []);
    } else {
      assert (ps + [p])[1..] == ps[1..] + [p];
      EncodeAllAppend(f, ps[1..], p);
      Regroup(Encode(f, ps[0]), EncodeAll(f, ps[1..]), Encode(f, p));
    }
  }

  // One more packet of the filling: what is put so far, and the rest of the filling.
  lemma FillRound(
      f: Format, all: (seq<Byte>, seq<Packet>), contents: seq<Byte>, done: seq<Byte>, space: int, ps: seq<Packet>)
    requires !f.Cell? && ps != [] && StreamSize(ps[0]) <= space
    requires all == Prepend(done, Fill(f, space, ps))
    ensures var b := Put(f, space, ps[0]);
            && all == Prepend(done + b, Fill(f, space - |b|, ps[1..]))
            && contents + done + b == contents + (done + b)
  {
    var b := Put(f, space, ps[0]);
    Regroup(done, b, Fill(f, space - |b|, ps[1..]).0);
    Regroup(contents, done, b);
  }

  // What send returns: the number of bytes it would take, or no room for now, or an error.
  type Count = n: int | n > 0 witness 1

  datatype Sent = Accepted(n: Count) | WouldBlock | Broken

  // The bytes that the first k sends take, if each could take all it would.
  function Taken(sends: seq<Sent>, k: nat): nat
    requires k <= |sends|
  {
    if k == 0 then 0 else Taken(sends, k - 1) + if sends[k - 1].Accepted? then sends[k - 1].n else 0
  }

  // The first k sends took something each, and not all of what there was to send.
  predicate Short(sends: seq<Sent>, k: nat, total: nat) {
    k <= |sends| && (forall i :: 0 <= i < k ==> sends[i].Accepted?) && Taken(sends, k) < total
  }

  // The connection breaks, or has no more room, before everything is sent. A peer that has not answered yet
  // has no room.
  ghost predicate Breaks(sends: seq<Sent>, total: nat) {
    exists k: nat :: Short(sends, k, total) && k < |sends| && sends[k] == Broken
  }

  ghost predicate Blocks(sends: seq<Sent>, total: nat) {
    exists k: nat :: Short(sends, k, total) && (k < |sends| ==> sends[k] == WouldBlock)
  }

  // Where sending stopped short it stopped for one reason, and where it did not nothing is left.
  lemma StopsOnce(sends: seq<Sent>, k: nat, total: nat)
    requires Short(sends, k, total) && (k < |sends| ==> !sends[k].Accepted?)
    ensures Breaks(sends, total) <==> k < |sends| && sends[k] == Broken
    ensures Blocks(sends, total) <==> !Breaks(sends, total)
  {
    forall j: nat | Short(sends, j, total) && (j < |sends| ==> !sends[j].Accepted?)
      ensures j == k
    {
    }
  }

  lemma NotBoth(sends: seq<Sent>, total: nat)
    ensures !(Breaks(sends, total) && Blocks(sends, total))
  {
    if Breaks(sends, total) {
      var k: nat :| Short(sends, k, total) && k < |sends| && sends[k] == Broken;
      StopsOnce(sends, k, total);
    }
  }

  lemma {:induction false} TakenGrows(sends: seq<Sent>, j: nat, k: nat)
    requires j <= k <= |sends|
    ensures Taken(sends, j) <= Taken(sends, k)
  {
    if j < k {
      TakenGrows(sends, j, k - 1);
    }
  }

  lemma AllSent(sends: seq<Sent>, k: nat, total: nat)
    requires k <= |sends| && (forall i :: 0 <= i < k ==> sends[i].Accepted?) && Taken(sends, k) >= total
    ensures !Breaks(sends, total) && !Blocks(sends, total)
  {
    forall j: nat | Short(sends, j, total)
      ensures j < |sends| && sends[j].Accepted?
    {
      if j >= k {
        TakenGrows(sends, k, j);
      }
    }
  }

  const MSG_BLOCK_LEN := 1024000

  // The writing half of MemberSession and GateSession.
  class Writer {
    const f: Format
    const block: MessageBlock
    var queue: seq<Packet>
    // Every packet ever queued, and every byte ever taken by send.
    ghost var queued: seq<Packet>
    ghost var sent: seq<Byte>

    ghost predicate Valid()
      reads this, block, block.data
    {
      && block.Valid() && block.data.Length == MSG_BLOCK_LEN && !f.Cell?
      && (NoneWraps(queued) ==>
            NoneWraps(queue) && sent + block.Contents() + EncodeAll(f, queue) == EncodeAll(f, queued))
    }

    constructor (f: Format)
      requires !f.Cell?
      ensures Valid() && queued == [] && sent == [] && fresh(block) && fresh(block.data) && this.f == f
    {
      this.f := f;
      block := new MessageBlock(MSG_BLOCK_LEN);
      queue, queued, sent := [], [], [];
    }

    method Push(p: Packet)
      requires Valid()
      modifies this`queue, this`queued
      ensures Valid() && queued == old(queued) + [p] && queue == old(queue) + [p]
    {
      EncodeAllAppend(f, queue, p);
      EncodeAllAppend(f, queued, p);
      Regroup(sent + block.Contents(), EncodeAll(f, queue), Encode(f, p));
      assert NoneWraps(queued + [p]) ==> NoneWraps(queued) by {
        assert forall i :: 0 <= i < |queued| ==> (queued + [p])[i] == queued[i];
        assert (queued + [p])[|queued|] == p;
      }
      assert NoneWraps(queued + [p]) ==> |p.body| <= 65523 by {
        assert (queued + [p])[|queued|] == p;
      }
      queue := queue + [p];
      queued := queued + [p];
    }

    // The loop that fills the block.
    method FillBlock()
      requires block.Valid() && !f.Cell?
      modifies this`queue, block`wr, block.data
      ensures block.Valid()
      ensures var r := Fill(f, old(block.Space()), old(queue));
              block.Contents() == old(block.Contents()) + r.0 && queue == r.1
    {
      ghost var contents, all := block.Contents(), Fill(f, block.Space(), queue);
      ghost var done: seq<Byte> := [];
      assert [] + all.0 == all.0;
      while |queue| > 0
        invariant block.Valid() && block.Contents() == contents + done
        invariant all == Prepend(done, Fill(f, block.Space(), queue))
      {
        if StreamSize(queue[0]) > block.Space() {
          break;
        }
        ghost var b := Put(f, block.Space(), queue[0]);
        FillRound(f, all, contents, done, block.Space(), queue);
        PutPacket(queue[0]);
        queue := queue[1..];
        done := done + b;
      }
      assert done + [] == done;
    }

    method PutPacket(p: Packet)
      requires block.Valid()
      modifies block`wr, block.data
      ensures block.Valid()
      ensures block.Contents() == old(block.Contents()) + Put(f, old(block.Space()), p)
      ensures block.Space() == old(block.Space()) - |Put(f, old(block.Space()), p)|
    {
      var _ := block.Copy(Head(f, p.opcode, |p.body|, 0));
      var _ := block.Copy(p.body);
    }

    // The loop that sends the block, against any behaviour of the peer: 2 if the connection breaks, 1 if it
    // has no more room, and 0 if neither comes before the end.
    method SendBlock(sends: seq<Sent>) returns (result: int)
      requires block.Valid()
      modifies this`sent, block`rd
      ensures block.Valid() && old(sent) <= sent
      ensures sent + block.Contents() == old(sent) + old(block.Contents())
      ensures result == 0 <==> block.Contents() == []
      ensures result == if Breaks(sends, |old(block.Contents())|) then 2
                        else if Blocks(sends, |old(block.Contents())|) then 1 else 0
      ensures old(block.Contents()) != [] && |sends| > 0 && sends[0].Accepted? ==> |sent| > |old(sent)|
    {
      var k: nat := 0;
      ghost var total := |block.Contents()|;
      while block.Length() > 0
        invariant block.Valid() && block.wr == old(block.wr)
        invariant old(sent) <= sent && sent + block.Contents() == old(sent) + old(block.Contents())
        invariant k <= |sends| && forall i :: 0 <= i < k ==> sends[i].Accepted?
        invariant total - |block.Contents()| == if Taken(sends, k) < total then Taken(sends, k) else total
        invariant k == 0 ==> block.rd == old(block.rd) && sent == old(sent)
        invariant k > 0 ==> |sent| > |old(sent)|
        decreases block.wr - block.rd
      {
        var r := if k < |sends| then sends[k] else WouldBlock;
        if r.Accepted? {
          SendSome(r.n);
          k := k + 1;
        } else {
          StopsOnce(sends, k, total);
          return if r == Broken then 2 else 1;
        }
      }
      AllSent(sends, k, total);
      return 0;
    }

    // The peer takes n bytes, or all there are.
    method SendSome(n: Count)
      requires block.Valid() && block.Contents() != []
      modifies this`sent, block`rd
      ensures block.Valid() && old(sent) <= sent && |sent| > |old(sent)| && block.rd > old(block.rd)
      ensures sent + block.Contents() == old(sent) + old(block.Contents())
      ensures |block.Contents()| == if n < |old(block.Contents())| then |old(block.Contents())| - n else 0
    {
      var m := if n < block.Length() then n else block.Length();
      ghost var c := block.Contents();
      Regroup(sent, c[..m], c[m..]);
      assert c == c[..m] + c[m..];
      sent := sent + c[..m];
      block.Skip(m);
    }

    // The first half of processWrite: something is in the block then, unless there was nothing to send.
    method Refill()
      requires Valid()
      modifies this`queue, block, block.data
      ensures Valid()
      ensures block.Contents() == [] <==> old(block.Contents()) == [] && old(queue) == []
    {
      block.Crunch();
      ghost var space, ps, r := block.Space(), queue, Fill(f, block.Space(), queue);
      ghost var contents := block.Contents();
      FillBlock();
      if NoneWraps(queued) {
        FillConserves(f, space, ps);
        Regroup(sent + contents, r.0, EncodeAll(f, r.1));
        Regroup(sent, contents, r.0);
      }
      if ps != [] && contents == [] {
        FillMakesProgress(f, space, ps);
      }
    }

    // processWrite.
    method ProcessWrite(sends: seq<Sent>) returns (result: int)
      requires Valid()
      modifies this`queue, this`sent, block, block.data
      ensures Valid() && queued == old(queued) && old(sent) <= sent
      // Of all that was in the block: 1 if there was nothing or the peer has no more room, 2 if the connection
      // breaks, and 0 if everything is sent.
      ensures var total := |sent| - |old(sent)| + |block.Contents()|;
              && (total == 0 <==> old(block.Contents()) == [] && old(queue) == [])
              && result == (if total == 0 || Blocks(sends, total) then 1 else if Breaks(sends, total) then 2 else 0)
              && (result == 0 ==> block.Contents() == [])
      // A peer that takes anything takes some of what is unsent.
      ensures (old(block.Contents()) != [] || old(queue) != []) && |sends| > 0 && sends[0].Accepted?
              ==> |sent| > |old(sent)|
    {
      Refill();
      if block.Length() == 0 {
        return 1;
      }
      ghost var total := |block.Contents()|;
      NotBoth(sends, total);
      result := SendBlock(sends);
      assert |sent| + |block.Contents()| == |old(sent)| + total;
    }
  }

  // ---------- CellSessionx ----------

  const SOCKET_BUFFER := 102400

  // What wt_stream copies of a packet: the first stream_size bytes of head and body.
  function Wire(p: Packet): seq<Byte> {
    Encode(Cell, p)[..StreamSize(p)]
  }

  function WireAll(ps: seq<Packet>): seq<Byte> {
    if ps == [] then [] else Wire(ps[0]) + WireAll(ps[1..])
  }

  // A packet goes out whole if and only if its stream size does not wrap.
  lemma WireExact(p: Packet)
    ensures Wire(p) == Encode(Cell, p) <==> |p.body| <= 65523
  {
    assert |Encode(Cell, p)| == 12 + |p.body|;
    StreamSizeExact(p);
  }

  lemma {:induction false} WireAllExact(ps: seq<Packet>)
    requires NoneWraps(ps)
    ensures WireAll(ps) == EncodeAll(Cell, ps)
  {
    if ps != [] {
      WireExact(ps[0]);
      WireAllExact(ps[1..]);
    }
  }

  lemma {:induction false} WireAllAppend(ps: seq<Packet>, p: Packet)
    ensures WireAll(ps + [p]) == WireAll(ps) + Wire(p)
  {
    if ps == [] {
      assert ps + [p] == [p] && WireAll([]) == [];
      assert WireAll([p]) == Wire(p) + WireAll([]);
    } else {
      assert (ps + [p])[1..] == ps[1..] + [p];
      WireAllAppend(ps[1..], p);
      Regroup(Wire(ps[0]), WireAll(ps[1..]), Wire(p));
    }
  }

  // The loop of wt_stream that fills the block.
  function CellFill(space: int, ps: seq<Packet>): (seq<Byte>, seq<Packet>) {
    if ps == [] || StreamSize(ps[0]) >= space then ([], ps)
    else Prepend(Wire(ps[0]), CellFill(space - StreamSize(ps[0]), ps[1..]))
  }

  lemma {:induction false} CellFillConserves(space: int, ps: seq<Packet>)
    ensures CellFill(space, ps).0 + WireAll(CellFill(space, ps).1) == WireAll(ps)
  {
    if ps != [] && StreamSize(ps[0]) < space {
      var r := CellFill(space - StreamSize(ps[0]), ps[1..]);
      CellFillConserves(space - StreamSize(ps[0]), ps[1..]);
      Regroup(Wire(ps[0]), r.0, WireAll(r.1));
    }
  }

  lemma {:induction false} CellFillStops(space: int, ps: seq<Packet>)
    ensures var r := CellFill(space, ps); r.1 == [] || StreamSize(r.1[0]) >= space - |r.0|
  {
    if ps != [] && StreamSize(ps[0]) < space {
      WireSize(ps[0]);
      CellFillStops(space - StreamSize(ps[0]), ps[1..]);
    }
  }

  lemma WireSize(p: Packet)
    ensures |Wire(p)| == StreamSize(p)
  {
  }

  lemma CellFillRound(
      all: (seq<Byte>, seq<Packet>), contents: seq<Byte>, done: seq<Byte>, space: int, ps: seq<Packet>)
    requires ps != [] && StreamSize(ps[0]) < space
    requires all == Prepend(done, CellFill(space, ps))
    ensures var b := Wire(ps[0]);
            && all == Prepend(done + b, CellFill(space - StreamSize(ps[0]), ps[1..]))
            && contents + done + b == contents + (done + b)
  {
    var b := Wire(ps[0]);
    Regroup(done, b, CellFill(space - StreamSize(ps[0]), ps[1..]).0);
    Regroup(contents, done, b);
  }

  class CellWriter {
    const block: MessageBlock
    var queue: seq<Packet>
    ghost var queued: seq<Packet>
    ghost var sent: seq<Byte>

    // Nothing is lost, whatever the sizes; and a block with fewer than 500 bytes is crunched.
    ghost predicate Valid()
      reads this, block, block.data
    {
      && block.Valid() && block.data.Length == SOCKET_BUFFER
      && (block.Length() < 500 ==> block.rd == 0)
      && sent + block.Contents() + WireAll(queue) == WireAll(queued)
    }

    constructor ()
      ensures Valid() && queued == [] && sent == [] && fresh(block) && fresh(block.data)
    {
      block := new MessageBlock(SOCKET_BUFFER);
      queue, queued, sent := [], [], [];
    }

    method Output(p: Packet)
      requires Valid()
      modifies this`queue, this`queued
      ensures Valid() && queued == old(queued) + [p] && queue == old(queue) + [p]
    {
      WireAllAppend(queue, p);
      WireAllAppend(queued, p);
      Regroup(sent + block.Contents(), WireAll(queue), Wire(p));
      queue := queue + [p];
      queued := queued + [p];
    }

    method FillBlock()
      requires block.Valid()
      modifies this`queue, block`wr, block.data
      ensures block.Valid()
      ensures var r := CellFill(old(block.Space()), old(queue));
              block.Contents() == old(block.Contents()) + r.0 && queue == r.1
    {
      ghost var contents, all := block.Contents(), CellFill(block.Space(), queue);
      ghost var done: seq<Byte> := [];
      assert [] + all.0 == all.0;
      while |queue| > 0
        invariant block.Valid() && block.Contents() == contents + done
        invariant all == Prepend(done, CellFill(block.Space(), queue))
      {
        if StreamSize(queue[0]) >= block.Space() {
          break;
        }
        ghost var b := Wire(queue[0]);
        CellFillRound(all, contents, done, block.Space(), queue);
        PutWire(queue[0]);
        queue := queue[1..];
        done := done + b;
      }
      assert done + [] == done;
    }

    method PutWire(p: Packet)
      requires block.Valid() && StreamSize(p) < block.Space()
      modifies block`wr, block.data
      ensures block.Valid()
      ensures block.Contents() == old(block.Contents()) + Wire(p)
      ensures block.Space() == old(block.Space()) - StreamSize(p)
    {
      WireSize(p);
      var _ := block.Copy(Wire(p));
    }

    method SendOnce(send: Sent) returns (result: int)
      requires block.Valid() && block.Contents() != []
      modifies this`sent, block`rd
      ensures block.Valid() && old(sent) <= sent && sent + block.Contents() == old(sent) + old(block.Contents())
      ensures send.Accepted? ==> |sent| > |old(sent)|
      ensures !send.Accepted? ==> sent == old(sent) && block.Contents() == old(block.Contents())
      ensures result == if send == Broken then -1 else 0
    {
      if send.Accepted? {
        var n := if send.n < block.Length() then send.n else block.Length();
        ghost var c := block.Contents();
        Regroup(sent, c[..n], c[n..]);
        assert c == c[..n] + c[n..];
        sent := sent + c[..n];
        block.Skip(n);
        return 0;
      }
      return if send == Broken then -1 else 0;
    }

    // Fills the block; something is in it then, unless there was nothing to send.
    method Refill()
      requires Valid()
      modifies this`queue, block`wr, block.data
      ensures block.Valid() && block.rd == old(block.rd)
      ensures sent + block.Contents() + WireAll(queue) == WireAll(queued)
      ensures NoneWraps(old(queue)) && (old(queue) != [] || old(block.Contents()) != []) ==> block.Contents() != []
    {
      ghost var space, ps, contents := block.Space(), queue, block.Contents();
      ghost var r := CellFill(space, ps);
      FillBlock();
      CellFillConserves(space, ps);
      Regroup(sent + contents, r.0, WireAll(r.1));
      Regroup(sent, contents, r.0);
      if NoneWraps(ps) && contents == [] && ps != [] {
        StreamSizeExact(ps[0]);
        assert r.0 != [] by {
          assert |Wire(ps[0])| == StreamSize(ps[0]) > 0;
        }
      }
    }

    // wt_stream: 1 when there was nothing to send, -1 when sending what is in the block fails, otherwise 0.
    method WriteStream(send: Sent) returns (result: int)
      requires Valid()
      modifies this`queue, this`sent, block, block.data
      ensures Valid() && queued == old(queued) && old(sent) <= sent
      ensures result == 1 <==> old(queue) == [] && old(block.Contents()) == []
      ensures result == -1 <==> send == Broken && block.Contents() != []
      ensures result == 1 || result == 0 || result == -1
      // A peer that takes anything takes some of what is unsent, and an error is reported.
      ensures NoneWraps(old(queue)) && result != 1 && send.Accepted? ==> |sent| > |old(sent)|
      ensures NoneWraps(old(queue)) && result != 1 && send == Broken ==> result == -1
    {
      result := 0;
      if |queue| == 0 && block.Length() == 0 {
        return 1;
      }
      Refill();
      if block.Length() > 0 {
        result := SendOnce(send);
      }
      if block.Length() < 500 {
        block.Crunch();
      }
    }
  }
}
