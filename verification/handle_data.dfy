// The echo connection of ch6_server/handle_data.cpp: an object that counts its outstanding reads and
// writes and deletes itself when the last one completes.
module HandleData {

  type Block = nat

  const BLOCK_SIZE := 1024
  const READ_SIZE := BLOCK_SIZE - 1

  // An operation that the proactor has accepted and not yet completed, with the message block it owns.
  datatype Op = Read(block: Block) | Write(block: Block, nbytes: nat)

  datatype Phase = Created | Live | Deleted

  // The fields of the object, then what is outside it: the accepted operations, the message blocks that
  // are allocated and not released, the next block the allocator hands out.
  datatype Conn = Conn(
    handleValid: bool, ioCount: int, cancelled: bool, totalSnd: nat, totalRcv: nat, totalW: nat, totalR: nat,
    ops: seq<Op>, live: set<Block>, next: Block, phase: Phase)

  // ---------- The methods as functions ----------

  const CREATED := Conn(false, 0, false, 0, 0, 0, 0, [], {}, 0, Created)

  function Allocate(c: Conn): Conn {
    c.(live := c.live + {c.next}, next := c.next + 1)
  }

  function Release(c: Conn, b: Block): Conn {
    c.(live := c.live - {b})
  }

  // `alloc` and `accepted` say whether the allocation and the stream operation succeed.
  function InitiateRead(c: Conn, alloc: bool, accepted: bool): (Conn, bool) {
    if c.cancelled || !c.handleValid || !alloc then (c, false)
    else
      var c1 := Allocate(c);
      if !accepted then (Release(c1, c.next), false)
      else (c1.(ops := c.ops + [Read(c.next)], ioCount := c.ioCount + 1, totalR := c.totalR + 1), true)
  }

  function InitiateWrite(c: Conn, b: Block, nbytes: nat, accepted: bool): (Conn, bool) {
    if c.cancelled || !c.handleValid || nbytes == 0 || !accepted then (Release(c, b), false)
    else (c.(ops := c.ops + [Write(b, nbytes)], ioCount := c.ioCount + 1, totalW := c.totalW + 1), true)
  }

  // The test at the end of open and of both completions, and the destructor.
  function DeleteIfIdle(c: Conn): Conn {
    if c.ioCount > 0 then c else c.(handleValid := false, phase := Deleted)
  }

  function RemoveAt<T>(s: seq<T>, i: nat): seq<T>
    requires i < |s|
  {
    s[..i] + s[i + 1..]
  }

  function AfterOpen(c: Conn, handleValid: bool, wsOpen: bool, rsOpen: bool, alloc: bool, accepted: bool): Conn {
    var c1 := c.(handleValid := handleValid, phase := Live);
    DeleteIfIdle(if wsOpen && rsOpen then InitiateRead(c1, alloc, accepted).0 else c1)
  }

  function AfterCancel(c: Conn): Conn {
    c.(cancelled := true)
  }

  // A handler lowers the count last.
  function Completed(c: Conn): Conn {
    DeleteIfIdle(c.(ioCount := c.ioCount - 1))
  }

  // Writes back what was read and, in full duplex, reads on.
  function Echo(duplex: bool, c: Conn, b: Block, bytes: nat, write: bool, alloc: bool, read: bool): Conn {
    var r := InitiateWrite(c, b, bytes, write);
    if r.1 && duplex then InitiateRead(r.0, alloc, read).0 else r.0
  }

  function ReadBody(
      duplex: bool, c: Conn, i: nat, failed: bool, bytes: nat, write: bool, alloc: bool, read: bool): Conn
    requires i < |c.ops| && c.ops[i].Read?
  {
    var b := c.ops[i].block;
    var c1 := c.(ops := RemoveAt(c.ops, i));
    if !failed && bytes > 0 then Echo(duplex, c1.(totalRcv := c1.totalRcv + bytes), b, bytes, write, alloc, read)
    else Release(c1, b)
  }

  function AfterRead(
      duplex: bool, c: Conn, i: nat, failed: bool, bytes: nat, write: bool, alloc: bool, read: bool): Conn
    requires i < |c.ops| && c.ops[i].Read?
  {
    Completed(ReadBody(duplex, c, i, failed, bytes, write, alloc, read))
  }

  function WriteBody(duplex: bool, c: Conn, i: nat, failed: bool, bytes: nat, alloc: bool, read: bool): Conn
    requires i < |c.ops| && c.ops[i].Write?
  {
    var c1 := Release(c.(ops := RemoveAt(c.ops, i)), c.ops[i].block);
    if !failed && bytes > 0 then
      var c2 := c1.(totalSnd := c1.totalSnd + bytes);
      if !duplex then InitiateRead(c2, alloc, read).0 else c2
    else c1
  }

  function AfterWrite(duplex: bool, c: Conn, i: nat, failed: bool, bytes: nat, alloc: bool, read: bool): Conn
    requires i < |c.ops| && c.ops[i].Write?
  {
    Completed(WriteBody(duplex, c, i, failed, bytes, alloc, read))
  }

  // ---------- The object ----------

  class Handle_data {
    const duplex: bool
    var handleValid: bool
    var ioCount: int
    var cancelled: bool
    var totalSnd: nat
    var totalRcv: nat
    var totalW: nat
    var totalR: nat
    ghost var ops: seq<Op>
    ghost var live: set<Block>
    ghost var next: Block
    ghost var phase: Phase

    ghost function State(): Conn
      reads this
    {
      Conn(handleValid, ioCount, cancelled, totalSnd, totalRcv, totalW, totalR, ops, live, next, phase)
    }

    constructor (duplex: bool)
      ensures State() == CREATED && this.duplex == duplex
    {
      this.duplex := duplex;
      handleValid, ioCount, cancelled := false, 0, false;
      totalSnd, totalRcv, totalW, totalR := 0, 0, 0, 0;
      ops, live, next, phase := [], {}, 0, Created;
    }

    method Cancel()
      modifies this
      ensures State() == AfterCancel(old(State()))
    {
      cancelled := true;
    }

    method DeleteThis()
      requires ioCount <= 0
      modifies this
      ensures State() == DeleteIfIdle(old(State()))
    {
      handleValid := false;
      phase := Deleted;
    }

    method InitiateReadStream(alloc: bool, accepted: bool) returns (ok: bool)
      modifies this
      ensures (State(), ok) == InitiateRead(old(State()), alloc, accepted)
    {
      if cancelled || !handleValid {
        return false;
      }
      if !alloc {
        return false;
      }
      ghost var mb := next;
      next, live := next + 1, live + {mb};
      if !accepted {
        live := live - {mb};
        return false;
      }
      ops := ops + [Read(mb)];
      ioCount := ioCount + 1;
      totalR := totalR + 1;
      return true;
    }

    method InitiateWriteStream(ghost mb: Block, nbytes: nat, accepted: bool) returns (ok: bool)
      modifies this
      ensures (State(), ok) == InitiateWrite(old(State()), mb, nbytes, accepted)
    {
      if cancelled || !handleValid {
        live := live - {mb};
        return false;
      }
      if nbytes == 0 {
        live := live - {mb};
        return false;
      }
      if !accepted {
        live := live - {mb};
        return false;
      }
      ops := ops + [Write(mb, nbytes)];
      ioCount := ioCount + 1;
      totalW := totalW + 1;
      return true;
    }

    method Open(handle: bool, wsOpen: bool, rsOpen: bool, alloc: bool, accepted: bool)
      modifies this
      ensures State() == AfterOpen(old(State()), handle, wsOpen, rsOpen, alloc, accepted)
    {
      phase := Live;
      handleValid := handle;
      if wsOpen && rsOpen {
        var _ := InitiateReadStream(alloc, accepted);
      }
      if ioCount > 0 {
        return;
      }
      DeleteThis();
    }

    // The end of both completion handlers.
    method LowerCount()
      modifies this
      ensures State() == Completed(old(State()))
    {
      ioCount := ioCount - 1;
      if ioCount > 0 {
        return;
      }
      DeleteThis();
    }

    method EchoBack(ghost mb: Block, bytes: nat, write: bool, alloc: bool, read: bool)
      modifies this
      ensures State() == Echo(duplex, old(State()), mb, bytes, write, alloc, read)
    {
      var ok := InitiateWriteStream(mb, bytes, write);
      if ok {
        if duplex {
          var _ := InitiateReadStream(alloc, read);
        }
      }
    }

    // The handler of a read, up to the lowering of the count.
    method TakeInput(ghost i: nat, failed: bool, bytes: nat, write: bool, alloc: bool, read: bool)
      requires i < |ops| && ops[i].Read?
      modifies this
      ensures State() == ReadBody(duplex, old(State()), i, failed, bytes, write, alloc, read)
    {
      ghost var mb := ops[i].block;
      ops := RemoveAt(ops, i);
      if !failed && bytes > 0 {
        totalRcv := totalRcv + bytes;
        EchoBack(mb, bytes, write, alloc, read);
      } else {
        live := live - {mb};
      }
    }

    method HandleReadStream(ghost i: nat, failed: bool, bytes: nat, write: bool, alloc: bool, read: bool)
      requires i < |ops| && ops[i].Read?
      modifies this
      ensures State() == AfterRead(duplex, old(State()), i, failed, bytes, write, alloc, read)
    {
      TakeInput(i, failed, bytes, write, alloc, read);
      LowerCount();
    }

    // The handler of a write, up to the lowering of the count.
    method TakeOutput(ghost i: nat, failed: bool, bytes: nat, alloc: bool, read: bool)
      requires i < |ops| && ops[i].Write?
      modifies this
      ensures State() == WriteBody(duplex, old(State()), i, failed, bytes, alloc, read)
    {
      ghost var mb := ops[i].block;
      ops := RemoveAt(ops, i);
      live := live - {mb};
      if !failed && bytes > 0 {
        totalSnd := totalSnd + bytes;
        if !duplex {
          var _ := InitiateReadStream(alloc, read);
        }
      }
    }

    method HandleWriteStream(ghost i: nat, failed: bool, bytes: nat, alloc: bool, read: bool)
      requires i < |ops| && ops[i].Write?
      modifies this
      ensures State() == AfterWrite(duplex, old(State()), i, failed, bytes, alloc, read)
    {
      TakeOutput(i, failed, bytes, alloc, read);
      LowerCount();
    }
  }

  // ---------- What holds of every connection at every step boundary ----------

  function Reads(ops: seq<Op>): nat {
    if ops == [] then 0 else Reads(ops[..|ops| - 1]) + if ops[|ops| - 1].Read? then 1 else 0
  }

  function WriteBytes(ops: seq<Op>): nat {
    if ops == [] then 0 else WriteBytes(ops[..|ops| - 1]) + if ops[|ops| - 1].Write? then ops[|ops| - 1].nbytes else 0
  }

  // Each live block belongs to exactly one outstanding operation.
  ghost predicate Owned(ops: seq<Op>, live: set<Block>, next: Block) {
    && (forall i, j :: 0 <= i < j < |ops| ==> ops[i].block != ops[j].block)
    && (forall i :: 0 <= i < |ops| ==> ops[i].block in live)
    && (forall b :: b in live ==> exists i :: 0 <= i < |ops| && ops[i].block == b)
    && (forall b :: b in live ==> b < next)
  }

  ghost predicate Inv(duplex: bool, c: Conn) {
    && c.ioCount == |c.ops|
    && Owned(c.ops, c.live, c.next)
    && c.totalSnd + WriteBytes(c.ops) <= c.totalRcv
    && (if duplex then Reads(c.ops) <= 1 else |c.ops| <= 1)
    && (c.phase == Live <==> |c.ops| > 0)
  }

  lemma {:induction false} Removed(ops: seq<Op>, i: nat)
    requires i < |ops|
    ensures Reads(RemoveAt(ops, i)) == Reads(ops) - (if ops[i].Read? then 1 else 0)
    ensures WriteBytes(RemoveAt(ops, i)) == WriteBytes(ops) - (if ops[i].Write? then ops[i].nbytes else 0)
  {
    var n := |ops| - 1;
    if i == n {
      assert RemoveAt(ops, i) == ops[..n];
    } else {
      assert RemoveAt(ops, i)[..n - 1] == RemoveAt(ops[..n], i);
      assert RemoveAt(ops, i)[n - 1] == ops[n];
      Removed(ops[..n], i);
    }
  }

  lemma {:induction false} ReadsOfMember(ops: seq<Op>, i: nat)
    requires i < |ops| && ops[i].Read?
    ensures Reads(ops) >= 1
  {
    if i < |ops| - 1 {
      ReadsOfMember(ops[..|ops| - 1], i);
    }
  }

  lemma Added(ops: seq<Op>, o: Op)
    ensures Reads(ops + [o]) == Reads(ops) + (if o.Read? then 1 else 0)
    ensures WriteBytes(ops + [o]) == WriteBytes(ops) + (if o.Write? then o.nbytes else 0)
  {
    assert (ops + [o])[..|ops|] == ops;
  }

  // A completed operation gives its block up: to no one, or to a new operation.
  lemma OwnedAfterRemoval(ops: seq<Op>, live: set<Block>, next: Block, i: nat)
    requires Owned(ops, live, next) && i < |ops|
    ensures Owned(RemoveAt(ops, i), live - {ops[i].block}, next)
  {
    var r, b := RemoveAt(ops, i), ops[i].block;
    forall x | x in live - {b}
      ensures exists j :: 0 <= j < |r| && r[j].block == x
    {
      var j :| 0 <= j < |ops| && ops[j].block == x;
      assert r[if j < i then j else j - 1] == ops[j];
    }
  }

  lemma OwnedAfterAddition(ops: seq<Op>, live: set<Block>, next: Block, o: Op)
    requires Owned(ops, live, next) && o.block !in live && o.block < next
    ensures Owned(ops + [o], live + {o.block}, next)
  {
    var r := ops + [o];
    forall x | x in live + {o.block}
      ensures exists j :: 0 <= j < |r| && r[j].block == x
    {
      if x == o.block {
        assert r[|ops|].block == x;
      } else {
        var j :| 0 <= j < |ops| && ops[j].block == x;
        assert r[j].block == x;
      }
    }
  }

  // Between the completion of an operation and the end of its handler, that operation is still counted.
  ghost predicate Handling(duplex: bool, c: Conn) {
    && c.ioCount == |c.ops| + 1
    && c.phase == Live
    && Owned(c.ops, c.live, c.next)
    && c.totalSnd + WriteBytes(c.ops) <= c.totalRcv
  }

  lemma InitiateReadKeeps(duplex: bool, c: Conn, alloc: bool, accepted: bool)
    requires Handling(duplex, c)
    ensures var (n, ok) := InitiateRead(c, alloc, accepted);
            && Handling(duplex, n)
            && n.ops == (if ok then c.ops + [Read(c.next)] else c.ops)
            && Reads(n.ops) == Reads(c.ops) + if ok then 1 else 0
  {
    var c1 := Allocate(c);
    assert Release(c1, c.next).live == c.live;
    OwnedAfterAddition(c.ops, c.live, c1.next, Read(c.next));
    Added(c.ops, Read(c.next));
  }

  lemma InitiateWriteKeeps(duplex: bool, c: Conn, b: Block, nbytes: nat, accepted: bool)
    requires Handling(duplex, Release(c, b)) && b in c.live && b < c.next
    requires c.totalSnd + WriteBytes(c.ops) + nbytes <= c.totalRcv
    ensures var (n, ok) := InitiateWrite(c, b, nbytes, accepted);
            && Handling(duplex, n)
            && n.ops == (if ok then c.ops + [Write(b, nbytes)] else c.ops)
            && Reads(n.ops) == Reads(c.ops)
  {
    OwnedAfterAddition(c.ops, c.live - {b}, c.next, Write(b, nbytes));
    assert c.live - {b} + {b} == c.live;
    Added(c.ops, Write(b, nbytes));
  }

  lemma NoBlocksWithoutOps(ops: seq<Op>, live: set<Block>, next: Block)
    requires Owned(ops, live, next) && |ops| == 0
    ensures live == {}
  {
    assert forall b :: b !in live;
  }

  lemma OpenKeepsInv(duplex: bool, c: Conn, handleValid: bool, wsOpen: bool, rsOpen: bool, alloc: bool, accepted: bool)
    requires Inv(duplex, c) && c.phase == Created
    ensures Inv(duplex, AfterOpen(c, handleValid, wsOpen, rsOpen, alloc, accepted))
  {
    var c1 := c.(handleValid := handleValid, phase := Live, ioCount := 1);
    InitiateReadKeeps(duplex, c1, alloc, accepted);
  }

  lemma EchoKeeps(duplex: bool, c: Conn, b: Block, bytes: nat, write: bool, alloc: bool, read: bool)
    requires Handling(duplex, Release(c, b)) && b in c.live && b < c.next
    requires c.totalSnd + WriteBytes(c.ops) + bytes <= c.totalRcv
    requires if duplex then Reads(c.ops) == 0 else |c.ops| == 0
    ensures var n := Echo(duplex, c, b, bytes, write, alloc, read);
            && Handling(duplex, n)
            && (if duplex then Reads(n.ops) <= 1 else |n.ops| <= 1)
            && (c.cancelled ==> n.cancelled && n.ops == c.ops)
  {
    InitiateWriteKeeps(duplex, c, b, bytes, write);
    InitiateReadKeeps(duplex, InitiateWrite(c, b, bytes, write).0, alloc, read);
  }

  // A completed operation is out of the list; its block, if released, leaves the others owned.
  lemma RemovalKeeps(duplex: bool, c: Conn, i: nat, rcv: nat)
    requires Inv(duplex, c) && i < |c.ops| && rcv >= c.totalRcv
    ensures var n := c.(ops := RemoveAt(c.ops, i), totalRcv := rcv);
            && Handling(duplex, Release(n, c.ops[i].block))
            && c.totalSnd + WriteBytes(n.ops) + (if c.ops[i].Write? then c.ops[i].nbytes else 0) <= c.totalRcv
            && c.ops[i].block in n.live && c.ops[i].block < n.next
            && |n.ops| == |c.ops| - 1
            && Reads(n.ops) == Reads(c.ops) - (if c.ops[i].Read? then 1 else 0)
  {
    Removed(c.ops, i);
    OwnedAfterRemoval(c.ops, c.live, c.next, i);
  }

  // The handlers: what they start, and that a draining connection starts no more.
  lemma ReadBodyKeeps(
      duplex: bool, c: Conn, i: nat, failed: bool, bytes: nat, write: bool, alloc: bool, read: bool)
    requires Inv(duplex, c) && i < |c.ops| && c.ops[i].Read?
    ensures var n := ReadBody(duplex, c, i, failed, bytes, write, alloc, read);
            && Handling(duplex, n)
            && (if duplex then Reads(n.ops) <= 1 else |n.ops| <= 1)
            && (c.cancelled ==> n.cancelled && |n.ops| == |c.ops| - 1)
  {
    if !failed && bytes > 0 {
      RemovalKeeps(duplex, c, i, c.totalRcv + bytes);
      var c1 := c.(ops := RemoveAt(c.ops, i), totalRcv := c.totalRcv + bytes);
      var n := Echo(duplex, c1, c.ops[i].block, bytes, write, alloc, read);
      assert n == ReadBody(duplex, c, i, failed, bytes, write, alloc, read);
      EchoKeeps(duplex, c1, c.ops[i].block, bytes, write, alloc, read);
    } else {
      RemovalKeeps(duplex, c, i, c.totalRcv);
      var n := Release(c.(ops := RemoveAt(c.ops, i)), c.ops[i].block);
      assert n == ReadBody(duplex, c, i, failed, bytes, write, alloc, read);
      assert c.(ops := RemoveAt(c.ops, i)) == c.(ops := RemoveAt(c.ops, i), totalRcv := c.totalRcv);
    }
  }

  lemma WriteBodyKeeps(duplex: bool, c: Conn, i: nat, failed: bool, bytes: nat, alloc: bool, read: bool)
    requires Inv(duplex, c) && i < |c.ops| && c.ops[i].Write? && bytes <= c.ops[i].nbytes
    ensures var n := WriteBody(duplex, c, i, failed, bytes, alloc, read);
            && Handling(duplex, n)
            && (if duplex then Reads(n.ops) <= 1 else |n.ops| <= 1)
            && (c.cancelled || duplex ==>
                  n.cancelled == c.cancelled && |n.ops| == |c.ops| - 1 && Reads(n.ops) == Reads(c.ops))
  {
    var c1 := Release(c.(ops := RemoveAt(c.ops, i)), c.ops[i].block);
    RemovalKeeps(duplex, c, i, c.totalRcv);
    if !failed && bytes > 0 && !duplex {
      InitiateReadKeeps(duplex, c1.(totalSnd := c1.totalSnd + bytes), alloc, read);
    }
  }

  // ---------- Runs ----------

  datatype Event =
    | Opened(handleValid: bool, wsOpen: bool, rsOpen: bool, alloc: bool, accepted: bool)
    | Cancelled
    | ReadDone(i: nat, failed: bool, bytes: nat, write: bool, alloc: bool, read: bool)
    | WriteDone(i: nat, failed: bool, bytes: nat, alloc: bool, read: bool)

  // The acceptor opens a connection once, the proactor completes what it accepted, with no more bytes
  // than were asked for, and anyone may cancel an object that exists.
  predicate Enabled(c: Conn, e: Event) {
    match e
    case Opened(_, _, _, _, _) => c.phase == Created
    case Cancelled => c.phase != Deleted
    case ReadDone(i, _, bytes, _, _, _) => i < |c.ops| && c.ops[i].Read? && bytes <= READ_SIZE
    case WriteDone(i, _, bytes, _, _) => i < |c.ops| && c.ops[i].Write? && bytes <= c.ops[i].nbytes
  }

  function Apply(duplex: bool, c: Conn, e: Event): Conn
    requires Enabled(c, e)
  {
    match e
    case Opened(handleValid, wsOpen, rsOpen, alloc, accepted) =>
      AfterOpen(c, handleValid, wsOpen, rsOpen, alloc, accepted)
    case Cancelled => AfterCancel(c)
    case ReadDone(i, failed, bytes, write, alloc, read) => AfterRead(duplex, c, i, failed, bytes, write, alloc, read)
    case WriteDone(i, failed, bytes, alloc, read) => AfterWrite(duplex, c, i, failed, bytes, alloc, read)
  }

  predicate IsRun(duplex: bool, c: Conn, es: seq<Event>)
    decreases |es|, 0
  {
    es == [] || (IsRun(duplex, c, es[..|es| - 1]) && Enabled(Run(duplex, c, es[..|es| - 1]), es[|es| - 1]))
  }

  function Run(duplex: bool, c: Conn, es: seq<Event>): Conn
    requires IsRun(duplex, c, es)
    decreases |es|, 1
  {
    if es == [] then c else Apply(duplex, Run(duplex, c, es[..|es| - 1]), es[|es| - 1])
  }

  lemma CompletedKeeps(duplex: bool, n: Conn)
    requires Handling(duplex, n) && (if duplex then Reads(n.ops) <= 1 else |n.ops| <= 1)
    ensures Inv(duplex, Completed(n))
  {
  }

  lemma {:induction false} StepKeepsInv(duplex: bool, c: Conn, e: Event)
    requires Inv(duplex, c) && Enabled(c, e)
    ensures Inv(duplex, Apply(duplex, c, e))
  {
    match e
    case Opened(handleValid, wsOpen, rsOpen, alloc, accepted) =>
      OpenKeepsInv(duplex, c, handleValid, wsOpen, rsOpen, alloc, accepted);
    case Cancelled =>
    case ReadDone(i, failed, bytes, write, alloc, read) =>
      ReadBodyKeeps(duplex, c, i, failed, bytes, write, alloc, read);
      CompletedKeeps(duplex, ReadBody(duplex, c, i, failed, bytes, write, alloc, read));
    case WriteDone(i, failed, bytes, alloc, read) =>
      WriteBodyKeeps(duplex, c, i, failed, bytes, alloc, read);
      CompletedKeeps(duplex, WriteBody(duplex, c, i, failed, bytes, alloc, read));
  }

  // In every run, at every step boundary: the count is the number of outstanding operations, which is at
  // least one exactly while the object is live; every live block is in one operation; full duplex has at
  // most one read outstanding and half duplex one operation in all; no byte is sent that was not received.
  lemma {:induction false} RunKeepsInv(duplex: bool, es: seq<Event>)
    requires IsRun(duplex, CREATED, es)
    ensures Inv(duplex, Run(duplex, CREATED, es))
  {
    if es != [] {
      RunKeepsInv(duplex, es[..|es| - 1]);
      StepKeepsInv(duplex, Run(duplex, CREATED, es[..|es| - 1]), es[|es| - 1]);
    }
  }

  // Nothing happens to a deleted object, which has no operation outstanding and holds no block; so an
  // object is deleted at most once, by the last event of its run.
  lemma {:induction false} DeletedOnce(duplex: bool, es: seq<Event>, e: Event)
    requires IsRun(duplex, CREATED, es) && Run(duplex, CREATED, es).phase == Deleted
    ensures !IsRun(duplex, CREATED, es + [e])
    ensures Run(duplex, CREATED, es).ops == [] && Run(duplex, CREATED, es).live == {}
  {
    RunKeepsInv(duplex, es);
    var c := Run(duplex, CREATED, es);
    assert c.ops == [];
    NoBlocksWithoutOps(c.ops, c.live, c.next);
    assert (es + [e])[..|es|] == es;
    assert !Enabled(c, e);
  }

  // ---------- Draining ----------

  // Cancelled, or in full duplex with the chain of reads stopped.
  predicate Draining(duplex: bool, c: Conn) {
    c.phase != Created && (c.cancelled || (duplex && Reads(c.ops) == 0))
  }

  function Completions(es: seq<Event>): nat {
    if es == [] then 0
    else Completions(es[..|es| - 1]) + if es[|es| - 1].ReadDone? || es[|es| - 1].WriteDone? then 1 else 0
  }

  lemma StepDrains(duplex: bool, c: Conn, e: Event)
    requires Inv(duplex, c) && Enabled(c, e) && Draining(duplex, c)
    ensures Draining(duplex, Apply(duplex, c, e))
    ensures |Apply(duplex, c, e).ops| == |c.ops| - if e.Cancelled? then 0 else 1
  {
    match e
    case Opened(_, _, _, _, _) =>
    case Cancelled =>
    case ReadDone(i, failed, bytes, write, alloc, read) =>
      ReadsOfMember(c.ops, i);
      ReadBodyKeeps(duplex, c, i, failed, bytes, write, alloc, read);
    case WriteDone(i, failed, bytes, alloc, read) =>
      WriteBodyKeeps(duplex, c, i, failed, bytes, alloc, read);
  }

  // From then on each completion lowers the number of outstanding operations by one, and the last one
  // deletes the object.
  lemma {:induction false} Drains(duplex: bool, c: Conn, es: seq<Event>)
    requires Inv(duplex, c) && Draining(duplex, c) && IsRun(duplex, c, es)
    ensures Inv(duplex, Run(duplex, c, es)) && Draining(duplex, Run(duplex, c, es))
    ensures |Run(duplex, c, es).ops| == |c.ops| - Completions(es)
    ensures Run(duplex, c, es).phase == Deleted <==> Completions(es) == |c.ops|
  {
    if es != [] {
      var before := Run(duplex, c, es[..|es| - 1]);
      Drains(duplex, c, es[..|es| - 1]);
      StepKeepsInv(duplex, before, es[|es| - 1]);
      StepDrains(duplex, before, es[|es| - 1]);
    }
  }

  // ---------- What is started ----------

  // Where an operation can be started at all.
  predicate Usable(c: Conn) {
    !c.cancelled && c.handleValid
  }

  // A connection is opened with a read if it can be, and is gone otherwise.
  lemma OpenedExact(duplex: bool, c: Conn, e: Event)
    requires Inv(duplex, c) && Enabled(c, e) && e.Opened?
    ensures var n := Apply(duplex, c, e);
            && n.ops == (if !c.cancelled && e.handleValid && e.wsOpen && e.rsOpen && e.alloc && e.accepted
                         then [Read(c.next)] else [])
            && n.phase == (if n.ops == [] then Deleted else Live)
            && (n.phase == Live ==> n.handleValid == e.handleValid) && n.cancelled == c.cancelled
            && n.totalRcv == c.totalRcv && n.totalSnd == c.totalSnd
            && n.totalR == c.totalR + |n.ops| && n.totalW == c.totalW
  {
    assert c.ops == [] && [] + [Read(c.next)] == [Read(c.next)];
  }

  // What arrives is written back from the block it was read into, and in full duplex the next read follows.
  lemma ReadDoneExact(duplex: bool, c: Conn, e: Event)
    requires Inv(duplex, c) && Enabled(c, e) && e.ReadDone?
    ensures var n := Apply(duplex, c, e);
            var echoed := !e.failed && e.bytes > 0 && Usable(c) && e.write;
            && n.ops == RemoveAt(c.ops, e.i) + (if echoed then [Write(c.ops[e.i].block, e.bytes)] else [])
                        + (if echoed && duplex && e.alloc && e.read then [Read(c.next)] else [])
            && n.phase == (if n.ops == [] then Deleted else Live)
            && (n.phase == Live ==> n.handleValid == c.handleValid) && n.cancelled == c.cancelled
            && n.totalRcv == c.totalRcv + (if e.failed then 0 else e.bytes) && n.totalSnd == c.totalSnd
            && n.totalW == c.totalW + (if echoed then 1 else 0)
            && n.totalR + n.totalW == c.totalR + c.totalW + |n.ops| - (|c.ops| - 1)
  {
    var rest := RemoveAt(c.ops, e.i);
    assert rest + [] == rest;
    assert rest + [Write(c.ops[e.i].block, e.bytes)] + [] == rest + [Write(c.ops[e.i].block, e.bytes)];
  }

  // In half duplex the next read follows the write.
  lemma WriteDoneExact(duplex: bool, c: Conn, e: Event)
    requires Inv(duplex, c) && Enabled(c, e) && e.WriteDone?
    ensures var n := Apply(duplex, c, e);
            && n.ops == RemoveAt(c.ops, e.i)
                        + (if !duplex && !e.failed && e.bytes > 0 && Usable(c) && e.alloc && e.read
                           then [Read(c.next)] else [])
            && n.phase == (if n.ops == [] then Deleted else Live)
            && (n.phase == Live ==> n.handleValid == c.handleValid) && n.cancelled == c.cancelled
            && n.totalSnd == c.totalSnd + (if e.failed then 0 else e.bytes) && n.totalRcv == c.totalRcv
            && n.totalR == c.totalR + |n.ops| - |c.ops| + 1 && n.totalW == c.totalW
  {
    assert RemoveAt(c.ops, e.i) + [] == RemoveAt(c.ops, e.i);
  }

  // Cancelling a live connection makes it drain, and changes nothing else.
  lemma CancelDrains(duplex: bool, c: Conn)
    requires c.phase == Live
    ensures Draining(duplex, Apply(duplex, c, Cancelled))
    ensures Apply(duplex, c, Cancelled).(cancelled := c.cancelled) == c
  {
  }

  // The bytes that a step loses: read and not written back, or written and not sent.
  function Lost(c: Conn, e: Event): int
    requires Enabled(c, e)
  {
    match e
    case ReadDone(_, failed, bytes, write, _, _) => if !failed && !(Usable(c) && write) then bytes else 0
    case WriteDone(i, failed, bytes, _, _) => c.ops[i].nbytes - if failed then 0 else bytes
    case _ => 0
  }

  function LostInRun(duplex: bool, c: Conn, es: seq<Event>): int
    requires IsRun(duplex, c, es)
  {
    if es == [] then 0
    else
      var n := |es| - 1;
      LostInRun(duplex, c, es[..n]) + Lost(Run(duplex, c, es[..n]), es[n])
  }

  function Astray(c: Conn): int {
    c.totalRcv - c.totalSnd - WriteBytes(c.ops)
  }

  lemma WriteBytesOfTwo(ops: seq<Op>, a: seq<Op>, b: seq<Op>)
    requires |a| <= 1 && |b| <= 1
    ensures WriteBytes(ops + a + b) == WriteBytes(ops) + WriteBytes(a) + WriteBytes(b)
    ensures Reads(ops + a + b) == Reads(ops) + Reads(a) + Reads(b)
  {
    assert a != [] ==> ops + a == ops + [a[0]] && a == [] + [a[0]];
    assert b != [] ==> ops + a + b == ops + a + [b[0]] && b == [] + [b[0]];
    assert a == [] ==> ops + a == ops;
    assert b == [] ==> ops + a + b == ops + a;
    if a != [] {
      Added(ops, a[0]);
      Added([], a[0]);
    }
    if b != [] {
      Added(ops + a, b[0]);
      Added([], b[0]);
    }
  }

  lemma OneOp(o: Op)
    ensures Reads([o]) == (if o.Read? then 1 else 0) && WriteBytes([o]) == if o.Write? then o.nbytes else 0
  {
    Added([], o);
    assert [] + [o] == [o];
  }

  lemma ReadDoneBytes(duplex: bool, c: Conn, e: Event)
    requires Inv(duplex, c) && Enabled(c, e) && e.ReadDone?
    ensures Astray(Apply(duplex, c, e)) == Astray(c) + Lost(c, e)
  {
    ReadDoneExact(duplex, c, e);
    Removed(c.ops, e.i);
    var echoed := !e.failed && e.bytes > 0 && Usable(c) && e.write;
    var w, r := Write(c.ops[e.i].block, e.bytes), Read(c.next);
    OneOp(w);
    OneOp(r);
    WriteBytesOfTwo(RemoveAt(c.ops, e.i), if echoed then [w] else [],
                    if echoed && duplex && e.alloc && e.read then [r] else []);
  }

  lemma WriteDoneBytes(duplex: bool, c: Conn, e: Event)
    requires Inv(duplex, c) && Enabled(c, e) && e.WriteDone?
    ensures Astray(Apply(duplex, c, e)) == Astray(c) + Lost(c, e)
  {
    WriteDoneExact(duplex, c, e);
    Removed(c.ops, e.i);
    OneOp(Read(c.next));
    Added(RemoveAt(c.ops, e.i), Read(c.next));
  }

  lemma StepBytes(duplex: bool, c: Conn, e: Event)
    requires Inv(duplex, c) && Enabled(c, e)
    ensures Astray(Apply(duplex, c, e)) == Astray(c) + Lost(c, e)
  {
    match e
    case Opened(_, _, _, _, _) =>
      OpenedExact(duplex, c, e);
      OneOp(Read(c.next));
      assert c.ops == [];
    case Cancelled =>
    case ReadDone(_, _, _, _, _, _) => ReadDoneBytes(duplex, c, e);
    case WriteDone(_, _, _, _, _) => WriteDoneBytes(duplex, c, e);
  }

  // In every run what was received is what was sent, is being written, and was lost by the steps that fail.
  lemma {:induction false} BytesExact(duplex: bool, es: seq<Event>)
    requires IsRun(duplex, CREATED, es)
    ensures var c := Run(duplex, CREATED, es);
            c.totalRcv == c.totalSnd + WriteBytes(c.ops) + LostInRun(duplex, CREATED, es)
  {
    if es != [] {
      var n := |es| - 1;
      BytesExact(duplex, es[..n]);
      RunKeepsInv(duplex, es[..n]);
      StepBytes(duplex, Run(duplex, CREATED, es[..n]), es[n]);
    }
  }

  // A step without cancellation, failure, end of input or partial write.
  predicate Fine(c: Conn, e: Event)
    requires Enabled(c, e)
  {
    match e
    case Opened(handleValid, wsOpen, rsOpen, alloc, accepted) => handleValid && wsOpen && rsOpen && alloc && accepted
    case Cancelled => false
    case ReadDone(_, failed, bytes, write, alloc, read) => !failed && bytes > 0 && write && alloc && read
    case WriteDone(i, failed, bytes, alloc, read) => !failed && bytes == c.ops[i].nbytes > 0 && alloc && read
  }

  predicate FineRun(duplex: bool, c: Conn, es: seq<Event>)
    requires IsRun(duplex, c, es)
  {
    es == [] || (FineRun(duplex, c, es[..|es| - 1]) && Fine(Run(duplex, c, es[..|es| - 1]), es[|es| - 1]))
  }

  // Open, with its next read outstanding, or in half duplex a write.
  predicate Serving(duplex: bool, c: Conn) {
    c.phase == Live && Usable(c) && if duplex then Reads(c.ops) == 1 else |c.ops| == 1
  }

  lemma FineRead(duplex: bool, c: Conn, e: Event)
    requires Inv(duplex, c) && Enabled(c, e) && Fine(c, e) && e.ReadDone? && Serving(duplex, c)
    ensures Serving(duplex, Apply(duplex, c, e))
  {
    ReadDoneExact(duplex, c, e);
    Removed(c.ops, e.i);
    var w, r := Write(c.ops[e.i].block, e.bytes), Read(c.next);
    OneOp(w);
    OneOp(r);
    WriteBytesOfTwo(RemoveAt(c.ops, e.i), [w], if duplex then [r] else []);
  }

  lemma FineWrite(duplex: bool, c: Conn, e: Event)
    requires Inv(duplex, c) && Enabled(c, e) && Fine(c, e) && e.WriteDone? && Serving(duplex, c)
    ensures Serving(duplex, Apply(duplex, c, e))
  {
    WriteDoneExact(duplex, c, e);
    Removed(c.ops, e.i);
  }

  lemma FineStep(duplex: bool, c: Conn, e: Event)
    requires Inv(duplex, c) && Enabled(c, e) && Fine(c, e)
    requires if e.Opened? then !c.cancelled else Serving(duplex, c)
    ensures Serving(duplex, Apply(duplex, c, e)) && Lost(c, e) == 0
  {
    match e
    case Opened(_, _, _, _, _) =>
      OpenedExact(duplex, c, e);
      OneOp(Read(c.next));
    case ReadDone(_, _, _, _, _, _) => FineRead(duplex, c, e);
    case WriteDone(_, _, _, _, _) => FineWrite(duplex, c, e);
  }

  // As long as all goes well the connection stays open, waits for input or is writing back, and all that was
  // received is sent or being written.
  lemma {:induction false} FineRunServes(duplex: bool, es: seq<Event>)
    requires IsRun(duplex, CREATED, es) && FineRun(duplex, CREATED, es)
    ensures var c := Run(duplex, CREATED, es);
            && (if es == [] then c == CREATED else Serving(duplex, c))
            && c.totalRcv == c.totalSnd + WriteBytes(c.ops)
  {
    BytesExact(duplex, es);
    FineRunLosesNothing(duplex, es);
  }

  lemma {:induction false} FineRunLosesNothing(duplex: bool, es: seq<Event>)
    requires IsRun(duplex, CREATED, es) && FineRun(duplex, CREATED, es)
    ensures LostInRun(duplex, CREATED, es) == 0
    ensures var c := Run(duplex, CREATED, es); if es == [] then c == CREATED else Serving(duplex, c)
  {
    if es != [] {
      var n := |es| - 1;
      FineRunLosesNothing(duplex, es[..n]);
      RunKeepsInv(duplex, es[..n]);
      FineStep(duplex, Run(duplex, CREATED, es[..n]), es[n]);
    }
  }
}
