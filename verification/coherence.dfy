// The cache server, the converter and the database as one system: every load returns the value
// written last, wherever it currently lives (cachesys/src/EntityHander.cpp:200-366,
// cachesys/src/ManageConvertSession.cpp:177-188, convertsys/src/ManageSQLiteFile.cpp:438-588).
module Coherence {
  import opened Records
  import opened MergeRecords
  import opened CacheState

  datatype System = System(cache: Cache, merged: MergeMap, db: Database, acks: set<Ack>)

  // What can happen next. The converter may merge any record of the log that is the first of its guid
  // there, since records wait for their transactions; it may write its map out at any moment; and an
  // acknowledgement may arrive late, out of order and more than once.
  datatype Step =
    | Client(request: Request)
    | Read(load: nat)
    | Answer(load: nat)
    | Convert(k: nat)
    | WriteBatch
    | Deliver(ack: Ack)

  function Without(log: seq<Record>, k: nat): seq<Record>
    requires k < |log|
  {
    log[..k] + log[k + 1..]
  }

  predicate FirstOfGuid(log: seq<Record>, k: nat) {
    k < |log| && forall i :: 0 <= i < k ==> log[i].objectGuid != log[k].objectGuid
  }

  function Next(s: System, step: Step): (System, Reply) {
    match step
    case Client(q) =>
      var (c, reply) := Handle(s.cache, q);
      (s.(cache := c), reply)
    case Read(i) =>
      if i < |s.cache.loads| then (s.(cache := DbRead(s.cache, i, s.db)), NoReply) else (s, NoReply)
    case Answer(i) =>
      if i < |s.cache.loads| && s.cache.loads[i].read then
        var (c, reply) := HandleDbLoad(s.cache, i);
        (s.(cache := c), reply)
      else (s, NoReply)
    case Convert(k) =>
      var log := s.cache.log;
      if !FirstOfGuid(log, k) then (s, NoReply)
      else (s.(cache := s.cache.(log := Without(log, k)), merged := Merge(s.merged, "", log[k])), NoReply)
    case WriteBatch =>
      (System(s.cache, map[], Written(s.merged, s.db), s.acks + AckSet(s.merged, s.db)), NoReply)
    case Deliver(a) =>
      if a in s.acks then (s.(cache := s.cache.(expired := Acknowledge(s.cache.expired, a))), NoReply)
      else (s, NoReply)
  }

  // What an ideal store would hold, the last value written per guid; and the times that flush-type writes
  // of each guid have used.
  datatype Ideal = Ideal(last: map<Guid, Stream>, flushTimes: map<Guid, set<nat>>)

  function FlushTimes(x: Ideal, g: Guid): set<nat> {
    if g in x.flushTimes then x.flushTimes[g] else {}
  }

  predicate Writes(s: System, step: Step) {
    step.Client? && step.request.stream != "" &&
    var g := step.request.guid;
    match step.request.opcode
    case NewEntity => g !in s.cache.entities
    case NewEntityWithFlush | UpdateEntity => true
    case FlushEntity => g in s.cache.entities
    case _ => false
  }

  predicate FlushType(q: Request) {
    q.opcode == NewEntityWithFlush || q.opcode == FlushEntity
  }

  function IdealNext(x: Ideal, s: System, step: Step): Ideal {
    if Writes(s, step) then
      var q := step.request;
      Ideal(x.last[q.guid := q.stream],
            if FlushType(q) then x.flushTimes[q.guid := FlushTimes(x, q.guid) + {q.lastModifyTime}] else x.flushTimes)
    else x
  }

  predicate Loading(c: Cache, g: Guid) {
    exists i :: 0 <= i < |c.loads| && c.loads[i].guid == g
  }

  // ---------- Acknowledgements that may still come ----------

  function Entry(merged: MergeMap, g: Guid): Option<Record> {
    if g in merged then Some(merged[g]) else None
  }

  // The entry of a guid after one more of its records.
  function Absorbing(e: Option<Record>, r: Record): Option<Record> {
    if e == None then Some(Fresh(r, "")) else Absorb(e.value, r)
  }

  // The entry of g once the converter has read the log, without a write-out.
  function EntryAfter(e: Option<Record>, log: seq<Record>, g: Guid): Option<Record> {
    if log == [] then e
    else
      var p := EntryAfter(e, log[..|log| - 1], g);
      if log[|log| - 1].objectGuid == g then Absorbing(p, log[|log| - 1]) else p
  }

  // The time that a write-out of this entry acknowledges.
  function Emitted(e: Option<Record>): set<nat> {
    if e != None && e.value.lastIsFlush then {e.value.lastModifyTime} else {}
  }

  // The times that write-outs can acknowledge while the log is read.
  function Emits(e: Option<Record>, log: seq<Record>, g: Guid): set<nat> {
    if log == [] then Emitted(e)
    else Emits(e, log[..|log| - 1], g) + Emitted(EntryAfter(e, log, g))
  }

  // Of these, the ones acknowledged before the last record of g is merged.
  function EmitsBefore(e: Option<Record>, log: seq<Record>, g: Guid): set<nat> {
    if log == [] then {}
    else if log[|log| - 1].objectGuid == g then Emits(e, log[..|log| - 1], g)
    else EmitsBefore(e, log[..|log| - 1], g)
  }

  // An acknowledgement of g with time t has been sent, or can be, of what is written so far.
  predicate Obtainable(s: System, g: Guid, t: nat) {
    Ack(g, t) in s.acks || t in Emits(Entry(s.merged, g), s.cache.log, g)
  }

  // What the system demands of its clients: guids are created fresh, updated and flushed only while
  // loaded, and never removed; loads are awaited. And of its clock, with which the server stamps every
  // request in microseconds (cachesys/src/DataRequestInfo.h:28, 41): a flush does not get the time of an
  // acknowledgement of its guid that has been sent or can still be. Other times do not matter.
  predicate Allowed(s: System, x: Ideal, step: Step) {
    step.Client? ==>
      var q, c := step.request, s.cache;
      var g := q.guid;
      && (Writes(s, step) ==> !Loading(c, g))
      && match q.opcode
         case NewEntity => q.stream == "" || g in c.entities || g !in x.last
         case NewEntityWithFlush => q.stream != "" && g !in x.last
         case LoadEntity => !Loading(c, g)
         case LoadEntityOnce => true
         case FlushEntity => g in c.entities ==> q.stream != "" && !Obtainable(s, g, q.lastModifyTime)
         case UpdateEntity => q.stream == "" || g in c.entities
         case RemoveEntity | OnlyRemoveEntity => false
  }

  lemma {:induction false} EmitsUnmentioned(e: Option<Record>, log: seq<Record>, g: Guid)
    requires !Mentions(log, g)
    ensures EntryAfter(e, log, g) == e && Emits(e, log, g) == Emitted(e) && EmitsBefore(e, log, g) == {}
  {
    if log != [] {
      assert log[|log| - 1].objectGuid != g;
      assert !Mentions(log[..|log| - 1], g) by {
        assert forall i :: 0 <= i < |log| - 1 ==> log[..|log| - 1][i] == log[i];
      }
      EmitsUnmentioned(e, log[..|log| - 1], g);
    }
  }

  lemma {:induction false} EmittedFirst(e: Option<Record>, log: seq<Record>, g: Guid)
    ensures Emitted(e) <= Emits(e, log, g)
  {
    if log != [] {
      EmittedFirst(e, log[..|log| - 1], g);
    }
  }

  lemma {:induction false} EmittedBefore(e: Option<Record>, log: seq<Record>, g: Guid)
    requires Mentions(log, g)
    ensures Emitted(e) <= EmitsBefore(e, log, g)
  {
    MentionsLast(log, g);
    if log[|log| - 1].objectGuid == g {
      EmittedFirst(e, log[..|log| - 1], g);
    } else {
      EmittedBefore(e, log[..|log| - 1], g);
    }
  }

  // The entry of g when record k of the log has been merged, and no other.
  function WithMerged(e: Option<Record>, log: seq<Record>, k: nat, g: Guid): Option<Record>
    requires k < |log|
  {
    if log[k].objectGuid == g then Absorbing(e, log[k]) else e
  }

  lemma WithoutSnoc(log: seq<Record>, k: nat)
    requires k < |log| - 1
    ensures var rest, some := Without(log, k), log[..|log| - 1];
            rest[..|rest| - 1] == Without(some, k) && rest[|rest| - 1] == log[|log| - 1] && some[k] == log[k]
  {
  }

  // The first record of a guid is merged: what can be acknowledged from then on could be before.
  lemma {:induction false} EmitsWithout(e: Option<Record>, log: seq<Record>, k: nat, g: Guid)
    requires FirstOfGuid(log, k)
    ensures var f, rest := WithMerged(e, log, k, g), Without(log, k);
            && EntryAfter(f, rest, g) == EntryAfter(e, log, g)
            && Emits(e, log, g) == Emitted(e) + Emits(f, rest, g)
            && EmitsBefore(f, rest, g) <= EmitsBefore(e, log, g)
  {
    var n := |log| - 1;
    if k < n {
      WithoutSnoc(log, k);
      EmitsWithout(e, log[..n], k, g);
    } else {
      assert Without(log, k) == log[..n];
      EmittedFirst(e, log[..n], g);
      EmittedLast(e, log[..n], g);
      if log[k].objectGuid == g {
        EmitsUnmentioned(e, log[..n], g);
        EmitsUnmentioned(Absorbing(e, log[k]), log[..n], g);
      }
    }
  }

  lemma EmittedLast(e: Option<Record>, log: seq<Record>, g: Guid)
    ensures Emitted(EntryAfter(e, log, g)) <= Emits(e, log, g)
  {
  }

  lemma MentionsLast(log: seq<Record>, g: Guid)
    requires log != []
    ensures Mentions(log, g) <==> Mentions(log[..|log| - 1], g) || log[|log| - 1].objectGuid == g
  {
    assert log == log[..|log| - 1] + [log[|log| - 1]];
    MentionsMore(log[..|log| - 1], log[|log| - 1], g);
  }

  // e is what an entry would be, had it been written out at some point, f if not: a time that e
  // acknowledges f does too.
  predicate Lags(e: Option<Record>, f: Option<Record>) {
    e == f ||
    (&& f != None && f.value.optype in {Insert, Update, Flush, InsertWithFlush}
     && (e != None ==>
           && e.value.optype in {Update, Flush}
           && (e.value.optype == Flush ==> e.value.lastIsFlush)
           && (e.value.lastIsFlush ==> f.value.lastIsFlush && f.value.lastModifyTime == e.value.lastModifyTime)))
  }

  predicate Plain(r: Record) {
    r.optype in {Update, Flush} && !r.lastIsFlush
  }

  lemma LagsStep(e: Option<Record>, f: Option<Record>, r: Record)
    requires Lags(e, f) && (f != None ==> Plain(r))
    ensures Lags(Absorbing(e, r), Absorbing(f, r))
    ensures Emitted(e) <= Emitted(f)
  {
  }

  lemma {:induction false} EmitsLess(e: Option<Record>, f: Option<Record>, log: seq<Record>, g: Guid)
    requires Lags(e, f)
    requires f != None ==> forall i :: 0 <= i < |log| && log[i].objectGuid == g ==> Plain(log[i])
    ensures Emits(e, log, g) <= Emits(f, log, g) && EmitsBefore(e, log, g) <= EmitsBefore(f, log, g)
    ensures Lags(EntryAfter(e, log, g), EntryAfter(f, log, g))
  {
    if e == f {
    } else if log != [] {
      EmitsLess(e, f, log[..|log| - 1], g);
      if log[|log| - 1].objectGuid == g {
        LagsStep(EntryAfter(e, log[..|log| - 1], g), EntryAfter(f, log[..|log| - 1], g), log[|log| - 1]);
      }
    }
  }

  // ---------- The invariant ----------

  // Nothing about g is on its way to the database.
  predicate Settled(s: System, g: Guid) {
    !Mentions(s.cache.log, g) && g !in s.merged
  }

  // The types that the allowed requests log.
  predicate Ordinary(r: Record) {
    r.optype in {Insert, Update, Flush, InsertWithFlush}
  }

  // An insert is the first that anything knows of its guid.
  ghost predicate LogInOrder(s: System, g: Guid) {
    var log := s.cache.log;
    && (forall i :: 0 <= i < |log| && log[i].objectGuid == g ==> Ordinary(log[i]) && !log[i].lastIsFlush)
    && (forall i, j :: 0 <= i < j < |log| && log[i].objectGuid == g && log[j].objectGuid == g ==> !IsInsert(log[j]))
    && (g in s.merged || g in s.db ==>
          forall i :: 0 <= i < |log| && log[i].objectGuid == g ==> !IsInsert(log[i]))
  }

  ghost predicate MergedInOrder(s: System, g: Guid) {
    g in s.merged ==>
      s.merged[g].objectGuid == g && Ordinary(s.merged[g]) && (IsInsert(s.merged[g]) ==> g !in s.db)
  }

  ghost predicate KnownOnly(s: System, x: Ideal, g: Guid) {
    && (g in s.cache.entities || g in s.cache.expired || g in s.merged || g in s.db || Mentions(s.cache.log, g)
        ==> g in x.last)
    && (forall a :: a in s.acks && a.guid == g ==> g in x.last)
  }

  // No acknowledgement with time t of g has been sent, unless everything has arrived, and none can come
  // before the last record of g has been merged.
  ghost predicate Unacknowledged(s: System, g: Guid, t: nat) {
    && (Ack(g, t) in s.acks ==> Settled(s, g))
    && t !in EmitsBefore(Entry(s.merged, g), s.cache.log, g)
  }

  // Where the value of g is: in the entity map, in the expired store until the acknowledgement of its own
  // flush, or in the database with nothing on its way.
  ghost predicate Located(s: System, x: Ideal, g: Guid) {
    var c := s.cache;
    && (g in c.expired ==> !c.expired[g].isDelete)
    && (g in c.entities ==> g in x.last && c.entities[g] == x.last[g] && (g in c.expired ==> c.expired[g].inUse))
    && (g !in c.entities && g in c.expired ==>
          && g in x.last && c.expired[g].item == Some(x.last[g])
          && !c.expired[g].inUse && Unacknowledged(s, g, c.expired[g].lastModifyTime))
    && (g !in c.entities && g !in c.expired ==> Settled(s, g))
  }

  ghost predicate InvAt(s: System, x: Ideal, g: Guid) {
    && LogInOrder(s, g)
    && MergedInOrder(s, g)
    && KnownOnly(s, x, g)
    && Located(s, x, g)
  }

  ghost predicate LoadsSound(s: System, x: Ideal) {
    var c := s.cache;
    && (forall i :: 0 <= i < |c.loads| ==>
          && Settled(s, c.loads[i].guid) && c.loads[i].guid !in c.expired
          && (c.loads[i].read ==> c.loads[i].found == Cell(x.last, c.loads[i].guid))
          && (!c.loads[i].once ==> c.loads[i].guid !in c.entities))
    && (forall i, j :: 0 <= i < j < |c.loads| && !c.loads[i].once && !c.loads[j].once ==>
          c.loads[i].guid != c.loads[j].guid)
  }

  // Once everything on its way has arrived, the database is the ideal store.
  ghost predicate Converges(s: System, x: Ideal) {
    ApplyAll(Written(s.merged, s.db), s.cache.log) == x.last
  }

  ghost predicate Inv(s: System, x: Ideal) {
    && (forall g :: InvAt(s, x, g))
    && LoadsSound(s, x)
    && Converges(s, x)
  }

  // ---------- What a load may answer ----------

  ghost predicate Truthful(step: Step, reply: Reply, x: Ideal) {
    && reply != Crashed
    && (reply.Loaded? ==> Cell(x.last, reply.guid) == Some(reply.value))
    && (step.Answer? && reply.NotFound? ==> reply.guid !in x.last)
  }

  // A settled guid's row is its ideal value.
  lemma SettledInDb(s: System, x: Ideal, g: Guid)
    requires Converges(s, x) && Settled(s, g)
    ensures Cell(s.db, g) == Cell(x.last, g)
  {
    ApplyAllUnmentioned(Written(s.merged, s.db), s.cache.log, g);
    WrittenIsCellwise(s.merged, s.db, g);
  }

  // ---------- Clients ----------

  // Logging a write keeps the order of everything on its way, and what can be acknowledged before it is
  // what could be acknowledged at all.
  lemma LoggedInOrder(s: System, x: Ideal, t: System, r: Record, g: Guid)
    requires InvAt(s, x, g)
    requires t.merged == s.merged && t.db == s.db
    requires t.cache.log == s.cache.log + [r] && Ordinary(r) && !r.lastIsFlush
    requires r.objectGuid == g && IsInsert(r) ==> g !in x.last
    ensures LogInOrder(t, g) && MergedInOrder(t, g)
    ensures Mentions(t.cache.log, g) <==> Mentions(s.cache.log, g) || r.objectGuid == g
    ensures EmitsBefore(Entry(t.merged, g), t.cache.log, g)
            == if r.objectGuid == g then Emits(Entry(s.merged, g), s.cache.log, g)
               else EmitsBefore(Entry(s.merged, g), s.cache.log, g)
  {
    var log, log' := s.cache.log, t.cache.log;
    MentionsMore(log, r, g);
    assert forall i :: 0 <= i < |log| ==> log'[i] == log[i];
    assert log'[|log|] == r && log'[..|log|] == log;
    if r.objectGuid == g && IsInsert(r) {
      assert forall i :: 0 <= i < |log| ==> log[i].objectGuid != g;
    }
  }

  lemma ConvergesAfterWrite(s: System, x: Ideal, t: System, r: Record)
    requires Converges(s, x)
    requires t.merged == s.merged && t.db == s.db && t.cache.log == s.cache.log + [r]
    requires r.optype in {Insert, InsertWithFlush, Update, Flush}
    requires IsInsert(r) <==> r.objectGuid !in x.last
    ensures ApplyAll(Written(t.merged, t.db), t.cache.log) == x.last[r.objectGuid := r.stream]
  {
    var w := Written(s.merged, s.db);
    assert (s.cache.log + [r])[..|s.cache.log|] == s.cache.log;
    assert ApplyAll(w, t.cache.log) == WriteRecord(ApplyAll(w, s.cache.log), r);
  }

  lemma WriteRecordLogged(s: System, x: Ideal, q: Request)
    requires Inv(s, x) && Allowed(s, x, Client(q)) && Writes(s, Client(q))
    ensures var t := Next(s, Client(q)).0;
            && t == s.(cache := t.cache)
            && t.cache.loads == s.cache.loads
            && |t.cache.log| == |s.cache.log| + 1
            && var r := t.cache.log[|s.cache.log|];
               && t.cache.log == s.cache.log + [r]
               && r.objectGuid == q.guid && r.stream == q.stream && r.lastModifyTime == q.lastModifyTime
               && Ordinary(r) && !r.lastIsFlush
               && (IsInsert(r) <==> q.guid !in x.last)
  {
    assert InvAt(s, x, q.guid);
  }

  lemma WriteAt(s: System, x: Ideal, q: Request, h: Guid)
    requires Inv(s, x) && Allowed(s, x, Client(q)) && Writes(s, Client(q))
    ensures InvAt(Next(s, Client(q)).0, IdealNext(x, s, Client(q)), h)
  {
    var t, y := Next(s, Client(q)).0, IdealNext(x, s, Client(q));
    assert InvAt(s, x, h) && InvAt(s, x, q.guid);
    WriteRecordLogged(s, x, q);
    LoggedInOrder(s, x, t, t.cache.log[|s.cache.log|], h);
    if h !in x.last {
      EmitsUnmentioned(Entry(s.merged, h), s.cache.log, h);
    }
  }

  // A write by a client: the record is logged and the value moves to the entity map or to the
  // expired store.
  lemma WriteKeepsInv(s: System, x: Ideal, q: Request)
    requires Inv(s, x) && Allowed(s, x, Client(q)) && Writes(s, Client(q))
    ensures Inv(Next(s, Client(q)).0, IdealNext(x, s, Client(q)))
  {
    var t, y := Next(s, Client(q)).0, IdealNext(x, s, Client(q));
    forall h ensures InvAt(t, y, h) {
      WriteAt(s, x, q, h);
    }
    WriteRecordLogged(s, x, q);
    var r := t.cache.log[|s.cache.log|];
    ConvergesAfterWrite(s, x, t, r);
    forall i | 0 <= i < |t.cache.loads| ensures t.cache.loads[i].guid != q.guid && Settled(t, t.cache.loads[i].guid) {
      assert s.cache.loads[i] == t.cache.loads[i];
      MentionsMore(s.cache.log, r, t.cache.loads[i].guid);
    }
  }

  lemma ReadAt(s: System, x: Ideal, q: Request, h: Guid)
    requires InvAt(s, x, h) && InvAt(s, x, q.guid) && LoadsSound(s, x)
    requires Allowed(s, x, Client(q)) && !Writes(s, Client(q))
    ensures InvAt(Next(s, Client(q)).0, x, h)
    ensures Truthful(Client(q), Next(s, Client(q)).1, x)
  {
    var t := Next(s, Client(q)).0;
    assert t.merged == s.merged && t.db == s.db && t.acks == s.acks && t.cache.log == s.cache.log;
  }

  // Everything a client does apart from writing.
  lemma ReadKeepsInv(s: System, x: Ideal, q: Request)
    requires Inv(s, x) && Allowed(s, x, Client(q)) && !Writes(s, Client(q))
    ensures Inv(Next(s, Client(q)).0, x)
    ensures Truthful(Client(q), Next(s, Client(q)).1, x)
  {
    var t := Next(s, Client(q)).0;
    assert InvAt(s, x, q.guid);
    ReadAt(s, x, q, q.guid);
    forall h ensures InvAt(t, x, h) {
      assert InvAt(s, x, h);
      ReadAt(s, x, q, h);
    }
  }

  // ---------- The loader, the converter and the acknowledgements ----------

  lemma ReadStepKeepsInv(s: System, x: Ideal, i: nat)
    requires Inv(s, x) && i < |s.cache.loads|
    ensures Inv(Next(s, Read(i)).0, x)
  {
    var t := Next(s, Read(i)).0;
    SettledInDb(s, x, s.cache.loads[i].guid);
    forall h ensures InvAt(t, x, h) {
      assert InvAt(s, x, h);
    }
  }

  lemma AnswerAt(s: System, x: Ideal, i: nat, h: Guid)
    requires InvAt(s, x, h) && LoadsSound(s, x) && i < |s.cache.loads| && s.cache.loads[i].read
    ensures InvAt(Next(s, Answer(i)).0, x, h)
  {
    var t := Next(s, Answer(i)).0;
    assert t.merged == s.merged && t.db == s.db && t.acks == s.acks && t.cache.log == s.cache.log;
    assert t.cache.expired == s.cache.expired;
    assert LogInOrder(t, h) && MergedInOrder(t, h);
  }

  lemma AnswerKeepsLoads(s: System, x: Ideal, i: nat)
    requires LoadsSound(s, x) && i < |s.cache.loads| && s.cache.loads[i].read
    ensures LoadsSound(Next(s, Answer(i)).0, x)
  {
    var t := Next(s, Answer(i)).0;
    var ls, ls' := s.cache.loads, t.cache.loads;
    assert t.merged == s.merged && t.cache.log == s.cache.log && t.cache.expired == s.cache.expired;
    assert |ls'| == |ls| - 1;
    assert forall j :: 0 <= j < |ls'| ==> ls'[j] == if j < i then ls[j] else ls[j + 1];
    assert forall g :: g in t.cache.entities ==> g in s.cache.entities || (g == ls[i].guid && !ls[i].once);
  }

  lemma AnswerKeepsInv(s: System, x: Ideal, i: nat)
    requires Inv(s, x) && i < |s.cache.loads| && s.cache.loads[i].read
    ensures Inv(Next(s, Answer(i)).0, x)
    ensures Truthful(Answer(i), Next(s, Answer(i)).1, x)
  {
    var t := Next(s, Answer(i)).0;
    forall h ensures InvAt(t, x, h) {
      assert InvAt(s, x, h);
      AnswerAt(s, x, i, h);
    }
    AnswerKeepsLoads(s, x, i);
  }

  lemma DeliverKeepsInv(s: System, x: Ideal, a: Ack)
    requires Inv(s, x) && a in s.acks
    ensures Inv(Next(s, Deliver(a)).0, x)
  {
    var t := Next(s, Deliver(a)).0;
    assert InvAt(s, x, a.guid);
    forall h ensures InvAt(t, x, h) {
      assert InvAt(s, x, h);
    }
  }

  lemma WriteBatchAt(s: System, x: Ideal, h: Guid)
    requires InvAt(s, x, h)
    ensures InvAt(Next(s, WriteBatch).0, x, h)
  {
    var t, e, log := Next(s, WriteBatch).0, Entry(s.merged, h), s.cache.log;
    WrittenIsCellwise(s.merged, s.db, h);
    if e != None && Mentions(log, h) {
      EmitsLess(None, e, log, h);
      EmittedBefore(e, log, h);
    }
    EmitsUnmentionedIf(None, log, h);
  }

  lemma EmitsUnmentionedIf(e: Option<Record>, log: seq<Record>, g: Guid)
    ensures !Mentions(log, g) ==> EntryAfter(e, log, g) == e && EmitsBefore(e, log, g) == {}
  {
    if !Mentions(log, g) {
      EmitsUnmentioned(e, log, g);
    }
  }

  lemma WriteBatchKeepsInv(s: System, x: Ideal)
    requires Inv(s, x)
    ensures Inv(Next(s, WriteBatch).0, x)
  {
    var t := Next(s, WriteBatch).0;
    forall h ensures InvAt(t, x, h) {
      assert InvAt(s, x, h);
      WriteBatchAt(s, x, h);
    }
    forall h ensures Cell(Written(map[], t.db), h) == Cell(t.db, h) {
      WrittenIsCellwise(map[], t.db, h);
    }
    SameCells(Written(map[], t.db), t.db);
  }

  lemma WithoutFacts(log: seq<Record>, k: nat, g: Guid)
    requires k < |log|
    ensures var rest := Without(log, k);
            && |rest| == |log| - 1
            && (forall i :: 0 <= i < |rest| ==> rest[i] == log[if i < k then i else i + 1])
            && (Mentions(log, g) <==> log[k].objectGuid == g || Mentions(rest, g))
  {
    var rest := Without(log, k);
    if Mentions(log, g) && log[k].objectGuid != g {
      var i :| 0 <= i < |log| && log[i].objectGuid == g;
      assert rest[if i < k then i else i - 1].objectGuid == g;
    }
    if Mentions(rest, g) {
      var i :| 0 <= i < |rest| && rest[i].objectGuid == g;
      assert log[if i < k then i else i + 1].objectGuid == g;
    }
  }

  lemma ConvertKeepsOrder(s: System, x: Ideal, k: nat, h: Guid)
    requires InvAt(s, x, h) && FirstOfGuid(s.cache.log, k)
    ensures LogInOrder(Next(s, Convert(k)).0, h) && MergedInOrder(Next(s, Convert(k)).0, h)
  {
    WithoutFacts(s.cache.log, k, h);
    if s.cache.log[k].objectGuid == h && h in s.merged {
      AbsorbKeeps(s.merged[h], s.cache.log[k]);
    }
  }

  lemma ConvertAt(s: System, x: Ideal, k: nat, h: Guid)
    requires InvAt(s, x, h) && FirstOfGuid(s.cache.log, k)
    ensures InvAt(Next(s, Convert(k)).0, x, h)
  {
    var t := Next(s, Convert(k)).0;
    ConvertKeepsOrder(s, x, k, h);
    WithoutFacts(s.cache.log, k, h);
    EntryConverted(s, x, k, h);
    EmitsWithout(Entry(s.merged, h), s.cache.log, k, h);
  }

  lemma EntryConverted(s: System, x: Ideal, k: nat, h: Guid)
    requires InvAt(s, x, h) && FirstOfGuid(s.cache.log, k)
    ensures Entry(Next(s, Convert(k)).0.merged, h) == WithMerged(Entry(s.merged, h), s.cache.log, k, h)
  {
  }

  // The converter merges one record of the log.
  lemma ConvertKeepsInv(s: System, x: Ideal, k: nat)
    requires Inv(s, x) && FirstOfGuid(s.cache.log, k)
    ensures Inv(Next(s, Convert(k)).0, x)
  {
    var t, r := Next(s, Convert(k)).0, s.cache.log[k];
    forall h ensures InvAt(t, x, h) {
      assert InvAt(s, x, h);
      ConvertAt(s, x, k, h);
    }
    forall i | 0 <= i < |t.cache.loads| ensures Settled(t, t.cache.loads[i].guid) {
      WithoutFacts(s.cache.log, k, t.cache.loads[i].guid);
    }
    forall h ensures h in s.merged ==>
        s.merged[h].objectGuid == h && Logged(s.merged[h]) && (IsInsert(s.merged[h]) ==> h !in s.db)
    {
      assert InvAt(s, x, h);
    }
    assert InvAt(s, x, r.objectGuid);
    MergeMeansWrite(s.merged, s.db, "", r);
    ApplyFirst(Written(s.merged, s.db), s.cache.log, k);
  }

  // Of records of different guids either may be written first.
  lemma WritesCommute(db: Database, a: Record, b: Record)
    requires a.objectGuid != b.objectGuid
    ensures WriteRecord(WriteRecord(db, a), b) == WriteRecord(WriteRecord(db, b), a)
  {
    forall g ensures Cell(WriteRecord(WriteRecord(db, a), b), g) == Cell(WriteRecord(WriteRecord(db, b), a), g) {
      WriteRecordCell(db, a, g);
      WriteRecordCell(db, b, g);
      WriteRecordCell(WriteRecord(db, a), b, g);
      WriteRecordCell(WriteRecord(db, b), a, g);
    }
    SameCells(WriteRecord(WriteRecord(db, a), b), WriteRecord(WriteRecord(db, b), a));
  }

  lemma {:induction false} ApplyAfter(db: Database, log: seq<Record>, r: Record)
    requires !Mentions(log, r.objectGuid)
    ensures WriteRecord(ApplyAll(db, log), r) == ApplyAll(WriteRecord(db, r), log)
  {
    if log != [] {
      MentionsLast(log, r.objectGuid);
      ApplyAfter(db, log[..|log| - 1], r);
      WritesCommute(ApplyAll(db, log[..|log| - 1]), log[|log| - 1], r);
    }
  }

  // The first record of a guid may be written before the rest.
  lemma {:induction false} ApplyFirst(db: Database, log: seq<Record>, k: nat)
    requires FirstOfGuid(log, k)
    ensures ApplyAll(db, log) == ApplyAll(WriteRecord(db, log[k]), Without(log, k))
  {
    var n := |log| - 1;
    if k < n {
      WithoutSnoc(log, k);
      ApplyFirst(db, log[..n], k);
    } else {
      assert Without(log, k) == log[..n];
      ApplyAfter(db, log[..n], log[n]);
    }
  }

  // ---------- Every run ----------

  lemma StepCoherent(s: System, x: Ideal, step: Step)
    requires Inv(s, x) && Allowed(s, x, step)
    ensures Inv(Next(s, step).0, IdealNext(x, s, step))
    ensures Truthful(step, Next(s, step).1, x)
  {
    match step
    case Client(q) =>
      if Writes(s, step) {
        WriteKeepsInv(s, x, q);
      } else {
        ReadKeepsInv(s, x, q);
      }
    case Read(i) =>
      if i < |s.cache.loads| {
        ReadStepKeepsInv(s, x, i);
      }
    case Answer(i) =>
      if i < |s.cache.loads| && s.cache.loads[i].read {
        AnswerKeepsInv(s, x, i);
      }
    case Convert(k) =>
      if FirstOfGuid(s.cache.log, k) {
        ConvertKeepsInv(s, x, k);
      }
    case WriteBatch => WriteBatchKeepsInv(s, x);
    case Deliver(a) =>
      if a in s.acks {
        DeliverKeepsInv(s, x, a);
      }
  }

  // A freshly started server over an existing database.
  function Start(db0: Database, rows: nat): System {
    System(Cache(map[], map[], [], rows, []), map[], db0, {})
  }

  lemma StartInv(db0: Database, rows: nat)
    ensures Inv(Start(db0, rows), Ideal(db0, map[]))
  {
    var s := Start(db0, rows);
    forall g ensures Cell(Written(map[], db0), g) == Cell(db0, g) {
      WrittenIsCellwise(map[], db0, g);
    }
    SameCells(Written(map[], db0), db0);
  }

  // The state, the ideal store and the last reply after each step of a run.
  datatype Moment = Moment(s: System, x: Ideal, reply: Reply)

  function After(m: Moment, step: Step): Moment {
    var (t, reply) := Next(m.s, step);
    Moment(t, IdealNext(m.x, m.s, step), reply)
  }

  function Run(m: Moment, steps: seq<Step>): Moment {
    if steps == [] then m else After(Run(m, steps[..|steps| - 1]), steps[|steps| - 1])
  }

  ghost predicate Disciplined(m: Moment, steps: seq<Step>) {
    steps == [] ||
    (var before := Run(m, steps[..|steps| - 1]);
     Disciplined(m, steps[..|steps| - 1]) && Allowed(before.s, before.x, steps[|steps| - 1]))
  }

  // Every answer so far was truthful when it was given.
  ghost predicate Coherent(m: Moment, steps: seq<Step>) {
    steps == [] ||
    (var before := Run(m, steps[..|steps| - 1]);
     Coherent(m, steps[..|steps| - 1]) && Truthful(steps[|steps| - 1], Run(m, steps).reply, before.x))
  }

  lemma {:induction false} CoherentFrom(m: Moment, steps: seq<Step>)
    requires Inv(m.s, m.x) && Disciplined(m, steps)
    ensures Coherent(m, steps) && Inv(Run(m, steps).s, Run(m, steps).x)
  {
    if steps != [] {
      var n := |steps| - 1;
      CoherentFrom(m, steps[..n]);
      StepCoherent(Run(m, steps[..n]).s, Run(m, steps[..n]).x, steps[n]);
    }
  }

  // In every disciplined run, every load that is answered is answered with the value written
  // last, a failed load means that there is none, and nothing is ever lost on the way: what the
  // database will hold once the log is converted is the ideal store.
  lemma {:induction false} EveryLoadIsCoherent(db0: Database, rows: nat, steps: seq<Step>)
    requires Disciplined(Moment(Start(db0, rows), Ideal(db0, map[]), NoReply), steps)
    ensures var m := Moment(Start(db0, rows), Ideal(db0, map[]), NoReply);
            && Coherent(m, steps)
            && Converges(Run(m, steps).s, Run(m, steps).x)
  {
    StartInv(db0, rows);
    CoherentFrom(Moment(Start(db0, rows), Ideal(db0, map[]), NoReply), steps);
  }
}
