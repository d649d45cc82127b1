// What the cache server owes its clients: a load is answered, at once or when the database loader comes
// back, and so is every other request but one; what is logged reaches the database, and what is acknowledged
// leaves the expired store (cachesys/src/EntityHander.cpp:200-366).
module Answers {
  import opened Records
  import opened CacheState
  import opened Coherence
  import opened FlushTiming
  import opened Pipeline
  import Transactions

  // ---------- Requests other than loads ----------

  // Who is told that it is done, and who that there is no such entity.
  lemma RepliesExact(c: Cache, q: Request)
    ensures var reply := Handle(c, q).1;
            && (reply == Done(q.guid) <==>
                  || q.opcode in {NewEntity, NewEntityWithFlush, RemoveEntity}
                  || (q.opcode == FlushEntity && q.guid in c.entities)
                  || (q.opcode == UpdateEntity && q.stream != ""))
            && (reply == NotFound(q.guid) <==>
                  || (q.opcode == FlushEntity && q.guid !in c.entities)
                  || (q.opcode == UpdateEntity && q.stream == ""))
            && (q.opcode == OnlyRemoveEntity ==> reply == NoReply)
            && (reply.Loaded? ==> q.opcode in {LoadEntity, LoadEntityOnce})
  {
  }

  // Which requests leave a record, in whatever state: one, of the request's entity, with the next row number.
  lemma LoggedExact(c: Cache, q: Request)
    ensures var d := Handle(c, q).0;
            if q.opcode in {NewEntityWithFlush, RemoveEntity}
              || (q.opcode == NewEntity && q.stream != "" && q.guid !in c.entities)
              || (q.opcode == FlushEntity && q.guid in c.entities)
              || (q.opcode == UpdateEntity && q.stream != "")
            then
              && d.rows == c.rows + 1 && |d.log| == |c.log| + 1 && d.log[..|c.log|] == c.log
              && var r := d.log[|c.log|];
                 && r.guid == d.rows && r.objectGuid == q.guid && r.stream == q.stream
                 && r.lastModifyTime == q.lastModifyTime && !r.lastIsFlush
                 && (IsInsert(r) <==> q.opcode in {NewEntity, NewEntityWithFlush})
                 && (IsFlush(r) <==> q.opcode in {NewEntityWithFlush, FlushEntity})
                 && (r.optype == Remove <==> q.opcode == RemoveEntity)
                 && r.transactionIndex == q.transactionIndex && r.transactionNum == q.transactionNum
                 && r.transactionId == q.transactionId && r.lineId == q.lineId
            else d.rows == c.rows && d.log == c.log
  {
  }

  predicate SameElsewhere(c: Cache, d: Cache, g: Guid) {
    d.entities - {g} == c.entities - {g} && d.expired - {g} == c.expired - {g}
  }

  // A removed entity is in neither store, whatever was there; a load of it asks the database; and when the
  // log has been written there is no row, whatever the database held.
  lemma RemovedIsGone(c: Cache, q: Request, load: Request, db: Database)
    requires q.opcode == RemoveEntity
    requires load.guid == q.guid && load.opcode in {LoadEntity, LoadEntityOnce}
    ensures var d := Handle(c, q).0;
            && q.guid !in d.entities && !Expired(d.expired, q.guid)
            && (q.guid in d.expired <==> q.guid in c.expired)
            && SameElsewhere(c, d, q.guid) && d.loads == c.loads
            && |d.log| == |c.log| + 1 && d.log[..|c.log|] == c.log
            && Handle(d, load).1 == NoReply
            && Handle(d, load).0.loads == c.loads + [DbLoad(q.guid, load.opcode == LoadEntityOnce, false, None)]
            && (forall g :: Cell(ApplyAll(db, d.log), g) == if g == q.guid then None else Cell(ApplyAll(db, c.log), g))
  {
    var d := Handle(c, q).0;
    assert d.log[..|d.log| - 1] == c.log;
    assert d.log[|c.log|].optype == Remove && d.log[|c.log|].objectGuid == q.guid;
    forall g ensures Cell(ApplyAll(db, d.log), g) == if g == q.guid then None else Cell(ApplyAll(db, c.log), g) {
      WriteRecordCell(ApplyAll(db, c.log), d.log[|c.log|], g);
    }
  }

  // ---------- Loads ----------

  predicate IsLoad(step: Step, g: Guid) {
    step.Client? && step.request.guid == g && step.request.opcode in {LoadEntity, LoadEntityOnce}
  }

  // In any state a load is answered with what is stored or handed to the loader, except where the expired store
  // has an entry without an entity: there a plain load is not answered at all, and a load for once crashes.
  lemma UnansweredExact(c: Cache, q: Request)
    requires q.opcode in {LoadEntity, LoadEntityOnce}
    ensures var (d, reply), g := Handle(c, q), q.guid;
            && (!reply.Loaded? && d.loads == c.loads
                <==> g !in c.entities && Expired(c.expired, g) && c.expired[g].item == None)
            && (!reply.Loaded? && d.loads == c.loads
                ==> reply == if q.opcode == LoadEntity then NoReply else Crashed)
            && (reply.Loaded? ==> reply.guid == g && d.loads == c.loads)
            && (!reply.Loaded? && d.loads != c.loads ==>
                  reply == NoReply && d.loads == c.loads + [DbLoad(g, q.opcode == LoadEntityOnce, false, None)])
  {
    assert |c.loads + [DbLoad(q.guid, q.opcode == LoadEntityOnce, false, None)]| == |c.loads| + 1;
  }

  // Creating an entity with flush and without data leads there, from any state in which it is not loaded.
  lemma EmptyCreationIsUnanswered(c: Cache, q: Request, load: Request)
    requires q.opcode == NewEntityWithFlush && q.stream == "" && q.guid !in c.entities
    requires load.opcode == LoadEntity && load.guid == q.guid
    ensures Handle(c, q).1 == Done(q.guid)
    ensures var (d, reply) := Handle(Handle(c, q).0, load); reply == NoReply && d.loads == c.loads
  {
  }

  // A load of an entity that is in one of the two stores is answered at once with the value written last, and
  // a plain one loads it; any other is handed to the database loader.
  lemma LoadIsAnswered(s: System, x: Ideal, q: Request)
    requires Inv(s, x) && Allowed(s, x, Client(q)) && IsLoad(Client(q), q.guid)
    ensures var (t, reply) := Next(s, Client(q));
            if q.guid in s.cache.entities || q.guid in s.cache.expired then
              && q.guid in x.last && reply == Loaded(q.guid, x.last[q.guid])
              && t.cache.loads == s.cache.loads
              && (q.opcode == LoadEntity ==> Cell(t.cache.entities, q.guid) == Some(x.last[q.guid]))
              && (q.opcode == LoadEntityOnce ==> t == s)
            else
              && reply == NoReply
              && t == s.(cache := s.cache.(loads :=
                   s.cache.loads + [DbLoad(q.guid, q.opcode == LoadEntityOnce, false, None)]))
  {
    assert InvAt(s, x, q.guid);
  }

  // When the loader has looked, its answer is passed on: the value written last, or that there is none. A
  // plain load loads the entity.
  lemma ReadLoadIsAnswered(s: System, x: Ideal, i: nat)
    requires Inv(s, x) && i < |s.cache.loads| && s.cache.loads[i].read
    ensures var (t, reply), load := Next(s, Answer(i)), s.cache.loads[i];
            && reply == (if load.guid in x.last then Loaded(load.guid, x.last[load.guid]) else NotFound(load.guid))
            && t.cache.loads == s.cache.loads[..i] + s.cache.loads[i + 1..]
            && (!load.once ==> Cell(t.cache.entities, load.guid) == Cell(x.last, load.guid))
            && (load.once ==> t.cache.entities == s.cache.entities)
  {
    assert InvAt(s, x, s.cache.loads[i].guid);
  }

  // An acknowledged flush is out of the expired store: from then on the database answers.
  lemma AcknowledgedIsDropped(s: System, x: Ideal, g: Guid)
    requires Inv(s, x) && g in s.cache.expired && g !in s.cache.entities
    requires Ack(g, s.cache.expired[g].lastModifyTime) in s.acks
    ensures var (t, _) := Next(s, Deliver(Ack(g, s.cache.expired[g].lastModifyTime)));
            && t.cache.expired == s.cache.expired - {g}
            && t == s.(cache := s.cache.(expired := t.cache.expired))
            && Cell(t.db, g) == Cell(x.last, g) && g in x.last
  {
    assert InvAt(s, x, g);
    SettledInDb(s, x, g);
  }

  // Which entries of the expired store an acknowledgement drops: that of its guid, if it is in use again or has
  // its time; nothing else changes.
  lemma DeliverExact(s: System, a: Ack, g: Guid)
    requires a in s.acks
    ensures var (t, _) := Next(s, Deliver(a));
            && t == s.(cache := s.cache.(expired := t.cache.expired))
            && (g in t.cache.expired <==>
                  && g in s.cache.expired
                  && var e := s.cache.expired[g]; g == a.guid ==> !e.inUse && e.lastModifyTime != a.lastModifyTime)
            && (g in t.cache.expired ==> t.cache.expired[g] == s.cache.expired[g])
  {
  }

  // A flush moves the entity to the expired store under its time, logs it last, and is replied to.
  lemma FlushMoves(c: Cache, q: Request)
    requires q.opcode == FlushEntity && q.guid in c.entities
    ensures var (d, reply) := Handle(c, q);
            && reply == Done(q.guid)
            && q.guid !in d.entities
            && q.guid in d.expired && d.expired[q.guid] == ExpiredItem(q.lastModifyTime, false, false, q.Entity())
            && d.log != [] && var r := d.log[|d.log| - 1];
                              r.objectGuid == q.guid && r.optype == Flush && r.lastModifyTime == q.lastModifyTime
  {
  }

  lemma {:induction false} BackgroundKeepsStore(m: Moment, steps: seq<Step>)
    requires AllBackground(steps)
    ensures Run(m, steps).s.cache.expired == m.s.cache.expired
  {
    if steps != [] {
      BackgroundKeepsStore(m, steps[..|steps| - 1]);
      assert Background(steps[|steps| - 1]);
    }
  }

  // Every flush can be acknowledged, after some steps of the converter, and its acknowledgement takes the entity
  // out of the expired store, with the flushed value in the database.
  lemma FlushLeavesTheStore(m: Moment, q: Request, n: Moment) returns (steps: seq<Step>)
    requires Inv(m.s, m.x) && Allowed(m.s, m.x, Client(q)) && n == After(m, Client(q))
    requires q.opcode == FlushEntity && q.guid in m.s.cache.entities
    ensures AllBackground(steps)
    ensures var k, a := Run(n, steps).s, Ack(q.guid, q.lastModifyTime);
            && a in k.acks
            && var t := Next(k, Deliver(a)).0;
               q.guid !in t.cache.entities && q.guid !in t.cache.expired && Cell(t.db, q.guid) == Some(q.stream)
  {
    var g, t := q.guid, q.lastModifyTime;
    FlushMoves(m.s.cache, q);
    StepCoherent(m.s, m.x, Client(q));
    PendingFlushIsObtainable(n.s, n.x, g, |n.s.cache.log| - 1);
    steps := ObtainableIsSent(n, g, t);
    BackgroundRun(n, steps, g, t);
    BackgroundKeepsStore(n, steps);
    AcknowledgedIsDropped(Run(n, steps).s, Run(n, steps).x, g);
  }

  // ---------- Loads in a run ----------

  // How many loads of the guid are at the loader.
  function Waiting(loads: seq<DbLoad>, g: Guid): nat {
    if loads == [] then 0
    else Waiting(loads[..|loads| - 1], g) + (if loads[|loads| - 1].guid == g then 1 else 0)
  }

  // The reply to a step answers a load of the guid: with a value, or with the loader's finding none.
  predicate AnswersLoad(step: Step, reply: Reply, g: Guid) {
    (reply.Loaded? && reply.guid == g) || (step.Answer? && reply == NotFound(g))
  }

  function Loads(steps: seq<Step>, g: Guid): nat {
    if steps == [] then 0
    else Loads(steps[..|steps| - 1], g) + (if IsLoad(steps[|steps| - 1], g) then 1 else 0)
  }

  function Answered(m: Moment, steps: seq<Step>, g: Guid): nat {
    if steps == [] then 0
    else Answered(m, steps[..|steps| - 1], g)
         + (if AnswersLoad(steps[|steps| - 1], Run(m, steps).reply, g) then 1 else 0)
  }

  lemma WaitingSnoc(loads: seq<DbLoad>, load: DbLoad, g: Guid)
    ensures Waiting(loads + [load], g) == Waiting(loads, g) + (if load.guid == g then 1 else 0)
  {
    assert (loads + [load])[..|loads|] == loads;
  }

  lemma {:induction false} WaitingWithout(loads: seq<DbLoad>, i: nat, g: Guid)
    requires i < |loads|
    ensures Waiting(loads, g) == Waiting(loads[..i] + loads[i + 1..], g) + (if loads[i].guid == g then 1 else 0)
  {
    var n := |loads| - 1;
    if i == n {
      assert loads[..i] + loads[i + 1..] == loads[..n];
    } else {
      WaitingWithout(loads[..n], i, g);
      assert loads[..i] + loads[i + 1..] == loads[..n][..i] + loads[..n][i + 1..] + [loads[n]];
      WaitingSnoc(loads[..n][..i] + loads[..n][i + 1..], loads[n], g);
    }
  }

  lemma {:induction false} WaitingUpdated(loads: seq<DbLoad>, i: nat, load: DbLoad, g: Guid)
    requires i < |loads| && load.guid == loads[i].guid
    ensures Waiting(loads[i := load], g) == Waiting(loads, g)
  {
    var n := |loads| - 1;
    if i < n {
      WaitingUpdated(loads[..n], i, load, g);
      assert loads[i := load][..n] == loads[..n][i := load];
    } else {
      assert loads[i := load][..n] == loads[..n];
    }
  }

  // One step: a load is answered or joins those at the loader, and none leaves them unanswered.
  lemma StepAccounts(s: System, x: Ideal, step: Step, g: Guid)
    requires Inv(s, x) && Allowed(s, x, step)
    ensures var (t, reply) := Next(s, step);
            Waiting(s.cache.loads, g) + (if IsLoad(step, g) then 1 else 0)
            == Waiting(t.cache.loads, g) + (if AnswersLoad(step, reply, g) then 1 else 0)
  {
    match step
    case Client(q) =>
      RepliesExact(s.cache, q);
      if IsLoad(step, q.guid) {
        LoadIsAnswered(s, x, q);
        WaitingSnoc(s.cache.loads, DbLoad(q.guid, q.opcode == LoadEntityOnce, false, None), g);
      } else {
        OthersLeaveLoads(s.cache, q);
      }
    case Read(i) =>
      if i < |s.cache.loads| {
        WaitingUpdated(s.cache.loads, i, Next(s, step).0.cache.loads[i], g);
      }
    case Answer(i) =>
      if i < |s.cache.loads| && s.cache.loads[i].read {
        ReadLoadIsAnswered(s, x, i);
        WaitingWithout(s.cache.loads, i, g);
      }
    case _ =>
  }

  lemma OthersLeaveLoads(c: Cache, q: Request)
    requires q.opcode !in {LoadEntity, LoadEntityOnce}
    ensures Handle(c, q).0.loads == c.loads
  {
  }

  lemma {:induction false} LoadsAccounted(m: Moment, steps: seq<Step>, g: Guid)
    requires Inv(m.s, m.x) && Disciplined(m, steps)
    ensures Waiting(m.s.cache.loads, g) + Loads(steps, g)
            == Answered(m, steps, g) + Waiting(Run(m, steps).s.cache.loads, g)
  {
    if steps != [] {
      var n := |steps| - 1;
      LoadsAccounted(m, steps[..n], g);
      CoherentFrom(m, steps[..n]);
      StepAccounts(Run(m, steps[..n]).s, Run(m, steps[..n]).x, steps[n], g);
    }
  }

  // In every disciplined run every load has been answered or is at the loader.
  lemma EveryLoadIsAnswered(db0: Database, rows: nat, steps: seq<Step>, g: Guid)
    requires Disciplined(Moment(Start(db0, rows), Ideal(db0, map[]), NoReply), steps)
    ensures var m := Moment(Start(db0, rows), Ideal(db0, map[]), NoReply);
            Loads(steps, g) == Answered(m, steps, g) + Waiting(Run(m, steps).s.cache.loads, g)
  {
    StartInv(db0, rows);
    LoadsAccounted(Moment(Start(db0, rows), Ideal(db0, map[]), NoReply), steps, g);
  }

  // ---------- The loader comes back ----------

  predicate LoaderStep(step: Step) {
    step.Read? || step.Answer?
  }

  predicate AllLoader(steps: seq<Step>) {
    forall i :: 0 <= i < |steps| ==> LoaderStep(steps[i])
  }

  lemma LoaderRun(m: Moment, steps: seq<Step>, step: Step)
    requires Disciplined(m, steps) && AllLoader(steps) && LoaderStep(step)
    ensures Disciplined(m, steps + [step]) && AllLoader(steps + [step])
    ensures Run(m, steps + [step]) == After(Run(m, steps), step)
  {
    assert (steps + [step])[..|steps|] == steps;
  }

  lemma LoaderAnswersOne(m: Moment)
    requires m.s.cache.loads != []
    ensures |After(After(m, Read(0)), Answer(0)).s.cache.loads| == |m.s.cache.loads| - 1
  {
  }

  // From any moment on the loader can answer all that is waiting.
  lemma {:induction false} LoaderAnswersAll(m: Moment, n: nat) returns (more: seq<Step>)
    requires n <= |m.s.cache.loads|
    ensures AllLoader(more) && Disciplined(m, more)
    ensures |Run(m, more).s.cache.loads| == |m.s.cache.loads| - n
  {
    if n == 0 {
      more := [];
    } else {
      var some := LoaderAnswersAll(m, n - 1);
      LoaderAnswersOne(Run(m, some));
      LoaderRun(m, some, Read(0));
      LoaderRun(m, some + [Read(0)], Answer(0));
      more := some + [Read(0)] + [Answer(0)];
    }
  }

  lemma {:induction false} LoaderAsksNothing(steps: seq<Step>, g: Guid)
    requires AllLoader(steps)
    ensures Loads(steps, g) == 0
  {
    if steps != [] {
      LoaderAsksNothing(steps[..|steps| - 1], g);
      assert LoaderStep(steps[|steps| - 1]);
    }
  }

  // So once it has come back for what was waiting, all loads of the run, and of each guid, are answered.
  lemma AllLoadsAnswered(db0: Database, rows: nat, steps: seq<Step>) returns (more: seq<Step>)
    requires Disciplined(Moment(Start(db0, rows), Ideal(db0, map[]), NoReply), steps)
    ensures var m := Moment(Start(db0, rows), Ideal(db0, map[]), NoReply);
            var after := Run(m, steps);
            && AllLoader(more) && Disciplined(after, more) && Run(after, more).s.cache.loads == []
            && forall g :: Loads(steps, g) == Answered(m, steps, g) + Answered(after, more, g)
  {
    var m := Moment(Start(db0, rows), Ideal(db0, map[]), NoReply);
    var after := Run(m, steps);
    StartInv(db0, rows);
    CoherentFrom(m, steps);
    more := LoaderAnswersAll(after, |after.s.cache.loads|);
    forall g ensures Loads(steps, g) == Answered(m, steps, g) + Answered(after, more, g) {
      EveryLoadIsAnswered(db0, rows, steps, g);
      LoadsAccounted(after, more, g);
      LoaderAsksNothing(more, g);
    }
  }

  // ---------- With the converter as it is ----------

  predicate JointLoad(e: JointStep, g: Guid) {
    e.Other? && IsLoad(e.step, g)
  }

  function JointLoads(es: seq<JointStep>, g: Guid): nat {
    if es == [] then 0
    else JointLoads(es[..|es| - 1], g) + (if JointLoad(es[|es| - 1], g) then 1 else 0)
  }

  function JointAnswered(j: Joint, es: seq<JointStep>, g: Guid): nat {
    if es == [] then 0
    else
      var e := es[|es| - 1];
      JointAnswered(j, es[..|es| - 1], g)
      + (if e.Other? && AnswersLoad(e.step, JointRun(j, es).reply, g) then 1 else 0)
  }

  lemma JointStepAccounts(j: Joint, e: JointStep, g: Guid)
    requires JointInv(j) && JointAllowed(j, e)
    ensures var k := JointNext(j, e);
            Waiting(j.cache.loads, g) + (if JointLoad(e, g) then 1 else 0)
            == Waiting(k.cache.loads, g) + (if e.Other? && AnswersLoad(e.step, k.reply, g) then 1 else 0)
  {
    if e.Other? {
      OtherSeen(j, e.step);
      StepAccounts(Seen(j), j.x, e.step, g);
    }
  }

  lemma {:induction false} JointLoadsAccounted(j: Joint, es: seq<JointStep>, g: Guid)
    requires JointInv(j) && JointDisciplined(j, es)
    ensures Waiting(j.cache.loads, g) + JointLoads(es, g)
            == JointAnswered(j, es, g) + Waiting(JointRun(j, es).cache.loads, g)
  {
    if es != [] {
      var n := |es| - 1;
      JointLoadsAccounted(j, es[..n], g);
      JointRunKeeps(j, es[..n]);
      JointStepAccounts(JointRun(j, es[..n]), es[n], g);
    }
  }

  // The same of every run of server and converter together.
  lemma EveryLoadIsAnsweredWithTransactions(db0: Database, rows: nat, es: seq<JointStep>, g: Guid)
    requires JointDisciplined(JointStart(db0, rows), es)
    ensures var j := JointStart(db0, rows);
            JointLoads(es, g) == JointAnswered(j, es, g) + Waiting(JointRun(j, es).cache.loads, g)
  {
    var j := JointStart(db0, rows);
    StartInv(db0, rows);
    assert [] + j.cache.log == j.cache.log;
    assert forall k :: Transactions.OfKey([], k) == Transactions.Waiting(map[], k);
    JointLoadsAccounted(j, es, g);
  }

  // ---------- What is logged ----------

  // Once the log is empty a write-out leaves the value written last of every guid in the database.
  lemma WrittenOut(s: System, x: Ideal)
    requires Converges(s, x) && s.cache.log == []
    ensures Next(s, WriteBatch).0.db == x.last
  {
  }

  // The converter can go on so that the database holds the value written last of every guid, with nothing in
  // the log and nothing merged.
  ghost predicate CaughtUp(m: Moment, steps: seq<Step>) {
    var n := Run(m, steps);
    n.s.db == m.x.last && n.x == m.x && n.s.cache.log == [] && n.s.merged == map[]
  }

  lemma CatchesUp(m: Moment, k: nat)
    requires Inv(m.s, m.x) && k == |m.s.cache.log|
    ensures CaughtUp(m, Converts(k) + [WriteBatch])
  {
    RunConverts(m, k, 0);
    BackgroundRun(m, Converts(k), 0, 0);
    WrittenOut(Run(m, Converts(k)).s, Run(m, Converts(k)).x);
    RunNext(m, Converts(k), WriteBatch);
  }

  // It can after every disciplined run.
  lemma DatabaseCatchesUp(db0: Database, rows: nat, steps: seq<Step>)
    requires Disciplined(Moment(Start(db0, rows), Ideal(db0, map[]), NoReply), steps)
    ensures var after := Run(Moment(Start(db0, rows), Ideal(db0, map[]), NoReply), steps);
            CaughtUp(after, Converts(|after.s.cache.log|) + [WriteBatch])
  {
    var m := Moment(Start(db0, rows), Ideal(db0, map[]), NoReply);
    StartInv(db0, rows);
    CoherentFrom(m, steps);
    CatchesUp(Run(m, steps), |Run(m, steps).s.cache.log|);
  }

  function Reads(n: nat): seq<JointStep> {
    seq(n, _ => ReadRecord)
  }

  lemma ReadNext(j: Joint, log: seq<Record>, n: nat)
    requires n < |log| && j.cache.log == log[n..]
    ensures var k := JointNext(j, ReadRecord); k.cache == j.cache.(log := log[n + 1..]) && k.x == j.x
  {
    assert log[n..][1..] == log[n + 1..];
  }

  // Reading empties the log, whatever waits.
  lemma {:induction false} ReadingEmptiesLog(j: Joint, n: nat)
    requires n <= |j.cache.log|
    ensures var k := JointRun(j, Reads(n)); k.cache == j.cache.(log := j.cache.log[n..]) && k.x == j.x
  {
    var log := j.cache.log;
    if n == 0 {
      assert log[0..] == log && Reads(0) == [];
    } else {
      ReadingEmptiesLog(j, n - 1);
      assert Reads(n)[..n - 1] == Reads(n - 1);
      ReadNext(JointRun(j, Reads(n - 1)), log, n - 1);
    }
  }

  // When nothing waits for its transaction either, a write-out brings the database up to date.
  lemma NothingWaitsMeansWritten(j: Joint)
    requires JointInv(j) && j.cache.log == [] && j.waiting == []
    ensures JointNext(j, Other(WriteBatch)).conv.db == j.x.last
  {
    assert Seen(j).cache.log == [];
    WrittenOut(Seen(j), j.x);
  }
}
