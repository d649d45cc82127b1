// The cache server and the converter as they are put together: collectTransaction stands between the log
// and the merger and keeps records back until their transaction is complete
// (convertsys/src/ManageSQLiteFile.cpp:385-436). In the system of Coherence the log also holds what waits.
module Pipeline {
  import opened Records
  import opened Transactions
  import MergeRecords
  import opened Converter
  import opened CacheState
  import opened Coherence
  import opened FlushTiming

  // The cache server, whose log is what the converter has not read yet, and the converter. `waiting` lists
  // what waits for its transaction, in the order of arrival; the ideal store and the last reply as before.
  datatype Joint = Joint(cache: Cache, conv: State, waiting: seq<Record>, x: Ideal, reply: Reply)

  // A step of clients, loader, acknowledgements and write-outs, or the converter reads one record.
  datatype JointStep = Other(step: Step) | ReadRecord

  function SystemOf(cache: Cache, conv: State): System {
    System(cache, conv.merged, conv.db, conv.acks)
  }

  function NotOfKey(rs: seq<Record>, k: Key): seq<Record> {
    if rs == [] then [] else (if KeyOf(rs[0]) != k then [rs[0]] else []) + NotOfKey(rs[1..], k)
  }

  function StillWaiting(waiting: seq<Record>, p: Pending, r: Record): seq<Record> {
    if Collect(p, r).1 == [] then waiting + [r]
    else if r.transactionNum == 1 then waiting
    else NotOfKey(waiting, KeyOf(r))
  }

  function JointNext(j: Joint, e: JointStep): Joint {
    match e
    case Other(step) =>
      var s := SystemOf(j.cache, j.conv);
      var (t, reply) := Next(s, step);
      Joint(t.cache, State(j.conv.pending, t.merged, t.db, t.acks), j.waiting, IdealNext(j.x, s, step), reply)
    case ReadRecord =>
      if j.cache.log == [] then j
      else
        var r := j.cache.log[0];
        j.(cache := j.cache.(log := j.cache.log[1..]),
           conv := Accept(j.conv, "", r),
           waiting := StillWaiting(j.waiting, j.conv.pending, r))
  }

  // The joint state as the system of Coherence.
  function Seen(j: Joint): System {
    SystemOf(j.cache.(log := j.waiting + j.cache.log), j.conv)
  }

  ghost predicate WaitingMatches(waiting: seq<Record>, p: Pending) {
    forall k :: OfKey(waiting, k) == Waiting(p, k)
  }

  // The record leaves the waiting ones when r is released with its transaction.
  predicate Leaves(u: Record, r: Record) {
    r.transactionNum != 1 && KeyOf(u) == KeyOf(r)
  }

  // When r is released, alone or with its transaction, no record that goes on waiting came before one of
  // the same guid that is released.
  ghost predicate KeepsOrder(waiting: seq<Record>, p: Pending, r: Record) {
    Collect(p, r).1 != [] ==>
      && (forall i :: 0 <= i < |waiting| && !Leaves(waiting[i], r) ==> waiting[i].objectGuid != r.objectGuid)
      && forall i, j :: 0 <= i < j < |waiting| && !Leaves(waiting[i], r) && Leaves(waiting[j], r) ==>
           waiting[i].objectGuid != waiting[j].objectGuid
  }

  // ---------- Everything but the converter's reading ----------

  function Behind(w: seq<Record>, c: Cache): Cache {
    c.(log := w + c.log)
  }

  lemma LogBehind(c: Cache, w: seq<Record>, q: Request, t: RecordType)
    ensures Log(Behind(w, c), q, t) == Behind(w, Log(c, q, t))
  {
    assert w + (c.log + [RecordOf(c, q, t)]) == w + c.log + [RecordOf(c, q, t)];
  }

  lemma HandleBehind(c: Cache, w: seq<Record>, q: Request)
    ensures Handle(Behind(w, c), q) == (Behind(w, Handle(c, q).0), Handle(c, q).1)
  {
    match q.opcode
    case NewEntity => LogBehind(Add(c, q.guid, q.Entity()), w, q, Insert);
    case NewEntityWithFlush =>
      LogBehind(c.(expired := Expire(c.expired, q.guid, q.Entity(), q.lastModifyTime)), w, q, InsertWithFlush);
    case FlushEntity => LogBehind(c.(expired := Expire(c.expired, q.guid, q.Entity(), q.lastModifyTime)), w, q, Flush);
    case UpdateEntity => LogBehind(c, w, q, Update);
    case RemoveEntity => LogBehind(c.(expired := ExpireToDelete(c.expired, q.guid)), w, q, Remove);
    case _ =>
  }

  // What waits does not show.
  lemma OtherSeen(j: Joint, step: Step)
    requires !step.Convert?
    ensures var k := JointNext(j, Other(step));
            && Next(Seen(j), step) == (Seen(k), k.reply)
            && k.x == IdealNext(j.x, Seen(j), step)
  {
    if step.Client? {
      HandleBehind(j.cache, j.waiting, step.request);
    }
  }

  // ---------- Reading a record ----------

  lemma NotOfKeyKeeps(rs: seq<Record>, k: Key, j: Key)
    ensures OfKey(NotOfKey(rs, k), j) == if j == k then [] else OfKey(rs, j)
  {
    if rs != [] {
      NotOfKeyKeeps(rs[1..], k, j);
      var head := if KeyOf(rs[0]) != k then [rs[0]] else [];
      assert rs == [rs[0]] + rs[1..];
      OfKeyConcat([rs[0]], rs[1..], j);
      OfKeyConcat(head, NotOfKey(rs[1..], k), j);
      OfKeyUniform([rs[0]], KeyOf(rs[0]), j);
      OfKeyUniform(head, KeyOf(rs[0]), j);
    }
  }

  lemma MatchesKeysHold(waiting: seq<Record>, p: Pending)
    requires WaitingMatches(waiting, p)
    ensures KeysHold(p)
  {
    forall k ensures AllOfKey(Waiting(p, k), k) {
      OfKeyIsOfKey(waiting, k);
      assert OfKey(waiting, k) == Waiting(p, k);
    }
  }

  lemma {:induction false} OfKeyIsOfKey(rs: seq<Record>, k: Key)
    ensures AllOfKey(OfKey(rs, k), k)
  {
    if rs != [] {
      OfKeyIsOfKey(rs[..|rs| - 1], k);
    }
  }

  // What Collect does to the waiting records of a key.
  lemma CollectWaiting(p: Pending, r: Record, k: Key)
    ensures var (q, group) := Collect(p, r);
            && (group != [] ==> group == (if r.transactionNum == 1 then [] else Waiting(p, KeyOf(r))) + [r])
            && Waiting(q, k) == (if group == [] then Waiting(p, k) + (if k == KeyOf(r) then [r] else [])
                                 else if r.transactionNum != 1 && k == KeyOf(r) then [] else Waiting(p, k))
  {
    assert Waiting(p, k) + [] == Waiting(p, k) && [] + [r] == [r];
  }

  lemma StillMatches(waiting: seq<Record>, p: Pending, r: Record)
    requires WaitingMatches(waiting, p)
    ensures WaitingMatches(StillWaiting(waiting, p, r), Collect(p, r).0)
  {
    forall k ensures OfKey(StillWaiting(waiting, p, r), k) == Waiting(Collect(p, r).0, k) {
      assert OfKey(waiting, k) == Waiting(p, k);
      CollectWaiting(p, r, k);
      NotOfKeyKeeps(waiting, KeyOf(r), k);
      assert (waiting + [r])[..|waiting|] == waiting;
    }
  }

  // A system that has the converter's state.
  predicate Runs(s: System, c: State) {
    s.merged == c.merged && s.db == c.db && s.acks == c.acks
  }

  // Converter steps that leave a log and a converter state behind and nothing else changed.
  ghost predicate Reaches(m: Moment, steps: seq<Step>, log: seq<Record>, c: State) {
    var n := Run(m, steps);
    AllBackground(steps) && n.s.cache == m.s.cache.(log := log) && n.x == m.x && Runs(n.s, c)
  }

  // Processing the first record of a guid is a merge, and a write-out when the map is large.
  lemma ProcessedStep(m: Moment, c: State, k: nat) returns (steps: seq<Step>)
    requires Runs(m.s, c) && FirstOfGuid(m.s.cache.log, k)
    ensures Reaches(m, steps, Without(m.s.cache.log, k), Process(c, "", m.s.cache.log[k]))
  {
    RunNext(m, [], Convert(k));
    steps := [] + [Convert(k)];
    if |MergeRecords.Merge(c.merged, "", m.s.cache.log[k])| >= MAX_MERGE_RECORD_NUMBER {
      RunNext(m, steps, WriteBatch);
      steps := steps + [WriteBatch];
    }
  }

  lemma {:induction false} RunConcat(m: Moment, a: seq<Step>, b: seq<Step>)
    ensures Run(m, a + b) == Run(Run(m, a), b)
  {
    if b == [] {
      assert a + b == a;
    } else {
      assert (a + b)[..|a + b| - 1] == a + b[..|b| - 1];
      RunConcat(m, a, b[..|b| - 1]);
    }
  }

  // The log splits into records that go on waiting, waiting records not looked at yet, r, and the rest.
  ghost predicate Releasing(log: seq<Record>, kept: seq<Record>, todo: seq<Record>, r: Record, rest: seq<Record>) {
    && log == kept + todo + ([r] + rest)
    && (forall i :: 0 <= i < |kept| ==> kept[i].objectGuid != r.objectGuid)
    && (forall i, j :: 0 <= i < |kept| && 0 <= j < |todo| && KeyOf(todo[j]) == KeyOf(r) ==>
          kept[i].objectGuid != todo[j].objectGuid)
    && (forall i :: 0 <= i < |todo| && KeyOf(todo[i]) != KeyOf(r) ==> todo[i].objectGuid != r.objectGuid)
    && forall i, j :: 0 <= i < j < |todo| && KeyOf(todo[i]) != KeyOf(r) && KeyOf(todo[j]) == KeyOf(r) ==>
         todo[i].objectGuid != todo[j].objectGuid
  }

  lemma ReleasingLeaves(log: seq<Record>, kept: seq<Record>, todo: seq<Record>, r: Record, rest: seq<Record>)
    requires Releasing(log, kept, todo, r, rest) && todo != [] && KeyOf(todo[0]) == KeyOf(r)
    ensures FirstOfGuid(log, |kept|) && log[|kept|] == todo[0]
    ensures Releasing(Without(log, |kept|), kept, todo[1..], r, rest)
  {
    assert forall i :: 0 <= i < |kept| ==> log[i] == kept[i];
    assert Without(log, |kept|) == kept + todo[1..] + ([r] + rest);
  }

  lemma ReleasingStays(log: seq<Record>, kept: seq<Record>, todo: seq<Record>, r: Record, rest: seq<Record>)
    requires Releasing(log, kept, todo, r, rest) && todo != [] && KeyOf(todo[0]) != KeyOf(r)
    ensures Releasing(log, kept + [todo[0]], todo[1..], r, rest)
  {
    assert kept + [todo[0]] + todo[1..] == kept + todo;
  }

  lemma ReleasingLast(log: seq<Record>, kept: seq<Record>, r: Record, rest: seq<Record>)
    requires Releasing(log, kept, [], r, rest)
    ensures FirstOfGuid(log, |kept|) && log[|kept|] == r && Without(log, |kept|) == kept + rest
  {
    assert kept + [] == kept;
    assert forall i :: 0 <= i < |kept| ==> log[i] == kept[i];
  }

  lemma ReachesOn(m: Moment, a: seq<Step>, b: seq<Step>, log1: seq<Record>, c1: State, log2: seq<Record>, c2: State)
    requires Reaches(m, a, log1, c1) && Reaches(Run(m, a), b, log2, c2)
    ensures Reaches(m, a + b, log2, c2)
  {
    RunConcat(m, a, b);
  }

  lemma HeadOfKey(rs: seq<Record>, k: Key)
    requires rs != []
    ensures OfKey(rs, k) == (if KeyOf(rs[0]) == k then [rs[0]] + OfKey(rs[1..], k) else OfKey(rs[1..], k))
  {
    assert rs == [rs[0]] + rs[1..];
    OfKeyConcat([rs[0]], rs[1..], k);
    OfKeyUniform([rs[0]], KeyOf(rs[0]), k);
  }

  lemma ProcessHead(c: State, u: Record, rs: seq<Record>, r: Record)
    ensures ProcessAll(Process(c, "", u), "", rs + [r]) == ProcessAll(c, "", [u] + rs + [r])
  {
    ProcessAllConcat(c, "", [u], rs + [r]);
    assert [u][..0] == [] && [u] + (rs + [r]) == [u] + rs + [r];
  }

  lemma KeptMore(kept: seq<Record>, u: Record, more: seq<Record>, rest: seq<Record>)
    ensures kept + [u] + more + rest == kept + ([u] + more) + rest
  {
  }

  // Processing the records that leave, one after the other, and r, is a run of converter steps.
  lemma {:induction false} ReleasedBySteps(
      m: Moment, c: State, kept: seq<Record>, todo: seq<Record>, r: Record, rest: seq<Record>)
    returns (steps: seq<Step>)
    requires Runs(m.s, c) && Releasing(m.s.cache.log, kept, todo, r, rest)
    ensures Reaches(m, steps, kept + NotOfKey(todo, KeyOf(r)) + rest,
                    ProcessAll(c, "", OfKey(todo, KeyOf(r)) + [r]))
    decreases |todo|
  {
    if todo == [] {
      ReleasingLast(m.s.cache.log, kept, r, rest);
      steps := ProcessedStep(m, c, |kept|);
      assert [] + [r] == [r] && [r][..0] == [] && kept + [] == kept;
    } else {
      HeadOfKey(todo, KeyOf(r));
      if KeyOf(todo[0]) == KeyOf(r) {
        steps := LeavesByStep(m, c, kept, todo, r, rest);
      } else {
        ReleasingStays(m.s.cache.log, kept, todo, r, rest);
        steps := ReleasedBySteps(m, c, kept + [todo[0]], todo[1..], r, rest);
        KeptMore(kept, todo[0], NotOfKey(todo[1..], KeyOf(r)), rest);
      }
    }
  }

  lemma {:induction false} LeavesByStep(
      m: Moment, c: State, kept: seq<Record>, todo: seq<Record>, r: Record, rest: seq<Record>)
    returns (steps: seq<Step>)
    requires Runs(m.s, c) && Releasing(m.s.cache.log, kept, todo, r, rest)
    requires todo != [] && KeyOf(todo[0]) == KeyOf(r)
    ensures Reaches(m, steps, kept + NotOfKey(todo[1..], KeyOf(r)) + rest,
                    ProcessAll(c, "", [todo[0]] + OfKey(todo[1..], KeyOf(r)) + [r]))
    ensures NotOfKey(todo, KeyOf(r)) == NotOfKey(todo[1..], KeyOf(r))
    decreases |todo|, 0
  {
    var log, k, u, others := m.s.cache.log, KeyOf(r), todo[0], todo[1..];
    ReleasingLeaves(log, kept, todo, r, rest);
    var first := ProcessedStep(m, c, |kept|);
    var more := ReleasedBySteps(Run(m, first), Process(c, "", u), kept, others, r, rest);
    ReachesOn(m, first, more, Without(log, |kept|), Process(c, "", u), kept + NotOfKey(others, k) + rest,
              ProcessAll(Process(c, "", u), "", OfKey(others, k) + [r]));
    ProcessHead(c, u, OfKey(others, k), r);
    assert [] + NotOfKey(others, k) == NotOfKey(others, k);
    steps := first + more;
  }

  // What is released by a record, and what goes on waiting.
  lemma ReadFacts(w: seq<Record>, p: Pending, r: Record)
    requires WaitingMatches(w, p) && Collect(p, r).1 != []
    ensures var todo := if r.transactionNum == 1 then [] else w;
            var kept := if r.transactionNum == 1 then w else [];
            && Collect(p, r).1 == OfKey(todo, KeyOf(r)) + [r]
            && StillWaiting(w, p, r) == kept + NotOfKey(todo, KeyOf(r))
  {
    CollectWaiting(p, r, KeyOf(r));
    assert OfKey(w, KeyOf(r)) == Waiting(p, KeyOf(r));
    assert w + [] == w && [] + NotOfKey(w, KeyOf(r)) == NotOfKey(w, KeyOf(r));
  }

  lemma SingleReleasing(w: seq<Record>, p: Pending, r: Record, rest: seq<Record>)
    requires KeepsOrder(w, p, r) && Collect(p, r).1 != [] && r.transactionNum == 1
    ensures Releasing(w + ([r] + rest), w, [], r, rest)
  {
    assert w + [] == w;
    forall i | 0 <= i < |w| ensures w[i].objectGuid != r.objectGuid {
      assert !Leaves(w[i], r);
    }
  }

  lemma GroupReleasing(w: seq<Record>, p: Pending, r: Record, rest: seq<Record>)
    requires KeepsOrder(w, p, r) && Collect(p, r).1 != [] && r.transactionNum != 1
    ensures Releasing(w + ([r] + rest), [], w, r, rest)
  {
    assert [] + w == w;
    forall i | 0 <= i < |w| && KeyOf(w[i]) != KeyOf(r) ensures w[i].objectGuid != r.objectGuid {
      assert !Leaves(w[i], r);
    }
    forall i, j | 0 <= i < j < |w| && KeyOf(w[i]) != KeyOf(r) && KeyOf(w[j]) == KeyOf(r)
      ensures w[i].objectGuid != w[j].objectGuid
    {
      assert !Leaves(w[i], r) && Leaves(w[j], r);
    }
  }

  lemma SeenReached(j: Joint, steps: seq<Step>)
    requires j.cache.log != []
    requires var r := j.cache.log[0];
             Reaches(Moment(Seen(j), j.x, j.reply), steps,
                     StillWaiting(j.waiting, j.conv.pending, r) + j.cache.log[1..],
                     ProcessAll(j.conv, "", Collect(j.conv.pending, r).1))
    ensures var n := Run(Moment(Seen(j), j.x, j.reply), steps);
            n.s == Seen(JointNext(j, ReadRecord)) && n.x == j.x
  {
  }

  // Reading one record, with whatever transactions wait, is a run of converter steps that merge the records
  // released, provided they are released in the order of their guids.
  lemma ReadBySteps(j: Joint) returns (steps: seq<Step>)
    requires j.cache.log != [] && WaitingMatches(j.waiting, j.conv.pending)
    requires KeepsOrder(j.waiting, j.conv.pending, j.cache.log[0])
    ensures AllBackground(steps)
    ensures var n := Run(Moment(Seen(j), j.x, j.reply), steps);
            n.s == Seen(JointNext(j, ReadRecord)) && n.x == j.x
  {
    var m, w, p, r, rest := Moment(Seen(j), j.x, j.reply), j.waiting, j.conv.pending, j.cache.log[0], j.cache.log[1..];
    assert j.cache.log == [r] + rest;
    if Collect(p, r).1 == [] {
      steps := [];
      assert w + [r] + rest == w + ([r] + rest);
    } else {
      ReadFacts(w, p, r);
      if r.transactionNum == 1 {
        SingleReleasing(w, p, r, rest);
        steps := ReleasedBySteps(m, j.conv, w, [], r, rest);
      } else {
        GroupReleasing(w, p, r, rest);
        steps := ReleasedBySteps(m, j.conv, [], w, r, rest);
      }
      SeenReached(j, steps);
    }
  }

  // ---------- Every run of the two together ----------

  // What Coherence asks of its steps, and the order of the records of a guid.
  ghost predicate JointAllowed(j: Joint, e: JointStep) {
    match e
    case Other(step) => !step.Convert? && Allowed(Seen(j), j.x, step)
    case ReadRecord => j.cache.log != [] ==> KeepsOrder(j.waiting, j.conv.pending, j.cache.log[0])
  }

  ghost predicate JointInv(j: Joint) {
    Inv(Seen(j), j.x) && WaitingMatches(j.waiting, j.conv.pending)
  }

  // One step: the invariant is kept, and an answer is truthful.
  lemma ConverterKeepsCoherence(j: Joint, e: JointStep)
    requires JointInv(j) && JointAllowed(j, e)
    ensures JointInv(JointNext(j, e))
    ensures e.Other? ==> Truthful(e.step, JointNext(j, e).reply, j.x)
  {
    match e
    case Other(step) =>
      OtherSeen(j, step);
      StepCoherent(Seen(j), j.x, step);
    case ReadRecord =>
      if j.cache.log != [] {
        var steps := ReadBySteps(j);
        BackgroundRun(Moment(Seen(j), j.x, j.reply), steps, 0, 0);
        StillMatches(j.waiting, j.conv.pending, j.cache.log[0]);
      }
  }

  function JointStart(db0: Database, rows: nat): Joint {
    Joint(Cache(map[], map[], [], rows, []), State(map[], map[], db0, {}), [], Ideal(db0, map[]), NoReply)
  }

  function JointRun(j: Joint, es: seq<JointStep>): Joint {
    if es == [] then j else JointNext(JointRun(j, es[..|es| - 1]), es[|es| - 1])
  }

  ghost predicate JointDisciplined(j: Joint, es: seq<JointStep>) {
    es == [] ||
    (JointDisciplined(j, es[..|es| - 1]) && JointAllowed(JointRun(j, es[..|es| - 1]), es[|es| - 1]))
  }

  ghost predicate JointCoherent(j: Joint, es: seq<JointStep>) {
    es == [] ||
    (var before, e := JointRun(j, es[..|es| - 1]), es[|es| - 1];
     && JointCoherent(j, es[..|es| - 1])
     && (e.Other? ==> Truthful(e.step, JointNext(before, e).reply, before.x)))
  }

  lemma {:induction false} JointRunKeeps(j: Joint, es: seq<JointStep>)
    requires JointInv(j) && JointDisciplined(j, es)
    ensures JointCoherent(j, es) && JointInv(JointRun(j, es))
  {
    if es != [] {
      JointRunKeeps(j, es[..|es| - 1]);
      ConverterKeepsCoherence(JointRun(j, es[..|es| - 1]), es[|es| - 1]);
    }
  }

  // With the converter as it is, grouping transactions, merging and writing out: in every disciplined run
  // every load that is answered is answered with the value written last, and what waits, is merged or is
  // still in the log brings the database to the ideal store.
  lemma EveryLoadIsCoherentWithTransactions(db0: Database, rows: nat, es: seq<JointStep>)
    requires JointDisciplined(JointStart(db0, rows), es)
    ensures var j := JointRun(JointStart(db0, rows), es);
            && JointCoherent(JointStart(db0, rows), es)
            && Converges(Seen(j), j.x)
  {
    var j := JointStart(db0, rows);
    StartInv(db0, rows);
    assert [] + j.cache.log == j.cache.log;
    assert forall k :: OfKey([], k) == Waiting(map[], k);
    JointRunKeeps(j, es);
  }

  // ---------- When the order is kept ----------

  // It is when no guid waits in two transactions at a time.
  lemma SeparateKeepsOrder(waiting: seq<Record>, p: Pending, r: Record)
    requires forall i :: 0 <= i < |waiting| && waiting[i].objectGuid == r.objectGuid ==> Leaves(waiting[i], r)
    requires forall i, j :: 0 <= i < j < |waiting| && waiting[i].objectGuid == waiting[j].objectGuid ==>
               KeyOf(waiting[i]) == KeyOf(waiting[j])
    ensures KeepsOrder(waiting, p, r)
  {
  }

  // It is not when a record waits while a later one of its guid is released. The update that waits, a, is
  // written over the later one, b, whatever the database and the rest of a's transaction.
  lemma OvertakenUpdateIsLost(db: Database, a: Record, b: Record, last: Record)
    requires Overtakes(db, a, b, last)
    ensures var c := Accept(Accept(Accept(State(map[], map[], db, {}), "", a), "", b), "", last);
            && Cell(WriteOut(c).db, a.objectGuid) == Some(a.stream)
            && Cell(WriteRecord(WriteRecord(WriteRecord(db, a), b), last), a.objectGuid) == Some(b.stream)
  {
    AcceptsLate(db, a, b, last);
    WrittenLate(db, a, b, last);
    WrittenInTurn(db, a, b, last);
  }

  // Two updates of a stored entity, the first of them in a transaction that `last` completes.
  predicate Overtakes(db: Database, a: Record, b: Record, last: Record) {
    && a.optype == Update && b.optype == Update && a.objectGuid == b.objectGuid && a.objectGuid in db
    && KeyOf(last) == KeyOf(a) && last.objectGuid != a.objectGuid
    && a.transactionNum == last.transactionNum == last.transactionIndex == 2 && b.transactionNum == 1
  }

  function MergedLate(a: Record, b: Record, last: Record): MergeRecords.MergeMap {
    MergeRecords.Merge(MergeRecords.Merge(MergeRecords.Merge(map[], "", b), "", a), "", last)
  }

  lemma AcceptsLate(db: Database, a: Record, b: Record, last: Record)
    requires Overtakes(db, a, b, last)
    ensures var c := Accept(Accept(Accept(State(map[], map[], db, {}), "", a), "", b), "", last);
            c.merged == MergedLate(a, b, last) && c.db == db
  {
    var p := map[a.lineId := map[a.transactionId := [a]]];
    assert Collect(map[], a) == (p, []);
    AcceptNone(State(map[], map[], db, {}), a);
    AcceptSingle(State(p, map[], db, {}), b);
    var m1 := MergeRecords.Merge(map[], "", b);
    AcceptPair(State(p, m1, db, {}), a, last);
  }

  lemma AcceptNone(c: State, r: Record)
    requires Collect(c.pending, r).1 == []
    ensures Accept(c, "", r) == c.(pending := Collect(c.pending, r).0)
  {
  }

  lemma AcceptSingle(c: State, r: Record)
    requires r.transactionNum == 1 && |c.merged| < 10
    ensures Accept(c, "", r) == c.(merged := MergeRecords.Merge(c.merged, "", r))
    ensures |Accept(c, "", r).merged| <= |c.merged| + 1
  {
    ProcessSmall(c, r);
    ProcessOne(c, r);
  }

  lemma ProcessOne(c: State, r: Record)
    ensures ProcessAll(c, "", [r]) == Process(c, "", r)
  {
    assert [r][..0] == [] && ProcessAll(c, "", []) == c;
  }

  lemma AcceptPair(c: State, a: Record, r: Record)
    requires Collect(c.pending, r).1 == [a, r] && |c.merged| < 9
    ensures Accept(c, "", r).merged == MergeRecords.Merge(MergeRecords.Merge(c.merged, "", a), "", r)
    ensures Accept(c, "", r).db == c.db
  {
    ProcessSmall(c, a);
    var d := c.(merged := MergeRecords.Merge(c.merged, "", a));
    ProcessSmall(d, r);
    ProcessOne(c, a);
    ProcessOne(d, r);
    ProcessAllConcat(c, "", [a], [r]);
    assert [a] + [r] == [a, r];
  }

  lemma WrittenLate(db: Database, a: Record, b: Record, last: Record)
    requires Overtakes(db, a, b, last)
    ensures Cell(MergeRecords.Written(MergedLate(a, b, last), db), a.objectGuid) == Some(a.stream)
  {
    var m1 := MergeRecords.Merge(map[], "", b);
    var m2 := MergeRecords.Merge(m1, "", a);
    assert m1[a.objectGuid] == MergeRecords.Fresh(b, "");
    assert m2[a.objectGuid] == MergeRecords.Fresh(b, "").(stream := a.stream);
    assert MergedLate(a, b, last)[a.objectGuid] == m2[a.objectGuid];
    MergeRecords.WrittenIsCellwise(MergedLate(a, b, last), db, a.objectGuid);
  }

  lemma WrittenInTurn(db: Database, a: Record, b: Record, last: Record)
    requires Overtakes(db, a, b, last)
    ensures Cell(WriteRecord(WriteRecord(WriteRecord(db, a), b), last), a.objectGuid) == Some(b.stream)
  {
    WriteRecordCell(db, a, a.objectGuid);
    WriteRecordCell(WriteRecord(db, a), b, a.objectGuid);
    WriteRecordCell(WriteRecord(WriteRecord(db, a), b), last, a.objectGuid);
  }

  lemma ProcessSmall(c: State, r: Record)
    requires |c.merged| < 10
    ensures Process(c, "", r) == c.(merged := MergeRecords.Merge(c.merged, "", r))
    ensures |MergeRecords.Merge(c.merged, "", r)| <= |c.merged| + 1
  {
    var m := MergeRecords.Merge(c.merged, "", r);
    var keys := c.merged.Keys + {r.objectGuid};
    assert keys == m.Keys + (keys - m.Keys);
    assert |keys| <= |c.merged| + 1;
  }
}
