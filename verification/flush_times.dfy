// Which times a flush may be stamped with: exactly those of acknowledgements that were sent, or can still be,
// are unsafe (cachesys/src/serialize/ManageExpiredItem.cpp:81-111,
// cachesys/src/ManageConvertSession.cpp:177-188). The server stamps requests itself, in microseconds
// (cachesys/src/DataRequestInfo.h:28, 41), so this is about two flushes of one guid in the same microsecond,
// or a clock that was set back.
module FlushTiming {
  import opened Records
  import MergeRecords
  import opened CacheState
  import opened Coherence

  // Steps of the converter, which clients do not see.
  predicate Background(step: Step) {
    step.Convert? || step.WriteBatch?
  }

  // ---------- What the clock has to do ----------

  // The discipline in terms of the stamps alone: no flush of a guid gets the time of an earlier flush or
  // flushed creation of it.
  predicate AllowedByTimes(s: System, x: Ideal, step: Step) {
    if step.Client? && step.request.opcode == FlushEntity then
      var q, g := step.request, step.request.guid;
      && (Writes(s, step) ==> !Loading(s.cache, g))
      && (g in s.cache.entities ==> q.stream != "" && q.lastModifyTime !in FlushTimes(x, g))
    else Allowed(s, x, step)
  }

  ghost predicate DisciplinedByTimes(m: Moment, steps: seq<Step>) {
    steps == [] ||
    (var before := Run(m, steps[..|steps| - 1]);
     DisciplinedByTimes(m, steps[..|steps| - 1]) && AllowedByTimes(before.s, before.x, steps[|steps| - 1]))
  }

  // An entry that is, or may yet be, acknowledged has the time of a flush-type write.
  ghost predicate TimeKnown(e: Option<Record>, times: set<nat>) {
    e != None && (e.value.lastIsFlush || e.value.optype == Flush || e.value.optype == InsertWithFlush)
    ==> e.value.lastModifyTime in times
  }

  ghost predicate TimesKnown(s: System, x: Ideal, g: Guid) {
    var e, times := Entry(s.merged, g), FlushTimes(x, g);
    && TimeKnown(EntryAfter(e, s.cache.log, g), times)
    && Emits(e, s.cache.log, g) <= times
    && forall a :: a in s.acks && a.guid == g ==> a.lastModifyTime in times
  }

  lemma AppendKnown(e: Option<Record>, log: seq<Record>, r: Record, g: Guid, times: set<nat>, more: set<nat>)
    requires TimeKnown(EntryAfter(e, log, g), times) && Emits(e, log, g) <= times <= more
    requires Ordinary(r) && !r.lastIsFlush && (IsFlush(r) && r.objectGuid == g ==> r.lastModifyTime in more)
    ensures TimeKnown(EntryAfter(e, log + [r], g), more) && Emits(e, log + [r], g) <= more
  {
    assert (log + [r])[..|log|] == log;
  }

  lemma WrittenTimesKnown(s: System, x: Ideal, q: Request, h: Guid)
    requires Inv(s, x) && Allowed(s, x, Client(q)) && Writes(s, Client(q)) && TimesKnown(s, x, h)
    ensures TimesKnown(Next(s, Client(q)).0, IdealNext(x, s, Client(q)), h)
  {
    var t, y := Next(s, Client(q)).0, IdealNext(x, s, Client(q));
    WriteRecordLogged(s, x, q);
    var r := t.cache.log[|s.cache.log|];
    AppendKnown(Entry(s.merged, h), s.cache.log, r, h, FlushTimes(x, h), FlushTimes(y, h));
  }

  lemma StepTimesKnown(s: System, x: Ideal, step: Step, h: Guid)
    requires Inv(s, x) && Allowed(s, x, step) && TimesKnown(s, x, h)
    ensures TimesKnown(Next(s, step).0, IdealNext(x, s, step), h)
  {
    if Writes(s, step) {
      WrittenTimesKnown(s, x, step.request, h);
    } else if step.Convert? {
      assert InvAt(s, x, h);
      ConvertTimesKnown(s, x, step.k, h);
    } else if step.WriteBatch? {
      assert InvAt(s, x, h);
      BatchTimesKnown(s, x, h);
    } else {
      QuietTimesKnown(s, x, step, h);
    }
  }

  lemma ConvertTimesKnown(s: System, x: Ideal, k: nat, h: Guid)
    requires InvAt(s, x, h) && TimesKnown(s, x, h)
    ensures TimesKnown(Next(s, Convert(k)).0, x, h)
  {
    if FirstOfGuid(s.cache.log, k) {
      EntryConverted(s, x, k, h);
      EmitsWithout(Entry(s.merged, h), s.cache.log, k, h);
    }
  }

  lemma QuietTimesKnown(s: System, x: Ideal, step: Step, h: Guid)
    requires !Writes(s, step) && !Background(step) && Allowed(s, x, step) && TimesKnown(s, x, h)
    ensures TimesKnown(Next(s, step).0, IdealNext(x, s, step), h)
  {
    var t := Next(s, step).0;
    assert t.merged == s.merged && t.acks == s.acks && t.cache.log == s.cache.log;
  }

  lemma BatchTimesKnown(s: System, x: Ideal, h: Guid)
    requires InvAt(s, x, h) && TimesKnown(s, x, h)
    ensures TimesKnown(Next(s, WriteBatch).0, x, h)
  {
    var e, log := Entry(s.merged, h), s.cache.log;
    EmittedFirst(e, log, h);
    if e != None {
      EmitsLess(None, e, log, h);
    }
  }

  lemma {:induction false} TimesSuffice(m: Moment, steps: seq<Step>)
    requires Inv(m.s, m.x) && (forall g :: TimesKnown(m.s, m.x, g)) && DisciplinedByTimes(m, steps)
    ensures Disciplined(m, steps) && forall g :: TimesKnown(Run(m, steps).s, Run(m, steps).x, g)
  {
    if steps != [] {
      var n := |steps| - 1;
      TimesSuffice(m, steps[..n]);
      CoherentFrom(m, steps[..n]);
      var before := Run(m, steps[..n]);
      if steps[n].Client? {
        assert TimesKnown(before.s, before.x, steps[n].request.guid);
      }
      forall g ensures TimesKnown(Run(m, steps).s, Run(m, steps).x, g) {
        StepTimesKnown(before.s, before.x, steps[n], g);
      }
    }
  }

  // So it is enough that no flush reuses a time of an earlier flush-type write of its guid.
  lemma FreshFlushTimesAreCoherent(db0: Database, rows: nat, steps: seq<Step>)
    requires DisciplinedByTimes(Moment(Start(db0, rows), Ideal(db0, map[]), NoReply), steps)
    ensures Coherent(Moment(Start(db0, rows), Ideal(db0, map[]), NoReply), steps)
  {
    var m := Moment(Start(db0, rows), Ideal(db0, map[]), NoReply);
    StartInv(db0, rows);
    assert forall g :: TimesKnown(m.s, m.x, g);
    TimesSuffice(m, steps);
    EveryLoadIsCoherent(db0, rows, steps);
  }

  // ---------- Times that lose a write ----------

  function Flushing(g: Guid, v: Stream, t: nat): Step {
    Client(Request(FlushEntity, g, v, t, 1, 1, 0, 0))
  }

  function Loads(g: Guid): Step {
    Client(Request(LoadEntity, g, "", 0, 1, 1, 0, 0))
  }

  // The old acknowledgement arrives after the flush, and the entity is loaded.
  function OldAckThenLoad(g: Guid, t: nat, n: nat): seq<Step> {
    [Deliver(Ack(g, t)), Loads(g), Read(n), Answer(n)]
  }

  lemma RunTwo(m: Moment, a: Step, b: Step)
    ensures Run(m, [a, b]) == After(After(m, a), b)
    ensures Disciplined(m, [a, b]) <==> Allowed(m.s, m.x, a) && Allowed(After(m, a).s, After(m, a).x, b)
    ensures Coherent(m, [a, b]) ==> Truthful(b, After(After(m, a), b).reply, After(m, a).x)
  {
    RunNext(m, [], a);
    RunNext(m, [a], b);
    assert [] + [a] == [a] && [a] + [b] == [a, b];
  }

  lemma RunFour(m: Moment, a: Step, b: Step, c: Step, d: Step)
    ensures Run(m, [a, b, c, d]) == After(After(After(After(m, a), b), c), d)
    ensures Disciplined(m, [a, b, c, d]) <==>
            && Allowed(m.s, m.x, a) && Allowed(After(m, a).s, After(m, a).x, b)
            && Allowed(After(After(m, a), b).s, After(After(m, a), b).x, c)
            && Allowed(After(After(After(m, a), b), c).s, After(After(After(m, a), b), c).x, d)
    ensures Coherent(m, [a, b, c, d]) ==>
            Truthful(d, After(After(After(After(m, a), b), c), d).reply, After(After(After(m, a), b), c).x)
  {
    RunTwo(m, a, b);
    RunNext(m, [a, b], c);
    RunNext(m, [a, b, c], d);
    assert [a, b] + [c] == [a, b, c] && [a, b, c] + [d] == [a, b, c, d];
  }

  lemma RunNext(m: Moment, steps: seq<Step>, step: Step)
    ensures Run(m, steps + [step]) == After(Run(m, steps), step)
    ensures Disciplined(m, steps + [step])
            <==> Disciplined(m, steps) && Allowed(Run(m, steps).s, Run(m, steps).x, step)
    ensures Coherent(m, steps + [step])
            <==> Coherent(m, steps) && Truthful(step, After(Run(m, steps), step).reply, Run(m, steps).x)
  {
    assert (steps + [step])[..|steps|] == steps;
  }

  // A flush with the time of an acknowledgement that was sent: if that is delivered now and the database
  // holds anything else, a load is not answered with the flushed value.
  lemma OldAckLosesAFlush(m: Moment, g: Guid, v: Stream, t: nat)
    requires g in m.s.cache.entities && !Loading(m.s.cache, g)
    requires Ack(g, t) in m.s.acks && v != "" && Cell(m.s.db, g) != Some(v)
    ensures var n, i := After(m, Flushing(g, v, t)), |m.s.cache.loads|;
            && Cell(n.x.last, g) == Some(v)
            && Disciplined(n, OldAckThenLoad(g, t, i))
            && Cell(Run(n, OldAckThenLoad(g, t, i)).x.last, g) == Some(v)
            && Run(n, OldAckThenLoad(g, t, i)).reply
               == (if Cell(m.s.db, g) == None then NotFound(g) else Loaded(g, Cell(m.s.db, g).value))
            && !Coherent(n, OldAckThenLoad(g, t, i))
  {
    var n, i := After(m, Flushing(g, v, t)), |m.s.cache.loads|;
    var m1 := After(n, Deliver(Ack(g, t)));
    assert g !in m1.s.cache.entities && g !in m1.s.cache.expired && m1.s.cache.loads == m.s.cache.loads;
    assert !Loading(m1.s.cache, g);
    var m2 := After(m1, Loads(g));
    assert |m2.s.cache.loads| == i + 1 && m2.s.cache.loads[i] == DbLoad(g, false, false, None);
    var m3 := After(m2, Read(i));
    assert m3.s.cache.loads[i] == DbLoad(g, false, true, Cell(m.s.db, g));
    RunFour(n, Deliver(Ack(g, t)), Loads(g), Read(i), Answer(i));
  }

  ghost predicate AllBackground(steps: seq<Step>) {
    forall i :: 0 <= i < |steps| ==> Background(steps[i])
  }

  function Converts(k: nat): seq<Step> {
    seq(k, _ => Convert(0))
  }

  lemma {:induction false} EmittedAtSomePoint(e: Option<Record>, log: seq<Record>, g: Guid, t: nat) returns (k: nat)
    requires t in Emits(e, log, g)
    ensures k <= |log| && t in Emitted(EntryAfter(e, log[..k], g))
  {
    if t in Emitted(EntryAfter(e, log, g)) {
      k := |log|;
      assert log[..k] == log;
    } else {
      k := EmittedAtSomePoint(e, log[..|log| - 1], g, t);
      assert log[..|log| - 1][..k] == log[..k];
    }
  }

  lemma ConvertNext(n: Moment, log: seq<Record>, k: nat, e: Option<Record>, g: Guid)
    requires k < |log| && n.s.cache.log == log[k..] && Entry(n.s.merged, g) == EntryAfter(e, log[..k], g)
    ensures var o := After(n, Convert(0));
            && o.s == n.s.(cache := n.s.cache.(log := log[k + 1..]), merged := o.s.merged)
            && o.x == n.x
            && Entry(o.s.merged, g) == EntryAfter(e, log[..k + 1], g)
  {
    assert log[k..][0] == log[k] && Without(log[k..], 0) == log[k + 1..];
    assert log[..k + 1][..k] == log[..k] && log[..k + 1][k] == log[k];
  }

  // The converter reads the first k records of the log.
  lemma {:induction false} RunConverts(m: Moment, k: nat, g: Guid)
    requires k <= |m.s.cache.log|
    ensures var n := Run(m, Converts(k));
            && n.s == m.s.(cache := m.s.cache.(log := m.s.cache.log[k..]), merged := n.s.merged)
            && n.x == m.x
            && Entry(n.s.merged, g) == EntryAfter(Entry(m.s.merged, g), m.s.cache.log[..k], g)
  {
    var log := m.s.cache.log;
    if k == 0 {
      assert log[0..] == log && Converts(0) == [];
    } else {
      RunConverts(m, k - 1, g);
      ConvertNext(Run(m, Converts(k - 1)), log, k - 1, Entry(m.s.merged, g), g);
      assert Converts(k)[..k - 1] == Converts(k - 1) && Converts(k)[k - 1] == Convert(0);
    }
  }

  // Converter steps change nothing that a client sees, keep the invariant, and make no acknowledgement
  // obtainable that was not.
  lemma BackgroundStep(s: System, x: Ideal, step: Step, g: Guid, t: nat)
    requires Inv(s, x) && Background(step)
    ensures var n := Next(s, step).0;
            && Inv(n, x) && IdealNext(x, s, step) == x
            && n.cache.entities == s.cache.entities && n.cache.loads == s.cache.loads
            && (Obtainable(n, g, t) ==> Obtainable(s, g, t))
  {
    StepCoherent(s, x, step);
    assert InvAt(s, x, g);
    NothingNewObtainable(s, x, step, g, t);
  }

  lemma NothingNewObtainable(s: System, x: Ideal, step: Step, g: Guid, t: nat)
    requires InvAt(s, x, g) && Background(step)
    ensures Obtainable(Next(s, step).0, g, t) ==> Obtainable(s, g, t)
  {
    var e, log := Entry(s.merged, g), s.cache.log;
    if step.Convert? {
      if FirstOfGuid(log, step.k) {
        EntryConverted(s, x, step.k, g);
        EmitsWithout(e, log, step.k, g);
      }
    } else {
      EmittedFirst(e, log, g);
      if e != None {
        EmitsLess(None, e, log, g);
      }
    }
  }

  lemma {:induction false} BackgroundRun(m: Moment, steps: seq<Step>, g: Guid, t: nat)
    requires Inv(m.s, m.x) && AllBackground(steps)
    ensures var n := Run(m, steps);
            && Inv(n.s, n.x) && n.x == m.x
            && n.s.cache.entities == m.s.cache.entities && n.s.cache.loads == m.s.cache.loads
            && (Obtainable(n.s, g, t) ==> Obtainable(m.s, g, t))
  {
    if steps != [] {
      BackgroundRun(m, steps[..|steps| - 1], g, t);
      var b := Run(m, steps[..|steps| - 1]);
      BackgroundStep(b.s, b.x, steps[|steps| - 1], g, t);
    }
  }

  lemma SentByBatch(s: System, x: Ideal, g: Guid, t: nat)
    requires Inv(s, x) && t in Emitted(Entry(s.merged, g))
    ensures Ack(g, t) in Next(s, WriteBatch).0.acks
  {
    assert InvAt(s, x, g);
    assert MergeRecords.Acknowledged(s.merged, s.db, Ack(g, t));
  }

  // What is obtainable can be made to happen.
  lemma ObtainableIsSent(m: Moment, g: Guid, t: nat) returns (steps: seq<Step>)
    requires Inv(m.s, m.x) && Obtainable(m.s, g, t)
    ensures AllBackground(steps) && Ack(g, t) in Run(m, steps).s.acks
  {
    steps := [];
    if Ack(g, t) !in m.s.acks {
      var k := EmittedAtSomePoint(Entry(m.s.merged, g), m.s.cache.log, g, t);
      RunConverts(m, k, g);
      BackgroundRun(m, Converts(k), g, t);
      SentByBatch(Run(m, Converts(k)).s, Run(m, Converts(k)).x, g, t);
      RunNext(m, Converts(k), WriteBatch);
      steps := Converts(k) + [WriteBatch];
    }
  }

  // A flush of g with value v and time t, after some steps of the converter, is followed by a disciplined
  // run in which something is answered wrongly.
  ghost predicate Loses(m: Moment, g: Guid, v: Stream, t: nat, first: seq<Step>, rest: seq<Step>) {
    var n := After(Run(m, first), Flushing(g, v, t));
    v != "" && AllBackground(first) && Disciplined(n, rest) && !Coherent(n, rest)
  }

  lemma UnobtainableIsSafe(m: Moment, g: Guid, v: Stream, t: nat, first: seq<Step>, rest: seq<Step>)
    requires Inv(m.s, m.x) && g in m.s.cache.entities && !Loading(m.s.cache, g) && !Obtainable(m.s, g, t)
    ensures !Loses(m, g, v, t, first, rest)
  {
    var b := Run(m, first);
    var n := After(b, Flushing(g, v, t));
    if v != "" && AllBackground(first) && Disciplined(n, rest) {
      BackgroundRun(m, first, g, t);
      assert !Loading(b.s.cache, g);
      StepCoherent(b.s, b.x, Flushing(g, v, t));
      CoherentFrom(n, rest);
    }
  }

  lemma ObtainableLoses(m: Moment, g: Guid, t: nat) returns (v: Stream, first: seq<Step>, rest: seq<Step>)
    requires Inv(m.s, m.x) && g in m.s.cache.entities && !Loading(m.s.cache, g) && Obtainable(m.s, g, t)
    ensures Loses(m, g, v, t, first, rest)
  {
    first := ObtainableIsSent(m, g, t);
    BackgroundRun(m, first, g, t);
    var b := Run(m, first);
    v := if Cell(b.s.db, g) == Some("a") then "b" else "a";
    assert !Loading(b.s.cache, g);
    OldAckLosesAFlush(b, g, v, t);
    rest := OldAckThenLoad(g, t, |b.s.cache.loads|);
  }

  // Exactly the times of acknowledgements that were sent or can still be are unsafe for a flush: with such
  // a time some value can be lost, with any other none can.
  lemma FlushTimeExact(m: Moment, g: Guid, t: nat)
    requires Inv(m.s, m.x) && g in m.s.cache.entities && !Loading(m.s.cache, g)
    ensures Obtainable(m.s, g, t) <==> exists v, first, rest :: Loses(m, g, v, t, first, rest)
  {
    if Obtainable(m.s, g, t) {
      var v, first, rest := ObtainableLoses(m, g, t);
    } else {
      forall v, first, rest ensures !Loses(m, g, v, t, first, rest) {
        UnobtainableIsSafe(m, g, v, t, first, rest);
      }
    }
  }

  // Every flush that is on its way to the database can still be acknowledged.
  lemma PendingFlushIsObtainable(s: System, x: Ideal, g: Guid, i: nat)
    requires Inv(s, x) && i < |s.cache.log|
    requires s.cache.log[i].objectGuid == g && s.cache.log[i].optype == Flush
    ensures Obtainable(s, g, s.cache.log[i].lastModifyTime)
  {
    var e, log := Entry(s.merged, g), s.cache.log;
    assert InvAt(s, x, g);
    EntryIsOrdinary(e, log, g, i);
    FlushIsEmitted(EntryAfter(e, log[..i], g), log[i]);
    assert log[..i + 1][..i] == log[..i] && log[..i + 1][i] == log[i];
    EmitsPrefix(e, log, g, i + 1);
  }

  lemma FlushIsEmitted(e: Option<Record>, r: Record)
    requires (e != None ==> Ordinary(e.value)) && r.optype == Flush
    ensures Emitted(Absorbing(e, r)) == {r.lastModifyTime}
  {
  }

  // So two flushes of one guid at one time, with a load between them, can always lose the second value:
  // whatever the guid, the time and the first value.
  lemma EqualTimesLoseAnUpdate(m: Moment, g: Guid, t: nat, v: Stream)
    requires Inv(m.s, m.x) && g in m.s.cache.entities && Allowed(m.s, m.x, Flushing(g, v, t))
    ensures var n := After(After(m, Flushing(g, v, t)), Loads(g));
            && Disciplined(m, [Flushing(g, v, t), Loads(g)])
            && n.reply == Loaded(g, v)
            && exists w, first, rest :: Loses(n, g, w, t, first, rest)
  {
    var a, b := Flushing(g, v, t), Loads(g);
    FlushedAndLoaded(m, g, t, v);
    FlushTimeExact(After(After(m, a), b), g, t);
    RunTwo(m, a, b);
  }

  lemma FlushedAndLoaded(m: Moment, g: Guid, t: nat, v: Stream)
    requires Inv(m.s, m.x) && g in m.s.cache.entities && Allowed(m.s, m.x, Flushing(g, v, t))
    ensures var m1 := After(m, Flushing(g, v, t));
            var n := After(m1, Loads(g));
            && Allowed(m1.s, m1.x, Loads(g)) && Inv(n.s, n.x)
            && g in n.s.cache.entities && !Loading(n.s.cache, g) && Obtainable(n.s, g, t)
            && n.reply == Loaded(g, v)
  {
    var m1 := After(m, Flushing(g, v, t));
    StepCoherent(m.s, m.x, Flushing(g, v, t));
    assert m1.s.cache.loads == m.s.cache.loads && !Loading(m1.s.cache, g);
    StepCoherent(m1.s, m1.x, Loads(g));
    PendingFlushIsObtainable(m1.s, m1.x, g, |m.s.cache.log|);
  }

  lemma {:induction false} EntryIsOrdinary(e: Option<Record>, log: seq<Record>, g: Guid, n: nat)
    requires n <= |log| && (e != None ==> Ordinary(e.value))
    requires forall i :: 0 <= i < |log| && log[i].objectGuid == g ==> Ordinary(log[i])
    ensures var f := EntryAfter(e, log[..n], g); f != None ==> Ordinary(f.value)
  {
    if n != 0 {
      EntryIsOrdinary(e, log, g, n - 1);
      assert log[..n][..n - 1] == log[..n - 1];
    }
  }

  lemma {:induction false} EmitsPrefix(e: Option<Record>, log: seq<Record>, g: Guid, n: nat)
    requires n <= |log|
    ensures Emitted(EntryAfter(e, log[..n], g)) <= Emits(e, log, g)
    decreases |log|
  {
    if n == |log| {
      assert log[..n] == log;
    } else {
      EmitsPrefix(e, log[..|log| - 1], g, n);
      assert log[..|log| - 1][..n] == log[..n];
    }
  }
}
