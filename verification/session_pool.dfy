// Session lifetime in netcore: a reference count shared by the input side (SessionPoolImp.cpp:269-320)
// and the output workers, which act on deferred add and remove sets (OutputSessionPool.cpp:59-174).
module SessionPool {

  // The address of a session; the allocator may hand it out again after a delete.
  type Ptr = nat

  // A worker: its own set, and the sets through which other threads reach it.
  datatype Worker = Worker(cells: set<Ptr>, add: set<Ptr>, remove: set<Ptr>)

  // m_cell_session_map of SessionPoolImp and the sessions that are allocated; the round-robin index,
  // m_cell_session_map and the workers of OutputSessionPool.
  datatype Pool = Pool(refs: map<Ptr, int>, alive: set<Ptr>, index: nat, owner: map<Ptr, nat>, workers: seq<Worker>)

  // ---------- The methods as functions ----------

  function AfterInsert(p: Pool, s: Ptr): Pool {
    p.(alive := p.alive + {s}, refs := if s in p.refs then p.refs else p.refs[s := 2])
  }

  // Drops one reference of every session in a set; those with none left are deleted.
  function LowerRefs(refs: map<Ptr, int>, gone: set<Ptr>): map<Ptr, int> {
    map s | s in refs && !(s in gone && refs[s] == 1) :: if s in gone then refs[s] - 1 else refs[s]
  }

  function Doomed(refs: map<Ptr, int>, gone: set<Ptr>): set<Ptr> {
    set s | s in gone && s in refs && refs[s] == 1
  }

  function AfterRelease(p: Pool, gone: set<Ptr>): Pool {
    p.(refs := LowerRefs(p.refs, gone), alive := p.alive - Doomed(p.refs, gone))
  }

  function AfterHandleSession(p: Pool, s: Ptr): Pool {
    if p.workers == [] then p
    else
      var w := p.index % |p.workers|;
      p.(index := p.index + 1,
         workers := p.workers[w := p.workers[w].(add := p.workers[w].add + {s})],
         owner := p.owner[s := w])
  }

  predicate OwnersAreWorkers(p: Pool) {
    forall s :: s in p.owner ==> p.owner[s] < |p.workers|
  }

  function AfterRemoveSession(p: Pool, s: Ptr): Pool
    requires OwnersAreWorkers(p)
  {
    if s !in p.owner then p
    else
      var w := p.owner[s];
      p.(workers := p.workers[w := p.workers[w].(remove := p.workers[w].remove + {s})],
         owner := map t | t in p.owner && t != s :: p.owner[t])
  }

  // The locked part of a worker's pass.
  function AfterPass(p: Pool, w: nat): Pool
    requires w < |p.workers|
  {
    var k := p.workers[w];
    AfterRelease(p, k.remove * k.cells).(workers := p.workers[w := Worker(k.cells - k.remove + k.add, {}, {})])
  }

  function AfterWriteError(p: Pool, w: nat, s: Ptr): Pool
    requires w < |p.workers|
  {
    p.(workers := p.workers[w := p.workers[w].(cells := p.workers[w].cells - {s})])
  }

  // ---------- The objects ----------

  class SessionPoolImp {
    var refs: map<Ptr, int>
    ghost var alive: set<Ptr>

    constructor ()
      ensures refs == map[] && alive == {}
    {
      refs := map[];
      alive := {};
    }

    // The part of sessionOpen that touches the map.
    method Insert(s: Ptr)
      modifies this
      ensures refs == (if s in old(refs) then old(refs) else old(refs)[s := 2])
      ensures alive == old(alive) + {s}
    {
      alive := alive + {s};
      if s !in refs {
        refs := refs[s := 2];
      }
    }

    method RemoveSession(s: Ptr)
      modifies this
      ensures refs == LowerRefs(old(refs), {s})
      ensures alive == old(alive) - Doomed(old(refs), {s})
    {
      if s in refs {
        refs := refs[s := refs[s] - 1];
        if refs[s] == 0 {
          alive := alive - {s};
          refs := map t | t in refs && t != s :: refs[t];
        }
      }
    }
  }

  lemma ReleaseOneMore(refs: map<Ptr, int>, gone: set<Ptr>, s: Ptr)
    requires s !in gone
    ensures LowerRefs(LowerRefs(refs, gone), {s}) == LowerRefs(refs, gone + {s})
    ensures Doomed(refs, gone) + Doomed(LowerRefs(refs, gone), {s}) == Doomed(refs, gone + {s})
  {
  }

  class OutputSessionPool {
    const pool: SessionPoolImp
    var index: nat
    var owner: map<Ptr, nat>
    var workers: seq<Worker>

    ghost function State(): Pool
      reads this, pool
    {
      Pool(pool.refs, pool.alive, index, owner, workers)
    }

    constructor (pool: SessionPoolImp, n: nat)
      ensures this.pool == pool
      ensures index == 0 && owner == map[] && workers == seq(n, _ => Worker({}, {}, {}))
    {
      this.pool := pool;
      index, owner, workers := 0, map[], seq(n, _ => Worker({}, {}, {}));
    }

    method HandleSession(s: Ptr)
      modifies this
      ensures State() == AfterHandleSession(old(State()), s)
    {
      if |workers| == 0 {
        return;
      }
      var w := index % |workers|;
      index := index + 1;
      workers := workers[w := workers[w].(add := workers[w].add + {s})];
      owner := owner[s := w];
    }

    method RemoveSession(s: Ptr)
      requires OwnersAreWorkers(State())
      modifies this
      ensures State() == AfterRemoveSession(old(State()), s)
    {
      if s in owner {
        var w := owner[s];
        workers := workers[w := workers[w].(remove := workers[w].remove + {s})];
        owner := map t | t in owner && t != s :: owner[t];
      }
    }

    // The locked part of svc for worker w.
    method Pass(w: nat)
      requires w < |workers|
      modifies this, pool
      ensures State() == AfterPass(old(State()), w)
    {
      var cells, todo := workers[w].cells, workers[w].remove;
      ghost var k, refs0, alive0 := workers[w], pool.refs, pool.alive;
      ghost var gone: set<Ptr> := {};
      while todo != {}
        invariant todo <= k.remove && gone == (k.remove - todo) * k.cells && cells == k.cells - (k.remove - todo)
        invariant pool.refs == LowerRefs(refs0, gone)
        invariant pool.alive == alive0 - Doomed(refs0, gone)
        invariant index == old(index) && owner == old(owner) && workers == old(workers)
        decreases |todo|
      {
        var s :| s in todo;
        if s in cells {
          cells := cells - {s};
          pool.RemoveSession(s);
          ReleaseOneMore(refs0, gone, s);
          gone := gone + {s};
        }
        todo := todo - {s};
      }
      assert gone == k.remove * k.cells && cells == k.cells - k.remove;
      workers := workers[w := Worker(cells + workers[w].add, {}, {})];
    }

    // One session of a worker's write loop; -1 is a write error.
    method Write(w: nat, s: Ptr, result: int)
      requires w < |workers| && s in workers[w].cells
      modifies this
      ensures State() == if result == -1 then AfterWriteError(old(State()), w, s) else old(State())
    {
      if result == -1 {
        workers := workers[w := workers[w].(cells := workers[w].cells - {s})];
      }
    }
  }

  // sessionOpen and sessionClosed, each in the two steps between which other threads may come.
  method SessionOpen(output: OutputSessionPool, s: Ptr)
    modifies output, output.pool
    ensures output.State() == AfterHandleSession(AfterInsert(old(output.State()), s), s)
  {
    output.pool.Insert(s);
    output.HandleSession(s);
  }

  method SessionClosed(output: OutputSessionPool, s: Ptr)
    requires OwnersAreWorkers(output.State())
    modifies output, output.pool
    ensures output.State() == AfterRemoveSession(AfterRelease(old(output.State()), {s}), s)
  {
    output.pool.RemoveSession(s);
    output.RemoveSession(s);
  }

  // ---------- All interleavings ----------

  // How far a session has got: whether sessionOpen has reached the output side, and with which worker;
  // and how much of sessionClosed has run on the input side (0, 1 after removeSession, 2 after the rest).
  datatype Stage = Stage(outputDone: bool, worker: int, closed: int)

  const NOBODY := -1

  datatype System = System(pool: Pool, stages: map<Ptr, Stage>)

  datatype Event =
    | Accepted(s: Ptr)
    | OpenedOutput(s: Ptr)
    | ClosedInput(s: Ptr)
    | ClosedOutput(s: Ptr)
    | Passed(w: nat)
    | WriteFailed(w: nat, s: Ptr)

  // The allocator gives out free addresses, the input side closes a session once, and the steps of one
  // call keep their order; anything else may come in between.
  predicate Enabled(y: System, e: Event) {
    match e
    case Accepted(s) => s !in y.pool.alive
    case OpenedOutput(s) => s in y.stages && !y.stages[s].outputDone
    case ClosedInput(s) => s in y.stages && y.stages[s].closed == 0
    case ClosedOutput(s) => s in y.stages && y.stages[s].closed == 1
    case Passed(w) => w < |y.pool.workers|
    case WriteFailed(w, s) => w < |y.pool.workers| && s in y.pool.workers[w].cells
  }

  function WithPool(y: System, p: Pool): System {
    System(p, map s | s in y.stages && s in p.alive :: y.stages[s])
  }

  function Apply(y: System, e: Event): System
    requires OwnersAreWorkers(y.pool) && Enabled(y, e)
  {
    var p := y.pool;
    match e
    case Accepted(s) =>
      System(AfterInsert(p, s), y.stages[s := Stage(false, NOBODY, 0)])
    case OpenedOutput(s) =>
      var w := if p.workers == [] then NOBODY else p.index % |p.workers|;
      System(AfterHandleSession(p, s), y.stages[s := y.stages[s].(outputDone := true, worker := w)])
    case ClosedInput(s) =>
      WithPool(System(p, y.stages[s := y.stages[s].(closed := 1)]), AfterRelease(p, {s}))
    case ClosedOutput(s) =>
      System(AfterRemoveSession(p, s), y.stages[s := y.stages[s].(closed := 2)])
    case Passed(w) => WithPool(y, AfterPass(p, w))
    case WriteFailed(w, s) => System(AfterWriteError(p, w, s), y.stages)
  }

  // One worker: what it holds or is about to receive is alive, was opened towards this worker, and is not
  // both held and about to be received; what it is told to remove was closed and has no owner any more.
  ghost predicate WorkerInv(y: System, w: nat)
    requires w < |y.pool.workers|
  {
    var k := y.pool.workers[w];
    && (forall s :: s in k.cells || s in k.add || s in k.remove ==>
          s in y.stages && y.stages[s].outputDone && y.stages[s].worker == w)
    && k.cells !! k.add
    && (forall s :: s in k.remove ==> y.stages[s].closed == 2 && s !in y.pool.owner)
  }

  ghost predicate Inv(y: System) {
    var p := y.pool;
    && p.alive == p.refs.Keys == y.stages.Keys
    && (forall s :: s in p.refs ==> p.refs[s] == if y.stages[s].closed == 0 then 2 else 1)
    && (forall s :: s in y.stages ==> 0 <= y.stages[s].closed <= 2)
    && OwnersAreWorkers(p)
    && (forall s :: s in p.owner ==> s in y.stages && y.stages[s].outputDone && y.stages[s].worker == p.owner[s])
    && (forall w :: 0 <= w < |p.workers| ==> WorkerInv(y, w))
  }

  // A closed session that the worker will delete at its next pass.
  predicate Due(y: System, w: nat, s: Ptr)
    requires w < |y.pool.workers|
  {
    s in y.pool.workers[w].cells && s in y.pool.workers[w].remove
  }

  // A closed session that is never deleted.
  ghost predicate Kept(y: System, s: Ptr) {
    && s in y.stages && y.stages[s].closed == 2
    && forall w :: 0 <= w < |y.pool.workers| ==> !Due(y, w, s)
  }

  lemma AcceptedKeepsInv(y: System, s: Ptr)
    requires Inv(y) && Enabled(y, Accepted(s))
    ensures Inv(Apply(y, Accepted(s)))
  {
    var z := Apply(y, Accepted(s));
    forall w | 0 <= w < |z.pool.workers|
      ensures WorkerInv(z, w)
    {
      assert WorkerInv(y, w);
    }
  }

  lemma OpenedOutputKeepsInv(y: System, s: Ptr)
    requires Inv(y) && Enabled(y, OpenedOutput(s))
    ensures Inv(Apply(y, OpenedOutput(s)))
  {
    var z := Apply(y, OpenedOutput(s));
    forall w | 0 <= w < |z.pool.workers|
      ensures WorkerInv(z, w)
    {
      assert WorkerInv(y, w);
      var k := y.pool.workers[w];
      assert s !in k.cells && s !in k.add && s !in k.remove;
      var l := z.pool.workers[w];
      assert l == k || l == k.(add := k.add + {s});
    }
  }

  lemma ClosedInputKeepsInv(y: System, s: Ptr)
    requires Inv(y) && Enabled(y, ClosedInput(s))
    ensures Inv(Apply(y, ClosedInput(s)))
    ensures s in Apply(y, ClosedInput(s)).pool.alive
  {
    var z := Apply(y, ClosedInput(s));
    assert z.pool.alive == y.pool.alive;
    forall w | 0 <= w < |z.pool.workers|
      ensures WorkerInv(z, w)
    {
      assert WorkerInv(y, w);
    }
  }

  lemma ClosedOutputKeepsInv(y: System, s: Ptr)
    requires Inv(y) && Enabled(y, ClosedOutput(s))
    ensures Inv(Apply(y, ClosedOutput(s)))
  {
    var z := Apply(y, ClosedOutput(s));
    forall w | 0 <= w < |z.pool.workers|
      ensures WorkerInv(z, w)
    {
      assert WorkerInv(y, w);
      var k, l := y.pool.workers[w], z.pool.workers[w];
      assert l == k || (l == k.(remove := k.remove + {s}) && y.stages[s].worker == w);
    }
  }

  lemma PassedKeepsInv(y: System, v: nat)
    requires Inv(y) && Enabled(y, Passed(v))
    ensures Inv(Apply(y, Passed(v)))
    ensures Apply(y, Passed(v)).pool.alive == y.pool.alive - y.pool.workers[v].remove * y.pool.workers[v].cells
  {
    var z := Apply(y, Passed(v));
    assert WorkerInv(y, v);
    var gone := y.pool.workers[v].remove * y.pool.workers[v].cells;
    assert Doomed(y.pool.refs, gone) == gone;
    forall w | 0 <= w < |z.pool.workers|
      ensures WorkerInv(z, w)
    {
      assert WorkerInv(y, w);
      var l := z.pool.workers[w];
      forall s | s in l.cells || s in l.add || s in l.remove
        ensures s !in gone
      {
      }
    }
  }

  lemma WriteFailedKeepsInv(y: System, v: nat, s: Ptr)
    requires Inv(y) && Enabled(y, WriteFailed(v, s))
    ensures Inv(Apply(y, WriteFailed(v, s)))
  {
    var z := Apply(y, WriteFailed(v, s));
    forall w | 0 <= w < |z.pool.workers|
      ensures WorkerInv(z, w)
    {
      assert WorkerInv(y, w);
    }
  }

  lemma StepKeepsInv(y: System, e: Event)
    requires Inv(y) && Enabled(y, e)
    ensures Inv(Apply(y, e))
  {
    match e
    case Accepted(s) => AcceptedKeepsInv(y, s);
    case OpenedOutput(s) => OpenedOutputKeepsInv(y, s);
    case ClosedInput(s) => ClosedInputKeepsInv(y, s);
    case ClosedOutput(s) => ClosedOutputKeepsInv(y, s);
    case Passed(w) => PassedKeepsInv(y, w);
    case WriteFailed(w, s) => WriteFailedKeepsInv(y, w, s);
  }

  function Start(n: nat): System {
    System(Pool(map[], {}, 0, map[], seq(n, _ => Worker({}, {}, {}))), map[])
  }

  ghost predicate IsRun(y: System, es: seq<Event>)
    decreases |es|, 0
  {
    es == [] || (IsRun(y, es[..|es| - 1]) && OwnersAreWorkers(Run(y, es[..|es| - 1]).pool)
                 && Enabled(Run(y, es[..|es| - 1]), es[|es| - 1]))
  }

  ghost function Run(y: System, es: seq<Event>): System
    requires IsRun(y, es)
    decreases |es|, 1
  {
    if es == [] then y else Apply(Run(y, es[..|es| - 1]), es[|es| - 1])
  }

  lemma {:induction false} RunKeepsInv(y: System, es: seq<Event>)
    requires Inv(y) && IsRun(y, es)
    ensures Inv(Run(y, es))
  {
    if es != [] {
      RunKeepsInv(y, es[..|es| - 1]);
      StepKeepsInv(Run(y, es[..|es| - 1]), es[|es| - 1]);
    }
  }

  // In every run a session that a worker holds or is about to receive is alive, it was handed to that
  // worker and no other, and a request to remove it goes to the same worker, after the input side is done.
  lemma {:induction false} SafeInEveryRun(n: nat, es: seq<Event>, v: nat, w: nat, s: Ptr)
    requires IsRun(Start(n), es)
    ensures var p := Run(Start(n), es).pool;
            && v < |p.workers| && w < |p.workers| && s in p.workers[v].cells + p.workers[v].add + p.workers[v].remove
            ==> && s in p.alive && s in p.refs && p.refs[s] >= 1
                && (s in p.workers[w].cells + p.workers[w].add + p.workers[w].remove ==> v == w)
                && (s in p.workers[v].remove ==> p.refs[s] == 1 && s !in p.owner)
  {
    RunKeepsInv(Start(n), es);
    var y := Run(Start(n), es);
    assert v < |y.pool.workers| ==> WorkerInv(y, v);
    assert w < |y.pool.workers| ==> WorkerInv(y, w);
  }

  // A session is deleted only by the worker that holds it, told to remove it; nobody refers to it after.
  lemma OnlyDueDeleted(y: System, e: Event, s: Ptr)
    requires Inv(y) && Enabled(y, e) && s in y.pool.alive && s !in Apply(y, e).pool.alive
    ensures e.Passed? && Due(y, e.w, s) && y.stages[s].closed == 2
    ensures s !in Apply(y, e).pool.owner
    ensures forall w :: 0 <= w < |y.pool.workers| ==>
              var k := Apply(y, e).pool.workers[w]; s !in k.cells && s !in k.add && s !in k.remove
  {
    match e
    case ClosedInput(t) => ClosedInputKeepsInv(y, t);
    case Passed(v) =>
      PassedKeepsInv(y, v);
      assert WorkerInv(y, v);
      forall w | 0 <= w < |y.pool.workers|
        ensures var k := Apply(y, e).pool.workers[w]; s !in k.cells && s !in k.add && s !in k.remove
      {
        assert WorkerInv(y, w);
        assert WorkerInv(Apply(y, e), w);
      }
    case _ =>
  }

  // Closing decides: if the worker has taken the session and has not lost it to a write error, the
  // session is due; if not, it is kept.
  lemma CloseDecides(y: System, s: Ptr)
    requires Inv(y) && Enabled(y, ClosedOutput(s))
    ensures var z := Apply(y, ClosedOutput(s));
            if s in y.pool.owner && s in y.pool.workers[y.pool.owner[s]].cells then Due(z, y.pool.owner[s], s)
            else Kept(z, s)
  {
    var z := Apply(y, ClosedOutput(s));
    forall w | 0 <= w < |y.pool.workers|
      ensures s !in y.pool.workers[w].remove
      ensures s in y.pool.owner && w != y.pool.owner[s] ==> s !in y.pool.workers[w].cells
    {
      assert WorkerInv(y, w);
    }
    if !(s in y.pool.owner && s in y.pool.workers[y.pool.owner[s]].cells) {
      forall w | 0 <= w < |z.pool.workers|
        ensures !Due(z, w, s)
      {
      }
    }
  }

  lemma RunNext(y: System, es: seq<Event>, e: Event)
    requires Inv(y) && IsRun(y, es) && Enabled(Run(y, es), e)
    ensures IsRun(y, es + [e]) && Run(y, es + [e]) == Apply(Run(y, es), e) && Inv(Run(y, es + [e]))
  {
    RunKeepsInv(y, es);
    assert (es + [e])[..|es|] == es;
    StepKeepsInv(Run(y, es), e);
  }

  // A session that has been opened and that no worker has taken or is to remove.
  ghost predicate Untaken(y: System, s: Ptr) {
    && s in y.stages && y.stages[s].closed == 0
    && forall w :: 0 <= w < |y.pool.workers| ==>
         s !in y.pool.workers[w].cells && s !in y.pool.workers[w].remove
  }

  lemma AcceptedUntaken(y: System, s: Ptr)
    requires Inv(y) && s !in y.pool.alive
    ensures var z := Apply(y, Accepted(s));
            Untaken(z, s) && !z.stages[s].outputDone && |z.pool.workers| == |y.pool.workers|
  {
    forall w | 0 <= w < |y.pool.workers|
      ensures s !in y.pool.workers[w].cells && s !in y.pool.workers[w].remove
    {
      assert WorkerInv(y, w);
    }
  }

  lemma OpenedUntaken(y: System, s: Ptr)
    requires Inv(y) && Untaken(y, s) && !y.stages[s].outputDone
    ensures var z := Apply(y, OpenedOutput(s));
            && Untaken(z, s) && |z.pool.workers| == |y.pool.workers|
            && (y.pool.workers != [] ==> s in z.pool.workers[y.pool.index % |y.pool.workers|].add)
  {
  }

  lemma TakenByPass(y: System, w: nat, s: Ptr)
    requires Inv(y) && Untaken(y, s) && w < |y.pool.workers| && s in y.pool.workers[w].add
    ensures var z := Apply(y, Passed(w)); Enabled(z, WriteFailed(w, s)) && Untaken(Apply(z, WriteFailed(w, s)), s)
  {
    PassedKeepsInv(y, w);
  }

  lemma ClosedUntaken(y: System, s: Ptr)
    requires Inv(y) && Untaken(y, s)
    ensures var z := Apply(y, ClosedInput(s));
            Inv(z) && Enabled(z, ClosedOutput(s)) && Kept(Apply(z, ClosedOutput(s)), s)
  {
    ClosedInputKeepsInv(y, s);
    CloseDecides(Apply(y, ClosedInput(s)), s);
  }

  lemma OpenedRun(y: System, es: seq<Event>, s: Ptr)
    requires Inv(y) && IsRun(y, es) && s !in Run(y, es).pool.alive
    ensures var run := es + [Accepted(s)] + [OpenedOutput(s)];
            && IsRun(y, run) && Untaken(Run(y, run), s)
            && var ws := Run(y, es).pool.workers;
               && |Run(y, run).pool.workers| == |ws|
               && (ws != [] ==> s in Run(y, run).pool.workers[Run(y, es).pool.index % |ws|].add)
  {
    RunKeepsInv(y, es);
    AcceptedUntaken(Run(y, es), s);
    RunNext(y, es, Accepted(s));
    OpenedUntaken(Run(y, es + [Accepted(s)]), s);
    RunNext(y, es + [Accepted(s)], OpenedOutput(s));
  }

  lemma ClosedRun(y: System, es: seq<Event>, s: Ptr)
    requires Inv(y) && IsRun(y, es) && Untaken(Run(y, es), s)
    ensures var run := es + [ClosedInput(s)] + [ClosedOutput(s)];
            IsRun(y, run) && Kept(Run(y, run), s)
  {
    RunKeepsInv(y, es);
    ClosedUntaken(Run(y, es), s);
    RunNext(y, es, ClosedInput(s));
    RunNext(y, es + [ClosedInput(s)], ClosedOutput(s));
  }

  // Kept sessions are reached: every run goes on so that the add and the remove of a session meet in one
  // pass of its worker,
  lemma MeetingIsKept(n: nat, es: seq<Event>, s: Ptr)
    requires IsRun(Start(n), es) && s !in Run(Start(n), es).pool.alive
    ensures var run := es + [Accepted(s)] + [OpenedOutput(s)] + [ClosedInput(s)] + [ClosedOutput(s)];
            IsRun(Start(n), run) && Kept(Run(Start(n), run), s)
  {
    OpenedRun(Start(n), es, s);
    ClosedRun(Start(n), es + [Accepted(s)] + [OpenedOutput(s)], s);
  }

  // and so that a write to a session fails before it is closed.
  lemma WriteErrorIsKept(n: nat, es: seq<Event>, s: Ptr)
    requires IsRun(Start(n), es) && s !in Run(Start(n), es).pool.alive && Run(Start(n), es).pool.workers != []
    ensures var w := Run(Start(n), es).pool.index % |Run(Start(n), es).pool.workers|;
            var failed := es + [Accepted(s)] + [OpenedOutput(s)] + [Passed(w)] + [WriteFailed(w, s)];
            var run := failed + [ClosedInput(s)] + [ClosedOutput(s)];
            IsRun(Start(n), run) && Kept(Run(Start(n), run), s)
  {
    var w := Run(Start(n), es).pool.index % |Run(Start(n), es).pool.workers|;
    var begun := es + [Accepted(s)] + [OpenedOutput(s)];
    OpenedRun(Start(n), es, s);
    RunKeepsInv(Start(n), begun);
    TakenByPass(Run(Start(n), begun), w, s);
    RunNext(Start(n), begun, Passed(w));
    RunNext(Start(n), begun + [Passed(w)], WriteFailed(w, s));
    ClosedRun(Start(n), begun + [Passed(w)] + [WriteFailed(w, s)], s);
  }

  // A due session stays due until its worker passes, which deletes it, or fails to write to it, after
  // which it is kept.
  lemma DueStep(y: System, e: Event, w: nat, s: Ptr)
    requires Inv(y) && Enabled(y, e) && w < |y.pool.workers| && Due(y, w, s)
    ensures var z := Apply(y, e);
            if e == Passed(w) then s !in z.pool.alive
            else if e == WriteFailed(w, s) then Kept(z, s)
            else s in z.pool.alive && |z.pool.workers| == |y.pool.workers| && Due(z, w, s)
  {
    assert WorkerInv(y, w);
    match e
    case ClosedInput(t) => ClosedInputKeepsInv(y, t);
    case Passed(v) =>
      PassedKeepsInv(y, v);
      assert WorkerInv(y, v);
    case WriteFailed(v, t) =>
      if v == w && t == s {
        var z := Apply(y, e);
        forall u | 0 <= u < |z.pool.workers|
          ensures !Due(z, u, s)
        {
          assert WorkerInv(y, u);
        }
      }
    case _ =>
  }

  lemma KeptStep(y: System, e: Event, s: Ptr)
    requires Inv(y) && Enabled(y, e) && Kept(y, s)
    ensures Kept(Apply(y, e), s)
  {
    var z := Apply(y, e);
    if e.ClosedInput? {
      ClosedInputKeepsInv(y, e.s);
    } else if e.Passed? {
      PassedKeepsInv(y, e.w);
      assert !Due(y, e.w, s);
    }
    forall u | 0 <= u < |z.pool.workers|
      ensures !Due(z, u, s)
    {
      assert !Due(y, u, s) && WorkerInv(y, u);
    }
  }

  // How often the session at an address is deleted, and how often one is accepted there.
  ghost function Deletions(y: System, es: seq<Event>, s: Ptr): int
    requires IsRun(y, es)
  {
    if es == [] then 0
    else
      Deletions(y, es[..|es| - 1], s)
      + if s in Run(y, es[..|es| - 1]).pool.alive && s !in Run(y, es).pool.alive then 1 else 0
  }

  function Accepts(es: seq<Event>, s: Ptr): int {
    if es == [] then 0 else Accepts(es[..|es| - 1], s) + if es[|es| - 1] == Accepted(s) then 1 else 0
  }

  // Every accepted session is deleted at most once.
  lemma {:induction false} DeletedAtMostOnce(n: nat, es: seq<Event>, s: Ptr)
    requires IsRun(Start(n), es)
    ensures Deletions(Start(n), es, s) == Accepts(es, s) - if s in Run(Start(n), es).pool.alive then 1 else 0
  {
    if es != [] {
      DeletedAtMostOnce(n, es[..|es| - 1], s);
      var y, e := Run(Start(n), es[..|es| - 1]), es[|es| - 1];
      RunKeepsInv(Start(n), es[..|es| - 1]);
      OnlyAcceptedAppears(y, e, s);
    }
  }

  lemma OnlyAcceptedAppears(y: System, e: Event, s: Ptr)
    requires Inv(y) && Enabled(y, e)
    ensures s in Apply(y, e).pool.alive && s !in y.pool.alive <==> e == Accepted(s)
  {
    if e.ClosedInput? {
      ClosedInputKeepsInv(y, e.s);
    } else if e.Passed? {
      PassedKeepsInv(y, e.w);
    }
  }

  // A due session is deleted, once, if and only if its worker passes, provided no write to it fails first.
  lemma {:induction false} DueIsReclaimed(y: System, w: nat, s: Ptr, es: seq<Event>)
    requires Inv(y) && IsRun(y, es) && w < |y.pool.workers| && Due(y, w, s)
    requires WriteFailed(w, s) !in es && Accepted(s) !in es
    ensures Deletions(y, es, s) == if Passed(w) in es then 1 else 0
    ensures Passed(w) !in es ==> |Run(y, es).pool.workers| == |y.pool.workers| && Due(Run(y, es), w, s)
    ensures s in Run(y, es).pool.alive <==> Passed(w) !in es
  {
    RunKeepsInv(y, es);
    if es == [] {
      assert WorkerInv(y, w);
    } else {
      var some, e := es[..|es| - 1], es[|es| - 1];
      assert es == some + [e];
      DueIsReclaimed(y, w, s, some);
      RunKeepsInv(y, some);
      OnlyAcceptedAppears(Run(y, some), e, s);
      if Passed(w) !in some {
        DueStep(Run(y, some), e, w, s);
      }
    }
  }

  // A kept session is never deleted.
  lemma {:induction false} KeptForever(y: System, s: Ptr, es: seq<Event>)
    requires Inv(y) && IsRun(y, es) && Kept(y, s)
    ensures Kept(Run(y, es), s) && s in Run(y, es).pool.alive
    ensures Deletions(y, es, s) == 0
  {
    RunKeepsInv(y, es);
    if es != [] {
      var some := es[..|es| - 1];
      KeptForever(y, s, some);
      RunKeepsInv(y, some);
      KeptStep(Run(y, some), es[|es| - 1], s);
    }
  }

  // ---------- What a worker holds ----------

  // Which sessions a worker holds after a step: those it held, but the ones its pass removes and the one it
  // fails to write to, and those its pass takes.
  lemma HeldExact(y: System, e: Event, w: nat, s: Ptr)
    requires Inv(y) && Enabled(y, e) && w < |y.pool.workers|
    ensures var k, z := y.pool.workers[w], Apply(y, e);
            && |z.pool.workers| == |y.pool.workers|
            && (s in z.pool.workers[w].cells <==>
                  || (s in k.cells && e != WriteFailed(w, s) && !(e == Passed(w) && s in k.remove))
                  || (s in k.add && e == Passed(w)))
  {
    assert WorkerInv(y, w);
  }

  // Which sessions it is to receive, and to remove.
  lemma AskedExact(y: System, e: Event, w: nat, s: Ptr)
    requires Inv(y) && Enabled(y, e) && w < |y.pool.workers|
    ensures var k, l := y.pool.workers[w], Apply(y, e).pool.workers[w];
            && (s in l.add <==>
                  || (s in k.add && e != Passed(w))
                  || (e == OpenedOutput(s) && w == y.pool.index % |y.pool.workers|))
            && (s in l.remove <==>
                  || (s in k.remove && e != Passed(w))
                  || (e == ClosedOutput(s) && s in y.pool.owner && y.pool.owner[s] == w))
  {
  }

  // The workers are taken in turn: the k-th session to be opened goes k places on from the first.
  lemma {:induction false} RoundRobin(y: System, es: seq<Event>)
    requires Inv(y) && IsRun(y, es) && y.pool.workers != []
    ensures Run(y, es).pool.index == y.pool.index + Opens(es)
    ensures |Run(y, es).pool.workers| == |y.pool.workers|
  {
    if es != [] {
      var some, e := es[..|es| - 1], es[|es| - 1];
      RoundRobin(y, some);
      RunKeepsInv(y, some);
      HeldExact(Run(y, some), e, 0, 0);
    }
  }

  function Opens(es: seq<Event>): nat {
    if es == [] then 0 else Opens(es[..|es| - 1]) + if es[|es| - 1].OpenedOutput? then 1 else 0
  }

  // A session has the same owner from the end of its opening to the end of its closing.
  lemma OwnerExact(y: System, e: Event, w: nat, s: Ptr)
    requires Inv(y) && Enabled(y, e)
    ensures var o, o' := y.pool.owner, Apply(y, e).pool.owner;
            (s in o' && o'[s] == w) <==>
              || (s in o && o[s] == w && e != ClosedOutput(s))
              || (e == OpenedOutput(s) && y.pool.workers != [] && w == y.pool.index % |y.pool.workers|)
  {
    if e == OpenedOutput(s) {
      assert s !in y.pool.owner;
    }
  }

  // The worker owns the session, and has it or is about to receive it.
  ghost predicate With(y: System, w: nat, s: Ptr, taken: bool) {
    && w < |y.pool.workers| && s in y.pool.owner && y.pool.owner[s] == w
    && s in (if taken then y.pool.workers[w].cells else y.pool.workers[w].add)
  }

  lemma WithStep(y: System, e: Event, w: nat, s: Ptr, taken: bool)
    requires Inv(y) && Enabled(y, e) && With(y, w, s, taken)
    requires e != ClosedOutput(s) && e != WriteFailed(w, s)
    ensures With(Apply(y, e), w, s, taken || e == Passed(w))
  {
    assert WorkerInv(y, w);
    HeldExact(y, e, w, s);
    AskedExact(y, e, w, s);
    OwnerExact(y, e, w, s);
  }

  // Until it is closed or fails to be written to, it stays with its worker, which takes it when it passes.
  lemma {:induction false} StaysWithItsWorker(y: System, w: nat, s: Ptr, es: seq<Event>)
    requires Inv(y) && IsRun(y, es) && With(y, w, s, false)
    requires ClosedOutput(s) !in es && WriteFailed(w, s) !in es
    ensures With(Run(y, es), w, s, Passed(w) in es)
  {
    if es != [] {
      var some, e := es[..|es| - 1], es[|es| - 1];
      assert es == some + [e];
      StaysWithItsWorker(y, w, s, some);
      RunKeepsInv(y, some);
      WithStep(Run(y, some), e, w, s, Passed(w) in some);
    }
  }

  // The life of a session from its opening to its close and after, whatever else goes on, with no failed
  // write to it: it is deleted, once, if and only if its worker passes both before its close and after;
  // otherwise it is still there, due if it was taken and for ever if not.
  lemma LifeOfASession(y: System, s: Ptr, begun: System, before: seq<Event>, closed: System, after: seq<Event>)
    requires Inv(y) && Enabled(y, OpenedOutput(s)) && y.pool.workers != []
    requires begun == Apply(y, OpenedOutput(s)) && IsRun(begun, before)
    requires var last := Run(begun, before);
             OwnersAreWorkers(last.pool) && Enabled(last, ClosedOutput(s)) && closed == Apply(last, ClosedOutput(s))
    requires IsRun(closed, after)
    requires var w := y.pool.index % |y.pool.workers|;
             WriteFailed(w, s) !in before + after && ClosedOutput(s) !in before && Accepted(s) !in after
    ensures var w := y.pool.index % |y.pool.workers|;
            var reclaimed := Passed(w) in before && Passed(w) in after;
            && Deletions(closed, after, s) == (if reclaimed then 1 else 0)
            && (s in Run(closed, after).pool.alive <==> !reclaimed)
            && (Passed(w) !in before ==> Kept(Run(closed, after), s))
  {
    var w := y.pool.index % |y.pool.workers|;
    OpenedOutputKeepsInv(y, s);
    AskedExact(y, OpenedOutput(s), w, s);
    OwnerExact(y, OpenedOutput(s), w, s);
    StaysWithItsWorker(begun, w, s, before);
    RunKeepsInv(begun, before);
    ClosedWith(Run(begun, before), w, s, Passed(w) in before);
    ClosedOutputKeepsInv(Run(begun, before), s);
    if Passed(w) in before {
      DueIsReclaimed(closed, w, s, after);
    } else {
      KeptForever(closed, s, after);
    }
  }

  lemma ClosedWith(y: System, w: nat, s: Ptr, taken: bool)
    requires Inv(y) && With(y, w, s, taken) && Enabled(y, ClosedOutput(s))
    ensures var z := Apply(y, ClosedOutput(s));
            if taken then w < |z.pool.workers| && Due(z, w, s) else Kept(z, s)
  {
    assert WorkerInv(y, w);
    CloseDecides(y, s);
  }
}
