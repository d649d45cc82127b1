// Guid allocation: the server that hands out ranges of indices and saves its position (guidsys
// AllocGuid.cpp, ManageConfig.cpp), the clients that take guids from their ranges (charsys MakeGuid.cpp),
// and the packing of a guid (share coredef.h).
module GuidAllocation {

  type U32 = n: int | 0 <= n < 0x1_0000_0000
  type U64 = n: int | 0 <= n < 0x1_0000_0000_0000_0000

  const U32_LIMIT := 0x1_0000_0000
  const U64_LIMIT := 0x1_0000_0000_0000_0000
  const MAX_GUID_INDEX := 0x0000_FFFF_FFFF_FFFF

  // ---------- Packing ----------

  const SEED_UNIT := 0x1_0000_0000_0000
  const TYPE_UNIT := 0x100_0000_0000_0000

  // MAKE_GUID, with its masks and shifts of 64-bit words as arithmetic: eight bits of type, eight of seed,
  // 48 of index.
  function PackGuid(entityType: nat, seed: nat, index: nat): nat {
    entityType % 256 * TYPE_UNIT + seed % 256 * SEED_UNIT + index % SEED_UNIT
  }

  // The fields can be read back from a guid, as far as they fit.
  lemma PackingExact(t: nat, s: nat, i: nat)
    ensures var guid := PackGuid(t, s, i);
            && guid < U64_LIMIT
            && guid / TYPE_UNIT == t % 256
            && guid / SEED_UNIT % 256 == s % 256
            && guid % SEED_UNIT == i % SEED_UNIT
  {
    var tt, ss, ii := t % 256, s % 256, i % SEED_UNIT;
    assert PackGuid(t, s, i) == (tt * 256 + ss) * SEED_UNIT + ii;
    assert PackGuid(t, s, i) / SEED_UNIT == tt * 256 + ss;
  }

  lemma PackingInjective(t: nat, s: nat, i: nat, t': nat, s': nat, i': nat)
    requires s < 256 && s' < 256 && i < SEED_UNIT && i' < SEED_UNIT
    requires PackGuid(t, s, i) == PackGuid(t', s', i')
    ensures s == s' && i == i' && t % 256 == t' % 256
  {
    PackingExact(t, s, i);
    PackingExact(t', s', i');
  }

  // ---------- The server ----------

  // A range in the hands of a client, or on its way there: the next index and how many are left.
  datatype GuidInfo = GuidInfo(seed: U32, guidNo: U32, guidRest: U32, index: U64)

  datatype Option<T> = None | Some(value: T)

  // The position in memory and the one in the configuration file.
  datatype Server = Server(seed: U32, index: U64, savedSeed: U32, savedIndex: U64)

  predicate RollsOver(s: Server, n: U32) {
    (s.index + n) % U64_LIMIT >= MAX_GUID_INDEX
  }

  // generateGuid and the reply of processRequest. The range starts at the old index also when the seed
  // is a new one.
  function Generate(s: Server, n: U32, saved: bool): (Server, Option<GuidInfo>) {
    var seed: U32 := if RollsOver(s, n) then (s.seed + 1) % U32_LIMIT else s.seed;
    var index: U64 := if RollsOver(s, n) then 1 + n else (s.index + n) % U64_LIMIT;
    if saved then (Server(seed, index, seed, index), Some(GuidInfo(seed, n, n, s.index)))
    else (s.(seed := seed, index := index), None)
  }

  // A saved request is granted as many indices as it asks for, from the old position on, and the new position
  // is behind them, or behind the first n of the next seed where the indices come to an end at 2^48 - 1. One
  // that is not saved is granted nothing, and a restart knows nothing of it.
  lemma GrantExact(s: Server, n: U32, saved: bool)
    requires s.index < 0xffff_ffff_ffff
    ensures var (t, reply) := Generate(s, n, saved);
            && (if s.index + n < 0xffff_ffff_ffff then t.index == s.index + n && t.seed == s.seed
                else t.index == 1 + n && (s.seed < 0xffff_ffff ==> t.seed == s.seed + 1))
            && (if saved then
                  && reply == Some(GuidInfo(t.seed, n, n, s.index))
                  && Restart(t) == t
                else reply == None && Restart(t) == Restart(s))
  {
  }

  // A restart takes the position from the file.
  function Restart(s: Server): Server {
    s.(seed := s.savedSeed, index := s.savedIndex)
  }

  class ManageConfig {
    var savedSeed: U32
    var savedIndex: U64

    constructor (seed: U32, index: U64)
      ensures savedSeed == seed && savedIndex == index
    {
      savedSeed, savedIndex := seed, index;
    }

    method WriteGuidCfg(seed: U32, index: U64, saves: bool) returns (ok: bool)
      modifies this
      ensures ok == saves
      ensures if saves then savedSeed == seed && savedIndex == index
              else savedSeed == old(savedSeed) && savedIndex == old(savedIndex)
    {
      if saves {
        savedSeed, savedIndex := seed, index;
      }
      ok := saves;
    }
  }

  class AllocGuid {
    var seed: U32
    var index: U64
    const config: ManageConfig

    ghost function State(): Server
      reads this, config
    {
      Server(seed, index, config.savedSeed, config.savedIndex)
    }

    constructor (config: ManageConfig)
      ensures this.config == config && State() == Restart(State())
    {
      this.config := config;
      seed, index := config.savedSeed, config.savedIndex;
    }

    method GenerateGuid(requestNo: U32, saves: bool) returns (ok: bool, generateNo: U32, startIndex: U64)
      modifies this, config
      ensures var r := Generate(old(State()), requestNo, saves);
              && State() == r.0
              && ok == r.1.Some?
              && (ok ==> r.1.value == GuidInfo(seed, generateNo, generateNo, startIndex))
    {
      startIndex := index;
      if (index + requestNo) % U64_LIMIT < MAX_GUID_INDEX {
        generateNo := requestNo;
        index := (index + requestNo) % U64_LIMIT;
      } else {
        index := 1;
        generateNo := requestNo;
        index := (index + requestNo) % U64_LIMIT;
        seed := (seed + 1) % U32_LIMIT;
      }
      ok := config.WriteGuidCfg(seed, index, saves);
    }

    method ProcessRequest(requestNo: U32, saves: bool) returns (reply: Option<GuidInfo>)
      modifies this, config
      ensures (State(), reply) == Generate(old(State()), requestNo, saves)
    {
      var ok, generateNo, startIndex := GenerateGuid(requestNo, saves);
      reply := if ok then Some(GuidInfo(seed, generateNo, generateNo, startIndex)) else None;
    }
  }

  // ---------- The client ----------

  datatype Client = Client(current: GuidInfo, queue: seq<GuidInfo>)

  const EMPTY := GuidInfo(0, 0, 0, 0)
  const FRESH_CLIENT := Client(EMPTY, [])

  // An issued guid before packing.
  datatype Issued = Issued(entityType: nat, seed: U32, index: U64)

  // Takes the next index of a range; the rest is counted in 32 bits.
  function Take(g: GuidInfo): GuidInfo {
    g.(index := (g.index + 1) % U64_LIMIT, guidRest := (g.guidRest - 1) % U32_LIMIT)
  }

  function GetGuid(c: Client, entityType: nat): (Client, Option<Issued>) {
    if c.current.guidRest == 0 && c.queue == [] then (c, None)
    else
      var g := if c.current.guidRest == 0 then c.queue[0] else c.current;
      var queue := if c.current.guidRest == 0 then c.queue[1..] else c.queue;
      (Client(Take(g), queue), Some(Issued(entityType, g.seed, g.index)))
  }

  // What a range stands for: as many indices as its rest says, from its index on.
  function RangeOf(g: GuidInfo, entityType: nat): (s: seq<Issued>)
    ensures |s| == g.guidRest
  {
    seq(g.guidRest, i requires 0 <= i < g.guidRest => Issued(entityType, g.seed, (g.index + i) % U64_LIMIT))
  }

  function RangesOf(gs: seq<GuidInfo>, entityType: nat): seq<Issued> {
    if gs == [] then [] else RangeOf(gs[0], entityType) + RangesOf(gs[1..], entityType)
  }

  // All that a client has to issue, in the order of arrival.
  function Supply(c: Client, entityType: nat): seq<Issued> {
    RangeOf(c.current, entityType) + RangesOf(c.queue, entityType)
  }

  predicate NoneEmpty(gs: seq<GuidInfo>) {
    forall i :: 0 <= i < |gs| ==> gs[i].guidRest != 0
  }

  lemma TakeFromRange(g: GuidInfo, entityType: nat)
    requires g.guidRest != 0
    ensures RangeOf(g, entityType) == [Issued(entityType, g.seed, g.index)] + RangeOf(Take(g), entityType)
  {
    var s, t := RangeOf(g, entityType), RangeOf(Take(g), entityType);
    forall i | 0 <= i < |t| ensures t[i] == s[i + 1] {
      IndexOn(g.index, i);
    }
  }

  lemma IndexOn(index: U64, i: nat)
    ensures ((index + 1) % U64_LIMIT + i) % U64_LIMIT == (index + (i + 1)) % U64_LIMIT
  {
  }

  // A client issues the first of what it has, and has the rest then; it issues nothing when it has nothing.
  lemma GetGuidTakesFirst(c: Client, entityType: nat)
    requires NoneEmpty(c.queue)
    ensures var (d, issued) := GetGuid(c, entityType);
            && NoneEmpty(d.queue)
            && (issued == None <==> Supply(c, entityType) == [])
            && Supply(c, entityType)
               == (if issued == None then [] else [issued.value]) + Supply(d, entityType)
  {
    if c.current.guidRest != 0 {
      TakeFromRange(c.current, entityType);
      JoinThree([Issued(entityType, c.current.seed, c.current.index)], RangeOf(Take(c.current), entityType),
                RangesOf(c.queue, entityType));
    } else if c.queue != [] {
      assert NoneEmpty(c.queue[1..]);
      TakeFromRange(c.queue[0], entityType);
      JoinThree([Issued(entityType, c.queue[0].seed, c.queue[0].index)], RangeOf(Take(c.queue[0]), entityType),
                RangesOf(c.queue[1..], entityType));
    }
  }

  lemma JoinThree<T>(a: seq<T>, b: seq<T>, c: seq<T>)
    ensures a + b + c == a + (b + c)
  {
  }

  // The client after k calls, and their results.
  function GetGuids(c: Client, entityType: nat, k: nat): (Client, seq<Option<Issued>>) {
    if k == 0 then (c, [])
    else
      var r := GetGuids(c, entityType, k - 1);
      var q := GetGuid(r.0, entityType);
      (q.0, r.1 + [q.1])
  }

  // The results that come of a supply, and what is left of it.
  predicate TakenInOrder(supply: seq<Issued>, results: seq<Option<Issued>>, rest: seq<Issued>) {
    && (forall i :: 0 <= i < |results| ==> results[i] == if i < |supply| then Some(supply[i]) else None)
    && rest == if |results| <= |supply| then supply[|results|..] else []
  }

  lemma TakenOneMore(
      supply: seq<Issued>, results: seq<Option<Issued>>, rest: seq<Issued>, o: Option<Issued>, rest': seq<Issued>)
    requires TakenInOrder(supply, results, rest)
    requires o == None <==> rest == []
    requires rest == (if o == None then [] else [o.value]) + rest'
    ensures TakenInOrder(supply, results + [o], rest')
  {
    if o == None {
      assert rest' == [];
    } else {
      assert rest[0] == o.value && rest[1..] == rest';
    }
  }

  // Any number of calls: each gets the next of all that the client has, and those after the last get none.
  lemma {:induction false} IssuesInOrder(c: Client, entityType: nat, k: nat)
    requires NoneEmpty(c.queue)
    ensures var r := GetGuids(c, entityType, k);
            && |r.1| == k && NoneEmpty(r.0.queue)
            && TakenInOrder(Supply(c, entityType), r.1, Supply(r.0, entityType))
  {
    if k != 0 {
      IssuesInOrder(c, entityType, k - 1);
      var r := GetGuids(c, entityType, k - 1);
      GetGuidTakesFirst(r.0, entityType);
      var (d, o) := GetGuid(r.0, entityType);
      TakenOneMore(Supply(c, entityType), r.1, Supply(r.0, entityType), o, Supply(d, entityType));
    }
  }

  // So a client with a range of n indices, at the front, issues them in n calls, in order.
  lemma RangeIsIssued(c: Client, entityType: nat, n: nat)
    requires NoneEmpty(c.queue)
    requires c.current.guidRest != 0 || c.queue != []
    requires n <= (if c.current.guidRest != 0 then c.current else c.queue[0]).guidRest
    ensures var g := if c.current.guidRest != 0 then c.current else c.queue[0];
            var issued := GetGuids(c, entityType, n).1;
            && |issued| == n
            && forall i :: 0 <= i < n ==> issued[i] == Some(Issued(entityType, g.seed, (g.index + i) % U64_LIMIT))
  {
    IssuesInOrder(c, entityType, n);
    var g := if c.current.guidRest != 0 then c.current else c.queue[0];
    FrontOfSupply(c, entityType, g);
  }

  lemma FrontOfSupply(c: Client, entityType: nat, g: GuidInfo)
    requires c.current.guidRest != 0 || c.queue != []
    requires g == if c.current.guidRest != 0 then c.current else c.queue[0]
    ensures g.guidRest <= |Supply(c, entityType)|
    ensures forall i :: 0 <= i < g.guidRest ==>
              Supply(c, entityType)[i] == Issued(entityType, g.seed, (g.index + i) % U64_LIMIT)
  {
    assert RangeOf(g, entityType) <= Supply(c, entityType);
  }

  // An arriving range comes behind what is there.
  lemma {:induction false} ArrivingComesLast(gs: seq<GuidInfo>, g: GuidInfo, entityType: nat)
    ensures RangesOf(gs + [g], entityType) == RangesOf(gs, entityType) + RangeOf(g, entityType)
  {
    if gs == [] {
      assert [] + [g] == [g] && [g][1..] == [];
      assert RangeOf(g, entityType) + [] == RangeOf(g, entityType);
    } else {
      assert (gs + [g])[1..] == gs[1..] + [g];
      ArrivingComesLast(gs[1..], g, entityType);
      JoinThree(RangeOf(gs[0], entityType), RangesOf(gs[1..], entityType), RangeOf(g, entityType));
    }
  }

  class MakeGuid {
    var info: GuidInfo
    var queue: seq<GuidInfo>

    ghost function State(): Client
      reads this
    {
      Client(info, queue)
    }

    constructor ()
      ensures State() == FRESH_CLIENT
    {
      info, queue := EMPTY, [];
    }

    method GetGuidInfo() returns (ok: bool)
      modifies this
      ensures ok == (old(queue) != [])
      ensures if ok then info == old(queue)[0] && queue == old(queue)[1..] else info == old(info) && queue == old(queue)
    {
      ok := |queue| > 0;
      if ok {
        info, queue := queue[0], queue[1..];
      }
    }

    method Get(entityType: nat) returns (ok: bool, guid: nat)
      modifies this
      ensures var r := GetGuid(old(State()), entityType);
              && State() == r.0
              && ok == r.1.Some?
              && (ok ==> guid == PackGuid(entityType, r.1.value.seed, r.1.value.index))
    {
      guid := 0;
      if info.guidRest == 0 {
        ok := GetGuidInfo();
        if !ok {
          return;
        }
      }
      ok := true;
      guid := PackGuid(entityType, info.seed, info.index);
      info := info.(index := (info.index + 1) % U64_LIMIT);
      info := info.(guidRest := (info.guidRest - 1) % U32_LIMIT);
    }

    method ParsePack(g: GuidInfo)
      modifies this
      ensures State() == old(State()).(queue := old(queue) + [g])
    {
      queue := queue + [g];
    }
  }

  // ---------- Server and clients together ----------

  // The clients, the replies under way with their receivers, and every guid issued so far.
  datatype System = System(server: Server, clients: seq<Client>, net: seq<(nat, GuidInfo)>, issued: seq<Issued>)

  datatype Event =
    | Request(client: nat, n: U32, saved: bool)
    | Arrives(k: nat)
    | Lost(k: nat)
    | Takes(client: nat, entityType: nat)
    | ClientCrashes(client: nat)
    | ServerRestarts

  function RemoveAt<T>(s: seq<T>, k: nat): seq<T>
    requires k < |s|
  {
    s[..k] + s[k + 1..]
  }

  predicate Enabled(y: System, e: Event) {
    match e
    case Request(c, _, _) => c < |y.clients|
    case Arrives(k) => k < |y.net| && y.net[k].0 < |y.clients|
    case Lost(k) => k < |y.net|
    case Takes(c, _) => c < |y.clients|
    case ClientCrashes(c) => c < |y.clients|
    case ServerRestarts => true
  }

  function Apply(y: System, e: Event): System
    requires Enabled(y, e)
  {
    match e
    case Request(c, n, saved) =>
      var r := Generate(y.server, n, saved);
      y.(server := r.0, net := if r.1.Some? then y.net + [(c, r.1.value)] else y.net)
    case Arrives(k) =>
      var c, g := y.net[k].0, y.net[k].1;
      y.(net := RemoveAt(y.net, k), clients := y.clients[c := y.clients[c].(queue := y.clients[c].queue + [g])])
    case Lost(k) => y.(net := RemoveAt(y.net, k))
    case Takes(c, entityType) =>
      var r := GetGuid(y.clients[c], entityType);
      y.(clients := y.clients[c := r.0], issued := if r.1.Some? then y.issued + [r.1.value] else y.issued)
    case ClientCrashes(c) => y.(clients := y.clients[c := FRESH_CLIENT])
    case ServerRestarts => y.(server := Restart(y.server))
  }

  // Every request asks for something, and none comes to the end of the indices.
  predicate BeforeRollover(y: System, e: Event) {
    e.Request? ==> e.n > 0 && !RollsOver(y.server, e.n)
  }

  // ---------- Counting ----------

  // How often the index x of seed s is held by clients, under way, or issued.
  function InRange(g: GuidInfo, s: U32, x: nat): nat {
    if g.seed == s && g.index <= x < g.index + g.guidRest then 1 else 0
  }

  function InRanges(gs: seq<GuidInfo>, s: U32, x: nat): nat {
    if gs == [] then 0 else InRange(gs[0], s, x) + InRanges(gs[1..], s, x)
  }

  function InClient(c: Client, s: U32, x: nat): nat {
    InRange(c.current, s, x) + InRanges(c.queue, s, x)
  }

  function InClients(cs: seq<Client>, s: U32, x: nat): nat {
    if cs == [] then 0 else InClient(cs[0], s, x) + InClients(cs[1..], s, x)
  }

  function InNet(net: seq<(nat, GuidInfo)>, s: U32, x: nat): nat {
    if net == [] then 0 else InRange(net[0].1, s, x) + InNet(net[1..], s, x)
  }

  function InIssued(issued: seq<Issued>, s: U32, x: nat): nat {
    if issued == [] then 0
    else InIssued(issued[..|issued| - 1], s, x) + Is(issued[|issued| - 1], s, x)
  }

  function Is(i: Issued, s: U32, x: nat): nat {
    if i.seed == s && i.index == x then 1 else 0
  }

  function Count(y: System, s: U32, x: nat): nat {
    InClients(y.clients, s, x) + InNet(y.net, s, x) + InIssued(y.issued, s, x)
  }

  lemma {:induction false} RangesAppend(gs: seq<GuidInfo>, g: GuidInfo, s: U32, x: nat)
    ensures InRanges(gs + [g], s, x) == InRanges(gs, s, x) + InRange(g, s, x)
  {
    if gs == [] {
      assert gs + [g] == [g] && [g][1..] == [];
    } else {
      assert (gs + [g])[1..] == gs[1..] + [g];
      RangesAppend(gs[1..], g, s, x);
    }
  }

  lemma {:induction false} ClientsUpdate(cs: seq<Client>, c: nat, d: Client, s: U32, x: nat)
    requires c < |cs|
    ensures InClients(cs[c := d], s, x) == InClients(cs, s, x) - InClient(cs[c], s, x) + InClient(d, s, x)
  {
    if c == 0 {
      assert cs[c := d][1..] == cs[1..];
    } else {
      assert cs[c := d][1..] == cs[1..][c - 1 := d];
      ClientsUpdate(cs[1..], c - 1, d, s, x);
    }
  }

  lemma {:induction false} NetAppend(net: seq<(nat, GuidInfo)>, c: nat, g: GuidInfo, s: U32, x: nat)
    ensures InNet(net + [(c, g)], s, x) == InNet(net, s, x) + InRange(g, s, x)
  {
    if net == [] {
      assert net + [(c, g)] == [(c, g)] && [(c, g)][1..] == [];
    } else {
      assert (net + [(c, g)])[1..] == net[1..] + [(c, g)];
      NetAppend(net[1..], c, g, s, x);
    }
  }

  lemma {:induction false} NetRemove(net: seq<(nat, GuidInfo)>, k: nat, s: U32, x: nat)
    requires k < |net|
    ensures InNet(RemoveAt(net, k), s, x) == InNet(net, s, x) - InRange(net[k].1, s, x)
  {
    if k == 0 {
      assert RemoveAt(net, k) == net[1..];
    } else {
      assert RemoveAt(net, k)[1..] == RemoveAt(net[1..], k - 1);
      NetRemove(net[1..], k - 1, s, x);
    }
  }

  lemma IssuedAppend(issued: seq<Issued>, i: Issued, s: U32, x: nat)
    ensures InIssued(issued + [i], s, x) == InIssued(issued, s, x) + Is(i, s, x)
  {
    assert (issued + [i])[..|issued|] == issued;
  }

  // ---------- Uniqueness ----------

  // A range on its way or waiting: not empty, and below the end of the indices.
  predicate Proper(g: GuidInfo, seed: U32) {
    g.seed == seed && g.guidRest > 0 && g.index + g.guidRest <= MAX_GUID_INDEX
  }

  ghost predicate ClientInv(c: Client, seed: U32) {
    && (c.current.guidRest > 0 ==> Proper(c.current, seed))
    && forall i :: 0 <= i < |c.queue| ==> Proper(c.queue[i], seed)
  }

  // Each index is in one place at most, and only those below the saved position are anywhere at all.
  ghost predicate Inv(y: System, seed: U32) {
    && y.server.seed == y.server.savedSeed == seed
    && y.server.savedIndex <= y.server.index < MAX_GUID_INDEX
    && (forall s: U32, x: nat :: Count(y, s, x) <= if s == seed && x < y.server.savedIndex then 1 else 0)
    && (forall i :: 0 <= i < |y.clients| ==> ClientInv(y.clients[i], seed))
    && (forall i :: 0 <= i < |y.net| ==> Proper(y.net[i].1, seed))
    && (forall i :: 0 <= i < |y.issued| ==> y.issued[i].seed == seed && y.issued[i].index < MAX_GUID_INDEX)
  }

  lemma TakeCounts(c: Client, entityType: nat, seed: U32, s: U32, x: nat)
    requires ClientInv(c, seed)
    ensures var r := GetGuid(c, entityType);
            && ClientInv(r.0, seed)
            && InClient(c, s, x) == InClient(r.0, s, x) + (if r.1.Some? then Is(r.1.value, s, x) else 0)
            && (r.1.Some? ==> r.1.value.seed == seed && r.1.value.index < MAX_GUID_INDEX)
  {
    if !(c.current.guidRest == 0 && c.queue == []) {
      var g := if c.current.guidRest == 0 then c.queue[0] else c.current;
      assert Proper(g, seed);
      assert Take(g) == g.(index := g.index + 1, guidRest := g.guidRest - 1);
    }
  }

  lemma StepCounts(y: System, e: Event, seed: U32, s: U32, x: nat)
    requires Inv(y, seed) && Enabled(y, e) && BeforeRollover(y, e)
    ensures Count(Apply(y, e), s, x)
            <= if s == seed && x < Apply(y, e).server.savedIndex then 1 else 0
  {
    assert Count(y, s, x) <= if s == seed && x < y.server.savedIndex then 1 else 0;
    match e
    case Request(c, n, saved) =>
      if saved {
        NetAppend(y.net, c, GuidInfo(seed, n, n, y.server.index), s, x);
      }
    case Arrives(k) =>
      var c, g := y.net[k].0, y.net[k].1;
      NetRemove(y.net, k, s, x);
      RangesAppend(y.clients[c].queue, g, s, x);
      ClientsUpdate(y.clients, c, y.clients[c].(queue := y.clients[c].queue + [g]), s, x);
    case Lost(k) =>
      NetRemove(y.net, k, s, x);
    case Takes(c, entityType) =>
      var r := GetGuid(y.clients[c], entityType);
      TakeCounts(y.clients[c], entityType, seed, s, x);
      ClientsUpdate(y.clients, c, r.0, s, x);
      if r.1.Some? {
        IssuedAppend(y.issued, r.1.value, s, x);
      }
    case ClientCrashes(c) =>
      ClientsUpdate(y.clients, c, FRESH_CLIENT, s, x);
    case ServerRestarts =>
  }

  lemma StepKeepsInv(y: System, e: Event, seed: U32)
    requires Inv(y, seed) && Enabled(y, e) && BeforeRollover(y, e)
    ensures Inv(Apply(y, e), seed)
  {
    var z := Apply(y, e);
    forall s: U32, x: nat
      ensures Count(z, s, x) <= if s == seed && x < z.server.savedIndex then 1 else 0
    {
      StepCounts(y, e, seed, s, x);
    }
    if e.Takes? {
      TakeCounts(y.clients[e.client], e.entityType, seed, seed, 0);
    }
  }

  function Start(seed: U32, index: U64, clients: nat): System {
    System(Server(seed, index, seed, index), seq(clients, _ => FRESH_CLIENT), [], [])
  }

  lemma {:induction false} NothingHeldAtStart(n: nat, s: U32, x: nat)
    ensures InClients(seq(n, _ => FRESH_CLIENT), s, x) == 0
  {
    var cs := seq(n, _ => FRESH_CLIENT);
    if n != 0 {
      assert cs[1..] == seq(n - 1, _ => FRESH_CLIENT);
      NothingHeldAtStart(n - 1, s, x);
    }
  }

  lemma StartKeepsInv(seed: U32, index: U64, clients: nat)
    requires index < MAX_GUID_INDEX
    ensures Inv(Start(seed, index, clients), seed)
  {
    forall s: U32, x: nat
      ensures Count(Start(seed, index, clients), s, x) == 0
    {
      NothingHeldAtStart(clients, s, x);
    }
  }

  // Runs whose requests all come before the first rollover.
  predicate IsRun(y: System, es: seq<Event>)
    decreases |es|, 0
  {
    es == []
    || (&& IsRun(y, es[..|es| - 1])
        && Enabled(Run(y, es[..|es| - 1]), es[|es| - 1])
        && BeforeRollover(Run(y, es[..|es| - 1]), es[|es| - 1]))
  }

  function Run(y: System, es: seq<Event>): System
    requires IsRun(y, es)
    decreases |es|, 1
  {
    if es == [] then y else Apply(Run(y, es[..|es| - 1]), es[|es| - 1])
  }

  lemma {:induction false} RunKeepsInv(y: System, es: seq<Event>, seed: U32)
    requires Inv(y, seed) && IsRun(y, es)
    ensures Inv(Run(y, es), seed)
  {
    if es != [] {
      RunKeepsInv(y, es[..|es| - 1], seed);
      StepKeepsInv(Run(y, es[..|es| - 1]), es[|es| - 1], seed);
    }
  }

  lemma {:induction false} IssuedOnce(issued: seq<Issued>, i: nat)
    requires i < |issued|
    ensures InIssued(issued, issued[i].seed, issued[i].index) >= 1
  {
    if i < |issued| - 1 {
      IssuedOnce(issued[..|issued| - 1], i);
    }
  }

  lemma {:induction false} IssuedTwice(issued: seq<Issued>, i: nat, j: nat)
    requires i < j < |issued| && issued[i].seed == issued[j].seed && issued[i].index == issued[j].index
    ensures InIssued(issued, issued[i].seed, issued[i].index) >= 2
  {
    var some := issued[..|issued| - 1];
    if j < |issued| - 1 {
      IssuedTwice(some, i, j);
    } else {
      IssuedOnce(some, i);
    }
  }

  // With any number of clients, any interleaving, lost replies, client crashes, failed saves and server
  // restarts, no guid is issued twice before the first rollover, whatever the entity types.
  lemma GuidsAreUnique(seed: U32, index: U64, clients: nat, es: seq<Event>, i: nat, j: nat)
    requires seed < 256 && index < MAX_GUID_INDEX && IsRun(Start(seed, index, clients), es)
    requires i < j < |Run(Start(seed, index, clients), es).issued|
    ensures var issued := Run(Start(seed, index, clients), es).issued;
            PackGuid(issued[i].entityType, issued[i].seed, issued[i].index)
            != PackGuid(issued[j].entityType, issued[j].seed, issued[j].index)
  {
    StartKeepsInv(seed, index, clients);
    var y := Run(Start(seed, index, clients), es);
    RunKeepsInv(Start(seed, index, clients), es, seed);
    var a, b := y.issued[i], y.issued[j];
    assert Count(y, a.seed, a.index) <= 1;
    if PackGuid(a.entityType, a.seed, a.index) == PackGuid(b.entityType, b.seed, b.index) {
      PackingInjective(a.entityType, a.seed, a.index, b.entityType, b.seed, b.index);
      IssuedTwice(y.issued, i, j);
    }
  }

  // ---------- Where uniqueness stops ----------

  // A client that is given a range starts with an index of that range, below the position of the server,
  // if and only if it asked for at least one: an empty range is taken from all the same.
  lemma EmptyRangesAreTaken(s: Server, n: U32, entityType: nat)
    requires s.index < MAX_GUID_INDEX && !RollsOver(s, n)
    ensures var r := Generate(s, n, true);
            var t := GetGuid(Client(EMPTY, [r.1.value]), entityType);
            && t.1.Some? && (t.1.value.index < r.0.index <==> n > 0)
            && (n == 0 ==> t.0.current.guidRest == U32_LIMIT - 1)
  {
  }

  // Two clients that ask for empty ranges are issued the same guid.
  lemma EmptyRangesRepeatAGuid(s: Server, entityType: nat)
    requires s.index < MAX_GUID_INDEX - 1
    ensures var r := Generate(s, 0, true);
            var q := Generate(r.0, 0, true);
            GetGuid(Client(EMPTY, [r.1.value]), entityType).1 == GetGuid(Client(EMPTY, [q.1.value]), entityType).1
  {
  }

  predicate Overlap(g: GuidInfo, h: GuidInfo) {
    && g.seed == h.seed && g.guidRest > 0 && h.guidRest > 0
    && g.index < h.index + h.guidRest && h.index < g.index + g.guidRest
  }

  ghost predicate FreshAmong(g: GuidInfo, granted: seq<GuidInfo>) {
    forall i :: 0 <= i < |granted| ==> !Overlap(g, granted[i])
  }

  // Before the first rollover: every range granted is below the position.
  ghost predicate FirstEra(s: Server, granted: seq<GuidInfo>) {
    && s.index < MAX_GUID_INDEX
    && forall i :: 0 <= i < |granted| ==> granted[i].seed == s.seed && granted[i].index + granted[i].guidRest <= s.index
  }

  // After it: the range granted at the rollover starts at the old position, under the new seed; the others
  // of the new seed are below the new position.
  ghost predicate SecondEra(s: Server, granted: seq<GuidInfo>, k: nat) {
    && s.index < MAX_GUID_INDEX && k < |granted|
    && granted[k].seed == s.seed && granted[k].guidRest < s.index
    && forall i :: 0 <= i < |granted| && i != k ==>
         granted[i].seed != s.seed || granted[i].index + granted[i].guidRest <= s.index
  }

  // Up to and including the rollover every range is fresh.
  lemma FirstEraIsFresh(s: Server, granted: seq<GuidInfo>, n: U32)
    requires FirstEra(s, granted)
    ensures var r := Generate(s, n, true);
            && FreshAmong(r.1.value, granted)
            && (if RollsOver(s, n) then SecondEra(r.0, granted + [r.1.value], |granted|)
                else FirstEra(r.0, granted + [r.1.value]))
  {
  }

  // After it a range is fresh exactly when it does not reach into the one granted at the rollover.
  lemma SecondEraExact(s: Server, granted: seq<GuidInfo>, k: nat, n: U32)
    requires SecondEra(s, granted, k) && !RollsOver(s, n)
    ensures var r := Generate(s, n, true);
            var h := granted[k];
            && SecondEra(r.0, granted + [r.1.value], k)
            && (FreshAmong(r.1.value, granted)
                <==> n == 0 || h.guidRest == 0 || s.index + n <= h.index || h.index + h.guidRest <= s.index)
  {
    var g := Generate(s, n, true).1.value;
    assert Overlap(g, granted[k]) ==> !FreshAmong(g, granted);
  }

  // The requests ns are served in turn, none of them rolling over, and the range for the last one overlaps
  // one granted before.
  ghost predicate Meets(s: Server, granted: seq<GuidInfo>, ns: seq<U32>)
    decreases |ns|
  {
    && ns != [] && !RollsOver(s, ns[0])
    && var r := Generate(s, ns[0], true);
       if |ns| == 1 then !FreshAmong(r.1.value, granted) else Meets(r.0, granted + [r.1.value], ns[1..])
  }

  lemma {:induction false} Climbs(s: Server, granted: seq<GuidInfo>, k: nat) returns (ns: seq<U32>)
    requires SecondEra(s, granted, k) && granted[k].guidRest > 0
    requires s.index <= granted[k].index < MAX_GUID_INDEX - 1
    ensures Meets(s, granted, ns)
    decreases granted[k].index - s.index
  {
    var gap := granted[k].index + 1 - s.index;
    var n: U32 := if gap < U32_LIMIT then gap else U32_LIMIT - 1;
    SecondEraExact(s, granted, k, n);
    if n == gap {
      ns := [n];
    } else {
      var r := Generate(s, n, true);
      var more := Climbs(r.0, granted + [r.1.value], k);
      ns := [n] + more;
      assert ns[1..] == more;
    }
  }

  lemma {:induction false} NeverMeets(s: Server, granted: seq<GuidInfo>, k: nat, ns: seq<U32>)
    requires SecondEra(s, granted, k) && granted[k].index == MAX_GUID_INDEX - 1
    ensures !Meets(s, granted, ns)
    decreases |ns|
  {
    if ns != [] && !RollsOver(s, ns[0]) {
      var r := Generate(s, ns[0], true);
      SecondEraExact(s, granted, k, ns[0]);
      if |ns| > 1 {
        NeverMeets(r.0, granted + [r.1.value], k, ns[1..]);
      }
    }
  }

  lemma MeetsSome(s: Server, granted: seq<GuidInfo>, ns: seq<U32>)
    requires Meets(s, granted, ns)
    ensures exists ms :: Meets(s, granted, ms)
  {
  }

  // From any position in the first era, whatever was granted: after a rollover some further requests are
  // granted a range that is not fresh, before the next rollover, unless the position was the very last.
  lemma RolloverIsMet(s: Server, granted: seq<GuidInfo>, n: U32)
    requires FirstEra(s, granted) && RollsOver(s, n)
    ensures var r := Generate(s, n, true);
            (exists ns :: Meets(r.0, granted + [r.1.value], ns)) <==> s.index < MAX_GUID_INDEX - 1
  {
    FirstEraIsFresh(s, granted, n);
    var r := Generate(s, n, true);
    var all := granted + [r.1.value];
    if s.index < MAX_GUID_INDEX - 1 {
      var ns := Climbs(r.0, all, |granted|);
      MeetsSome(r.0, all, ns);
    } else {
      forall ns ensures !Meets(r.0, all, ns) {
        NeverMeets(r.0, all, |granted|, ns);
      }
    }
  }
}
