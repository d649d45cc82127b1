// Matching replies to requests: the table of ManageRemoteCache.cpp:74-109 and 218-242 that finds the map
// and the request a cache reply belongs to, and the request list of PoolAssistant.cpp:217-272.
module Replies {

  type U64 = n: int | 0 <= n < 0x1_0000_0000_0000_0000

  datatype Option<T> = None | Some(value: T)

  function RemoveAt<T>(s: seq<T>, k: nat): seq<T>
    requires k < |s|
  {
    s[..k] + s[k + 1..]
  }

  // The position of the first element with a guid, or the length when there is none.
  function First<T>(s: seq<T>, guidOf: T -> U64, guid: U64): (k: nat)
    ensures k <= |s|
    ensures k < |s| ==> guidOf(s[k]) == guid
    ensures forall i :: 0 <= i < k ==> guidOf(s[i]) != guid
  {
    if s == [] || guidOf(s[0]) == guid then 0 else 1 + First(s[1..], guidOf, guid)
  }

  // ---------- The table of ManageRemoteCache ----------

  datatype ReqPackInfo = ReqPackInfo(requestId: U64, guid: U64, mapId: U64)

  function EntryGuid(e: ReqPackInfo): U64 { e.guid }

  function Find(table: seq<ReqPackInfo>, guid: U64): nat {
    First(table, EntryGuid, guid)
  }

  class ManageRemoteCache {
    var guidVec: seq<ReqPackInfo>

    constructor ()
      ensures guidVec == []
    {
      guidVec := [];
    }

    // The first block of cacheOutput; the packet is handed to the output side after it.
    method Record(requestId: U64, guid: U64, mapId: U64)
      modifies this
      ensures guidVec == if requestId != 0 then old(guidVec) + [ReqPackInfo(requestId, guid, mapId)] else old(guidVec)
    {
      if 0 != requestId {
        guidVec := guidVec + [ReqPackInfo(requestId, guid, mapId)];
      }
    }

    method GetMapID(guid: U64, erase: bool) returns (found: Option<ReqPackInfo>)
      modifies this
      ensures var k := Find(old(guidVec), guid);
              if k == |old(guidVec)| then found == None && guidVec == old(guidVec)
              else
                && found == Some(old(guidVec)[k])
                && guidVec == if erase then RemoveAt(old(guidVec), k) else old(guidVec)
    {
      var k := 0;
      while k < |guidVec| && guidVec[k].guid != guid
        invariant 0 <= k <= |guidVec| && guidVec == old(guidVec)
        invariant forall i :: 0 <= i < k ==> guidVec[i].guid != guid
      {
        k := k + 1;
      }
      if k == |guidVec| {
        return None;
      }
      found := Some(guidVec[k]);
      if erase {
        guidVec := RemoveAt(guidVec, k);
      }
    }
  }

  // ---------- Every interleaving ----------

  // Requests that have no reply yet, in the order in which cacheOutput was entered, and whether they are sent.
  datatype Pending = Pending(info: ReqPackInfo, sent: bool)

  // The table, the requests without a reply, and the histories: the requests in the order in which they
  // passed the first block of cacheOutput, in which they went out, and in which they were answered.
  datatype Traffic = Traffic(
    table: seq<ReqPackInfo>, pending: seq<Pending>,
    asked: seq<ReqPackInfo>, wire: seq<ReqPackInfo>, answered: seq<ReqPackInfo>)

  // cacheOutput records under one lock and sends under another, so that threads come between; a reply is
  // for a request that was sent. Replies may come in any order.
  datatype Event = Records(info: ReqPackInfo) | Sends(k: nat) | Reply(k: nat)

  predicate Enabled(y: Traffic, e: Event) {
    match e
    case Records(_) => true
    case Sends(k) => k < |y.pending| && !y.pending[k].sent
    case Reply(k) => k < |y.pending| && y.pending[k].sent
  }

  // What ISessionIn_syncRead finds for a reply with this guid.
  function Found(y: Traffic, guid: U64): Option<ReqPackInfo> {
    var k := Find(y.table, guid);
    if k == |y.table| then None else Some(y.table[k])
  }

  function Apply(y: Traffic, e: Event): Traffic
    requires Enabled(y, e)
  {
    match e
    case Records(i) =>
      y.(table := if i.requestId != 0 then y.table + [i] else y.table,
         pending := y.pending + [Pending(i, false)],
         asked := y.asked + [i])
    case Sends(k) =>
      y.(pending := y.pending[k := y.pending[k].(sent := true)], wire := y.wire + [y.pending[k].info])
    case Reply(k) =>
      var f := Find(y.table, y.pending[k].info.guid);
      y.(table := if f == |y.table| then y.table else RemoveAt(y.table, f),
         pending := RemoveAt(y.pending, k),
         answered := y.answered + [y.pending[k].info])
  }

  const START := Traffic([], [], [], [], [])

  ghost predicate IsRun(es: seq<Event>)
    decreases |es|, 0
  {
    es == [] || (IsRun(es[..|es| - 1]) && Enabled(Run(es[..|es| - 1]), es[|es| - 1]))
  }

  ghost function Run(es: seq<Event>): Traffic
    requires IsRun(es)
    decreases |es|, 1
  {
    if es == [] then START else Apply(Run(es[..|es| - 1]), es[|es| - 1])
  }

  lemma RunNext(es: seq<Event>, e: Event)
    requires IsRun(es) && Enabled(Run(es), e)
    ensures IsRun(es + [e]) && Run(es + [e]) == Apply(Run(es), e)
  {
    assert (es + [e])[..|es|] == es;
  }

  // All requests of a guid, or only those with an id, which are the ones recorded.
  datatype Choice = Of(guid: U64) | WithId(guid: U64)

  predicate Chosen(c: Choice, e: ReqPackInfo) {
    e.guid == c.guid && (c.WithId? ==> e.requestId != 0)
  }

  function Pick(s: seq<ReqPackInfo>, c: Choice): seq<ReqPackInfo> {
    if s == [] then [] else (if Chosen(c, s[0]) then [s[0]] else []) + Pick(s[1..], c)
  }

  lemma {:induction false} PickConcat(a: seq<ReqPackInfo>, b: seq<ReqPackInfo>, c: Choice)
    ensures Pick(a + b, c) == Pick(a, c) + Pick(b, c)
  {
    if a == [] {
      assert a + b == b;
    } else {
      var h := if Chosen(c, a[0]) then [a[0]] else [];
      assert (a + b)[1..] == a[1..] + b;
      PickConcat(a[1..], b, c);
      assert h + (Pick(a[1..], c) + Pick(b, c)) == h + Pick(a[1..], c) + Pick(b, c);
    }
  }

  lemma PickMore(s: seq<ReqPackInfo>, e: ReqPackInfo, c: Choice)
    ensures Pick(s + [e], c) == if Chosen(c, e) then Pick(s, c) + [e] else Pick(s, c)
  {
    PickConcat(s, [e], c);
    assert [e][1..] == [] && Pick([], c) == [];
    assert Pick(s, c) + [] == Pick(s, c);
  }

  lemma PickRemove(s: seq<ReqPackInfo>, k: nat, c: Choice)
    requires k < |s|
    ensures |Pick(RemoveAt(s, k), c)| == |Pick(s, c)| - if Chosen(c, s[k]) then 1 else 0
  {
    assert s == s[..k] + ([s[k]] + s[k + 1..]);
    PickAround(s[..k], s[k], s[k + 1..], c);
  }

  lemma {:induction false} NonePicked(s: seq<ReqPackInfo>, c: Choice)
    requires forall i :: 0 <= i < |s| ==> !Chosen(c, s[i])
    ensures Pick(s, c) == []
  {
    if s != [] {
      NonePicked(s[1..], c);
    }
  }

  lemma PickAround(a: seq<ReqPackInfo>, e: ReqPackInfo, b: seq<ReqPackInfo>, c: Choice)
    ensures Pick(a + b, c) == Pick(a, c) + Pick(b, c)
    ensures Pick(a + ([e] + b), c) == Pick(a, c) + ((if Chosen(c, e) then [e] else []) + Pick(b, c))
  {
    PickConcat(a, b, c);
    PickConcat(a, [e] + b, c);
    assert ([e] + b)[1..] == b;
  }

  // Finding and erasing, seen per guid: the first of the guid is found, and the others stay.
  lemma FindPicks(table: seq<ReqPackInfo>, guid: U64, other: U64)
    ensures var f := Find(table, guid);
            && (f == |table| <==> Pick(table, Of(guid)) == [])
            && (f < |table| ==> Pick(table, Of(guid)) == [table[f]] + Pick(RemoveAt(table, f), Of(guid)))
            && (f < |table| && other != guid ==> Pick(RemoveAt(table, f), Of(other)) == Pick(table, Of(other)))
  {
    FirstPicks(table, Find(table, guid), guid, other);
  }

  lemma FirstPicks(table: seq<ReqPackInfo>, f: nat, guid: U64, other: U64)
    requires f <= |table| && (f < |table| ==> table[f].guid == guid)
    requires forall i :: 0 <= i < f ==> table[i].guid != guid
    ensures f == |table| ==> Pick(table, Of(guid)) == []
    ensures f < |table| ==> Pick(table, Of(guid)) == [table[f]] + Pick(RemoveAt(table, f), Of(guid))
    ensures f < |table| && other != guid ==> Pick(RemoveAt(table, f), Of(other)) == Pick(table, Of(other))
  {
    if f == |table| {
      NonePicked(table, Of(guid));
    } else {
      assert table == table[..f] + ([table[f]] + table[f + 1..]);
      ErasePicks(table[..f], table[f], table[f + 1..], guid, other);
    }
  }

  lemma ErasePicks(a: seq<ReqPackInfo>, e: ReqPackInfo, b: seq<ReqPackInfo>, guid: U64, other: U64)
    requires e.guid == guid && forall i :: 0 <= i < |a| ==> a[i].guid != guid
    ensures Pick(a + ([e] + b), Of(guid)) == [e] + Pick(a + b, Of(guid))
    ensures other != guid ==> Pick(a + ([e] + b), Of(other)) == Pick(a + b, Of(other))
  {
    NonePicked(a, Of(guid));
    PickAround(a, e, b, Of(guid));
    PickAround(a, e, b, Of(other));
    assert [] + Pick(b, Of(guid)) == Pick(b, Of(guid)) && [] + ([e] + Pick(b, Of(guid))) == [e] + Pick(b, Of(guid));
    assert [] + Pick(b, Of(other)) == Pick(b, Of(other));
  }

  function Infos(pending: seq<Pending>): seq<ReqPackInfo> {
    seq(|pending|, i requires 0 <= i < |pending| => pending[i].info)
  }

  // Every request that came in is answered once or pending.
  lemma {:induction false} AskedOrPending(es: seq<Event>, c: Choice)
    requires IsRun(es)
    ensures var y := Run(es); |Pick(y.asked, c)| == |Pick(y.answered, c)| + |Pick(Infos(y.pending), c)|
  {
    if es != [] {
      var y, e := Run(es[..|es| - 1]), es[|es| - 1];
      AskedOrPending(es[..|es| - 1], c);
      match e
      case Records(i) =>
        assert Infos(Run(es).pending) == Infos(y.pending) + [i];
        PickMore(y.asked, i, c);
        PickMore(Infos(y.pending), i, c);
      case Sends(k) =>
        assert Infos(Run(es).pending) == Infos(y.pending);
      case Reply(k) =>
        assert Infos(Run(es).pending) == RemoveAt(Infos(y.pending), k);
        PickMore(y.answered, y.pending[k].info, c);
        PickRemove(Infos(y.pending), k, c);
    }
  }

  lemma {:induction false} MemberPicked(s: seq<ReqPackInfo>, k: nat, c: Choice)
    requires k < |s| && Chosen(c, s[k])
    ensures Pick(s, c) != []
  {
    if k > 0 {
      MemberPicked(s[1..], k - 1, c);
    }
  }

  lemma PendingNotAnswered(es: seq<Event>, k: nat, c: Choice)
    requires IsRun(es) && k < |Run(es).pending| && Chosen(c, Run(es).pending[k].info)
    ensures |Pick(Run(es).answered, c)| < |Pick(Run(es).asked, c)|
  {
    AskedOrPending(es, c);
    MemberPicked(Infos(Run(es).pending), k, c);
  }

  // ---------- Which entry a reply finds ----------

  // Every entry ever recorded for a guid, those of them that the table still has, and how many it has not.
  function Recorded(y: Traffic, guid: U64): seq<ReqPackInfo> {
    Pick(y.asked, WithId(guid))
  }

  function Kept(y: Traffic, guid: U64): seq<ReqPackInfo> {
    Pick(y.table, Of(guid))
  }

  function Taken(y: Traffic, guid: U64): int {
    |Recorded(y, guid)| - |Kept(y, guid)|
  }

  predicate AnswersGuid(y: Traffic, e: Event, guid: U64)
    requires Enabled(y, e)
  {
    e.Reply? && y.pending[e.k].info.guid == guid
  }

  lemma FoundIsFirst(y: Traffic, guid: U64)
    ensures Found(y, guid) == if Kept(y, guid) == [] then None else Some(Kept(y, guid)[0])
  {
    FindPicks(y.table, guid, guid);
  }

  lemma RecordedStep(y: Traffic, i: ReqPackInfo, guid: U64)
    ensures var z, mine := Apply(y, Records(i)), Chosen(WithId(guid), i);
            && Recorded(z, guid) == (if mine then Recorded(y, guid) + [i] else Recorded(y, guid))
            && Kept(z, guid) == (if mine then Kept(y, guid) + [i] else Kept(y, guid))
  {
    PickMore(y.asked, i, WithId(guid));
    if i.requestId != 0 {
      PickMore(y.table, i, Of(guid));
    }
  }

  // A reply takes the first entry of its guid, if there is one.
  lemma TakenStep(y: Traffic, k: nat, guid: U64)
    requires Enabled(y, Reply(k))
    ensures var z, mine := Apply(y, Reply(k)), y.pending[k].info.guid == guid;
            && Recorded(z, guid) == Recorded(y, guid)
            && Kept(z, guid) == if mine && Kept(y, guid) != [] then Kept(y, guid)[1..] else Kept(y, guid)
  {
    FindPicks(y.table, y.pending[k].info.guid, guid);
  }

  ghost predicate Suffix<T>(a: seq<T>, b: seq<T>) {
    |a| <= |b| && a == b[|b| - |a|..]
  }

  lemma SuffixMore<T>(a: seq<T>, b: seq<T>, x: T)
    requires Suffix(a, b)
    ensures Suffix(a + [x], b + [x])
  {
  }

  lemma SuffixLess<T>(a: seq<T>, b: seq<T>)
    requires Suffix(a, b) && a != []
    ensures Suffix(a[1..], b)
  {
  }

  // In every run, whatever the ids and the order of sending and answering, the table has of each guid its
  // last entries.
  lemma {:induction false} KeptIsSuffix(es: seq<Event>, guid: U64)
    requires IsRun(es)
    ensures Suffix(Kept(Run(es), guid), Recorded(Run(es), guid))
  {
    if es != [] {
      var y, e := Run(es[..|es| - 1]), es[|es| - 1];
      KeptIsSuffix(es[..|es| - 1], guid);
      match e
      case Records(i) =>
        RecordedStep(y, i, guid);
        SuffixMore(Kept(y, guid), Recorded(y, guid), i);
      case Sends(_) =>
      case Reply(k) =>
        TakenStep(y, k, guid);
        if Kept(y, guid) != [] {
          SuffixLess(Kept(y, guid), Recorded(y, guid));
        }
    }
  }

  // The entry number n, if there are so many.
  function Entry(all: seq<ReqPackInfo>, n: int): Option<ReqPackInfo> {
    if 0 <= n < |all| then Some(all[n]) else None
  }

  // So a reply finds the first entry that no reply has taken.
  lemma FoundExact(es: seq<Event>, guid: U64)
    requires IsRun(es)
    ensures 0 <= Taken(Run(es), guid) <= |Recorded(Run(es), guid)|
    ensures Found(Run(es), guid) == Entry(Recorded(Run(es), guid), Taken(Run(es), guid))
  {
    KeptIsSuffix(es, guid);
    FoundOfSuffix(Run(es), guid);
  }

  lemma FoundOfSuffix(y: Traffic, guid: U64)
    requires Suffix(Kept(y, guid), Recorded(y, guid))
    ensures 0 <= Taken(y, guid) <= |Recorded(y, guid)|
    ensures Found(y, guid) == Entry(Recorded(y, guid), Taken(y, guid))
  {
    FoundIsFirst(y, guid);
  }

  // ---------- Requests with ids ----------

  predicate HaveIds(s: seq<ReqPackInfo>, guid: U64) {
    forall i :: 0 <= i < |s| && s[i].guid == guid ==> s[i].requestId != 0
  }

  lemma {:induction false} IdsPicked(s: seq<ReqPackInfo>, guid: U64)
    ensures |Pick(s, WithId(guid))| <= |Pick(s, Of(guid))|
    ensures HaveIds(s, guid) <==> |Pick(s, WithId(guid))| == |Pick(s, Of(guid))|
    ensures HaveIds(s, guid) ==> Pick(s, WithId(guid)) == Pick(s, Of(guid))
  {
    if s != [] {
      IdsPicked(s[1..], guid);
      assert HaveIds(s, guid) <==> (s[0].guid == guid ==> s[0].requestId != 0) && HaveIds(s[1..], guid);
    }
  }

  lemma AnsweredHaveIds(es: seq<Event>, guid: U64)
    requires IsRun(es) && HaveIds(Run(es).asked, guid)
    ensures HaveIds(Run(es).answered, guid) && HaveIds(Infos(Run(es).pending), guid)
  {
    var y := Run(es);
    AskedOrPending(es, Of(guid));
    AskedOrPending(es, WithId(guid));
    IdsPicked(y.asked, guid);
    IdsPicked(y.answered, guid);
    IdsPicked(Infos(y.pending), guid);
  }

  lemma AskedBefore(es: seq<Event>, guid: U64)
    requires es != [] && IsRun(es) && HaveIds(Run(es).asked, guid)
    ensures HaveIds(Run(es[..|es| - 1]).asked, guid)
  {
    var y := Run(es[..|es| - 1]);
    assert y.asked <= Run(es).asked;
    forall i | 0 <= i < |y.asked| && y.asked[i].guid == guid ensures y.asked[i].requestId != 0 {
      assert Run(es).asked[i] == y.asked[i];
    }
  }

  // When the requests of a guid have ids, every reply for it takes an entry.
  lemma {:induction false} TakenIsAnswered(es: seq<Event>, guid: U64)
    requires IsRun(es) && HaveIds(Run(es).asked, guid)
    ensures Taken(Run(es), guid) == |Pick(Run(es).answered, Of(guid))|
    ensures Recorded(Run(es), guid) == Pick(Run(es).asked, Of(guid))
  {
    IdsPicked(Run(es).asked, guid);
    if es != [] {
      var y, e := Run(es[..|es| - 1]), es[|es| - 1];
      AskedBefore(es, guid);
      TakenIsAnswered(es[..|es| - 1], guid);
      match e
      case Records(i) => RecordedStep(y, i, guid);
      case Sends(_) =>
      case Reply(k) =>
        TakenStep(y, k, guid);
        PickMore(y.answered, y.pending[k].info, Of(guid));
        if AnswersGuid(y, e, guid) {
          PendingNotAnswered(es[..|es| - 1], k, Of(guid));
        }
    }
  }

  // The n-th reply of a guid finds the n-th request recorded for it, whichever it answers: it gets the map
  // id and the request id of its own request if and only if that one was recorded n-th.
  lemma NthReplyFindsNthRecorded(es: seq<Event>, k: nat)
    requires IsRun(es) && Enabled(Run(es), Reply(k))
    requires HaveIds(Run(es).asked, Run(es).pending[k].info.guid)
    ensures var y := Run(es);
            var e := y.pending[k].info;
            var asked, n := Pick(y.asked, Of(e.guid)), |Pick(y.answered, Of(e.guid))|;
            && n < |asked| && Found(y, e.guid) == Some(asked[n])
            && (Found(y, e.guid) == Some(e) <==> asked[n] == e)
  {
    var guid := Run(es).pending[k].info.guid;
    TakenIsAnswered(es, guid);
    FoundExact(es, guid);
    PendingNotAnswered(es, k, Of(guid));
  }

  // Every reply of the guid so far got what belongs to its own request.
  ghost predicate AllOwn(es: seq<Event>, guid: U64)
    requires IsRun(es)
  {
    es == [] ||
    (var y, e := Run(es[..|es| - 1]), es[|es| - 1];
     && AllOwn(es[..|es| - 1], guid)
     && (AnswersGuid(y, e, guid) ==> Found(y, guid) == Some(y.pending[e.k].info)))
  }

  // That is so exactly when the requests of the guid were answered in the order of their recording.
  lemma {:induction false} AllOwnExact(es: seq<Event>, guid: U64)
    requires IsRun(es) && HaveIds(Run(es).asked, guid)
    ensures AllOwn(es, guid) <==> Pick(Run(es).answered, Of(guid)) <= Pick(Run(es).asked, Of(guid))
  {
    if es != [] {
      var y, e := Run(es[..|es| - 1]), es[|es| - 1];
      AskedBefore(es, guid);
      AllOwnExact(es[..|es| - 1], guid);
      match e
      case Records(i) =>
        PickMore(y.asked, i, Of(guid));
        AskedOrPending(es[..|es| - 1], Of(guid));
        PrefixMore(Pick(y.answered, Of(guid)), Pick(y.asked, Of(guid)), Pick(Run(es).asked, Of(guid)));
      case Sends(_) =>
      case Reply(k) =>
        PickMore(y.answered, y.pending[k].info, Of(guid));
        if AnswersGuid(y, e, guid) {
          NthReplyFindsNthRecorded(es[..|es| - 1], k);
          PrefixNext(Pick(y.answered, Of(guid)), y.pending[k].info, Pick(y.asked, Of(guid)));
        }
    }
  }

  lemma PrefixMore<T>(a: seq<T>, b: seq<T>, c: seq<T>)
    requires b <= c && |a| <= |b|
    ensures a <= b <==> a <= c
  {
    assert b == c[..|b|];
    assert c[..|a|] == b[..|a|];
  }

  lemma PrefixNext<T>(a: seq<T>, e: T, b: seq<T>)
    requires |a| < |b|
    ensures a + [e] <= b <==> a <= b && b[|a|] == e
  {
    if a <= b && b[|a|] == e {
      assert b[..|a| + 1] == b[..|a|] + [b[|a|]];
    }
    if a + [e] <= b {
      assert a == (a + [e])[..|a|] == b[..|a|];
      assert (a + [e])[|a|] == e;
    }
  }

  // A cache answers the requests of the guid in the order in which they reach it.
  predicate AnsweredAsSent(y: Traffic, guid: U64) {
    Pick(y.answered, Of(guid)) <= Pick(y.wire, Of(guid))
  }

  // Then every reply of the guid gets what belongs to its own request if and only if, as far as answered,
  // the requests went out in the order of their recording.
  lemma SendingOrderDecides(es: seq<Event>, guid: U64)
    requires IsRun(es) && HaveIds(Run(es).asked, guid) && AnsweredAsSent(Run(es), guid)
    ensures var y := Run(es);
            var n := |Pick(y.answered, Of(guid))|;
            && n <= |Pick(y.wire, Of(guid))| && n <= |Pick(y.asked, Of(guid))|
            && (AllOwn(es, guid) <==> Pick(y.wire, Of(guid))[..n] == Pick(y.asked, Of(guid))[..n])
  {
    AllOwnExact(es, guid);
    AskedOrPending(es, Of(guid));
    PrefixOfBoth(Pick(Run(es).answered, Of(guid)), Pick(Run(es).wire, Of(guid)), Pick(Run(es).asked, Of(guid)));
  }

  lemma PrefixOfBoth<T>(a: seq<T>, b: seq<T>, c: seq<T>)
    requires a <= b && |a| <= |c|
    ensures a <= c <==> b[..|a|] == c[..|a|]
  {
    assert a == b[..|a|];
  }

  // So sending in the order of recording is enough.
  lemma SentAsRecorded(es: seq<Event>, guid: U64)
    requires IsRun(es) && HaveIds(Run(es).asked, guid) && AnsweredAsSent(Run(es), guid)
    requires Pick(Run(es).wire, Of(guid)) <= Pick(Run(es).asked, Of(guid))
    ensures AllOwn(es, guid)
  {
    SendingOrderDecides(es, guid);
    var y := Run(es);
    var n := |Pick(y.answered, Of(guid))|;
    assert Pick(y.wire, Of(guid))[..n] == Pick(y.asked, Of(guid))[..|Pick(y.wire, Of(guid))|][..n];
  }

  // Two requests have come in, and one of them goes out.
  lemma TwoAsked(a: ReqPackInfo, b: ReqPackInfo, k: nat)
    requires k < 2 && b.requestId != 0
    ensures var es := [Records(a), Records(b), Sends(k)];
            && IsRun(es)
            && Run(es) == Traffic(if a.requestId != 0 then [a, b] else [b],
                                  [Pending(a, k == 0), Pending(b, k == 1)],
                                  [a, b], [if k == 0 then a else b], [])
  {
    BothAsked(a, b);
    RunNext([Records(a), Records(b)], Sends(k));
    SentOne(a, b, k);
    assert [Records(a), Records(b)] + [Sends(k)] == [Records(a), Records(b), Sends(k)];
  }

  lemma SentOne(a: ReqPackInfo, b: ReqPackInfo, k: nat)
    requires k < 2
    ensures var p := [Pending(a, false), Pending(b, false)];
            p[k := p[k].(sent := true)] == [Pending(a, k == 0), Pending(b, k == 1)]
  {
  }

  lemma BothAsked(a: ReqPackInfo, b: ReqPackInfo)
    requires b.requestId != 0
    ensures IsRun([Records(a), Records(b)])
    ensures Run([Records(a), Records(b)])
            == Traffic(if a.requestId != 0 then [a, b] else [b], [Pending(a, false), Pending(b, false)], [a, b], [], [])
  {
    RunNext([], Records(a));
    assert [] + [Records(a)] == [Records(a)];
    RunNext([Records(a)], Records(b));
    assert [Records(a)] + [Records(b)] == [Records(a), Records(b)];
  }

  // It goes wrong when a second thread comes between the two locks of cacheOutput: the reply to b, which went
  // out first and is answered first, finds the entry of a.
  lemma SwappedSendsMisdirect(a: ReqPackInfo, b: ReqPackInfo)
    requires a.requestId != 0 && b.requestId != 0 && a.guid == b.guid && a != b
    ensures var es := [Records(a), Records(b), Sends(1)];
            && IsRun(es) && Enabled(Run(es), Reply(1))
            && Run(es).pending[1].info == b && Found(Run(es), b.guid) == Some(a)
            && IsRun(es + [Reply(1)]) && HaveIds(Run(es + [Reply(1)]).asked, b.guid)
            && AnsweredAsSent(Run(es + [Reply(1)]), b.guid) && !AllOwn(es + [Reply(1)], b.guid)
  {
    var es := [Records(a), Records(b), Sends(1)];
    TwoAsked(a, b, 1);
    RunNext(es, Reply(1));
    assert (es + [Reply(1)])[..3] == es;
    var z := Run(es + [Reply(1)]);
    assert z.asked == [a, b] && z.wire == [b] && z.answered == [b];
  }

  // And when a reply overtakes another, as those of two caches do, or of a load and of a request answered
  // from memory: sent in order, b is answered first and finds the entry of a.
  lemma OvertakingMisdirects(a: ReqPackInfo, b: ReqPackInfo)
    requires a.requestId != 0 && b.requestId != 0 && a.guid == b.guid && a != b
    ensures var es := [Records(a), Records(b), Sends(0), Sends(1)];
            && IsRun(es) && Run(es).wire == Run(es).asked && Enabled(Run(es), Reply(1))
            && Run(es).pending[1].info == b && Found(Run(es), b.guid) == Some(a)
  {
    var es := [Records(a), Records(b), Sends(0)];
    TwoAsked(a, b, 0);
    RunNext(es, Sends(1));
    assert es + [Sends(1)] == [Records(a), Records(b), Sends(0), Sends(1)];
  }

  // ---------- Requests without ids ----------

  // How many entries of a guid have been taken beyond those of answered requests.
  function Missing(y: Traffic, guid: U64): int {
    Taken(y, guid) - |Pick(y.answered, WithId(guid))|
  }

  // An entry goes missing exactly when a reply to an unrecorded request finds one; and one less is missing
  // exactly when a reply to a recorded request finds none.
  lemma MissingExact(y: Traffic, e: Event, guid: U64)
    requires Enabled(y, e)
    ensures Missing(Apply(y, e), guid) == Missing(y, guid)
              + (if !AnswersGuid(y, e, guid) then 0
                 else if y.pending[e.k].info.requestId == 0 then (if Found(y, guid) != None then 1 else 0)
                 else (if Found(y, guid) == None then -1 else 0))
  {
    FoundIsFirst(y, guid);
    match e
    case Records(i) => RecordedStep(y, i, guid);
    case Sends(_) =>
    case Reply(k) =>
      TakenStep(y, k, guid);
      PickMore(y.answered, y.pending[k].info, WithId(guid));
  }

  // In every run, a reply finds the entry that is as many places after those of the answered requests as
  // entries are missing, or none when there is no such entry.
  lemma OwnEntryExact(es: seq<Event>, guid: U64)
    requires IsRun(es)
    ensures var y := Run(es);
            var all, m, d := Recorded(y, guid), |Pick(y.answered, WithId(guid))|, Missing(y, guid);
            0 <= d && m + d <= |all| && Found(y, guid) == Entry(all, m + d)
  {
    FoundExact(es, guid);
    MissingIsNatural(es, guid);
  }

  lemma {:induction false} MissingIsNatural(es: seq<Event>, guid: U64)
    requires IsRun(es)
    ensures Missing(Run(es), guid) >= 0
  {
    if es != [] {
      var before := es[..|es| - 1];
      var y, e := Run(before), es[|es| - 1];
      MissingIsNatural(before, guid);
      MissingExact(y, e, guid);
      if AnswersGuid(y, e, guid) && y.pending[e.k].info.requestId != 0 && Found(y, guid) == None {
        FoundExact(before, guid);
        PendingNotAnswered(before, e.k, WithId(guid));
      }
    }
  }

  // When it is the turn of the request in the order of recording, and the requests are all different, its
  // reply finds its own entry if and only if none is missing.
  lemma OwnEntryInTurn(es: seq<Event>, k: nat)
    requires IsRun(es) && Enabled(Run(es), Reply(k)) && Run(es).pending[k].info.requestId != 0
    requires var y := Run(es);
             var e := y.pending[k].info;
             var all, m := Recorded(y, e.guid), |Pick(y.answered, WithId(e.guid))|;
             && (m < |all| ==> all[m] == e)
             && forall i, j :: 0 <= i < j < |all| ==> all[i] != all[j]
    ensures var e := Run(es).pending[k].info;
            Found(Run(es), e.guid) == Some(e) <==> Missing(Run(es), e.guid) == 0
  {
    var guid := Run(es).pending[k].info.guid;
    OwnEntryExact(es, guid);
    PendingNotAnswered(es, k, WithId(guid));
  }

  // A reply to an unrecorded request finds an entry, which is that of another one, exactly when more recorded
  // requests of the guid are pending than entries are missing.
  lemma ZeroIdExact(es: seq<Event>, guid: U64)
    requires IsRun(es)
    ensures var y := Run(es);
            Found(y, guid) != None <==> |Pick(Infos(y.pending), WithId(guid))| > Missing(y, guid)
  {
    OwnEntryExact(es, guid);
    AskedOrPending(es, WithId(guid));
  }

  // As long as no such reply has found one, nothing is missing.
  ghost predicate Unrobbed(es: seq<Event>, guid: U64)
    requires IsRun(es)
  {
    es == [] ||
    (var y, e := Run(es[..|es| - 1]), es[|es| - 1];
     && Unrobbed(es[..|es| - 1], guid)
     && !(AnswersGuid(y, e, guid) && y.pending[e.k].info.requestId == 0 && Found(y, guid) != None))
  }

  lemma {:induction false} UnrobbedWithoutReplies(es: seq<Event>, guid: U64)
    requires IsRun(es) && forall i :: 0 <= i < |es| ==> !es[i].Reply?
    ensures Unrobbed(es, guid)
  {
    if es != [] {
      UnrobbedWithoutReplies(es[..|es| - 1], guid);
    }
  }

  lemma {:induction false} UnrobbedMissesNone(es: seq<Event>, guid: U64)
    requires IsRun(es) && Unrobbed(es, guid)
    ensures Missing(Run(es), guid) == 0
  {
    OwnEntryExact(es, guid);
    if es != [] {
      UnrobbedMissesNone(es[..|es| - 1], guid);
      MissingExact(Run(es[..|es| - 1]), es[|es| - 1], guid);
    }
  }

  // The first robbery: the entry taken is that of the recorded request whose turn it is, and a reply finds
  // the one behind it from then on, or none.
  lemma RobbedOwnerIsLost(es: seq<Event>, k: nat)
    requires IsRun(es) && Enabled(Run(es), Reply(k)) && Run(es).pending[k].info.requestId == 0
    requires Unrobbed(es, Run(es).pending[k].info.guid) && Found(Run(es), Run(es).pending[k].info.guid) != None
    ensures var y := Run(es);
            var guid := y.pending[k].info.guid;
            var all, m, z := Recorded(y, guid), |Pick(y.answered, WithId(guid))|, Apply(y, Reply(k));
            && Found(y, guid) == Entry(all, m)
            && Recorded(z, guid) == all && |Pick(z.answered, WithId(guid))| == m
            && Found(z, guid) == Entry(all, m + 1)
  {
    var y := Run(es);
    var guid := y.pending[k].info.guid;
    UnrobbedMissesNone(es, guid);
    KeptIsSuffix(es, guid);
    RobberyShifts(y, k, guid);
  }

  lemma RobberyShifts(y: Traffic, k: nat, guid: U64)
    requires Enabled(y, Reply(k)) && y.pending[k].info.guid == guid && y.pending[k].info.requestId == 0
    requires Suffix(Kept(y, guid), Recorded(y, guid)) && Found(y, guid) != None
    ensures var z := Apply(y, Reply(k));
            && Found(y, guid) == Entry(Recorded(y, guid), Taken(y, guid))
            && Recorded(z, guid) == Recorded(y, guid)
            && Pick(z.answered, WithId(guid)) == Pick(y.answered, WithId(guid))
            && Found(z, guid) == Entry(Recorded(y, guid), Taken(y, guid) + 1)
  {
    FoundOfSuffix(y, guid);
    FoundIsFirst(y, guid);
    NextFound(y, k, guid);
    PickMore(y.answered, y.pending[k].info, WithId(guid));
  }

  // After a reply has found an entry, the next one is found.
  lemma NextFound(y: Traffic, k: nat, guid: U64)
    requires Enabled(y, Reply(k)) && y.pending[k].info.guid == guid
    requires Suffix(Kept(y, guid), Recorded(y, guid)) && Kept(y, guid) != []
    ensures Recorded(Apply(y, Reply(k)), guid) == Recorded(y, guid)
    ensures Found(Apply(y, Reply(k)), guid) == Entry(Recorded(y, guid), Taken(y, guid) + 1)
  {
    TakenStep(y, k, guid);
    OneTaken(y, Apply(y, Reply(k)), guid);
  }

  lemma OneTaken(y: Traffic, z: Traffic, guid: U64)
    requires Suffix(Kept(y, guid), Recorded(y, guid)) && Kept(y, guid) != []
    requires Recorded(z, guid) == Recorded(y, guid) && Kept(z, guid) == Kept(y, guid)[1..]
    ensures Found(z, guid) == Entry(Recorded(y, guid), Taken(y, guid) + 1)
  {
    SuffixLess(Kept(y, guid), Recorded(y, guid));
    FoundOfSuffix(z, guid);
  }

  // It happens: a request without an id, then one with an id for the same guid, and the reply to the first.
  lemma ZeroIdRobs(a: ReqPackInfo, b: ReqPackInfo)
    requires a.requestId == 0 && b.requestId != 0 && a.guid == b.guid
    ensures var es := [Records(a), Records(b), Sends(0)];
            && IsRun(es) && Unrobbed(es, a.guid) && Enabled(Run(es), Reply(0))
            && Run(es).pending[0].info == a && Found(Run(es), a.guid) == Some(b)
  {
    var es := [Records(a), Records(b), Sends(0)];
    TwoAsked(a, b, 0);
    UnrobbedWithoutReplies(es, a.guid);
  }

  // ---------- The request list ----------

  datatype Request = Request(guid: U64, success: bool)

  // A reply, whether it parses, and whether it says that all is well.
  datatype Packet = Packet(guid: U64, parses: bool, normal: bool)

  datatype RequestList = RequestList(requests: seq<Request>, count: int, complated: bool)

  function RequestGuid(r: Request): U64 { r.guid }

  function FindRequest(requests: seq<Request>, guid: U64): nat {
    First(requests, RequestGuid, guid)
  }

  // RequestImp::handlePacket keeps the old outcome when the reply does not parse.
  function HandleOne(r: Request, p: Packet): Request {
    if p.parses then r.(success := p.normal) else r
  }

  function Handle(l: RequestList, p: Packet): RequestList {
    var k := FindRequest(l.requests, p.guid);
    if k == |l.requests| then l
    else
      RequestList(l.requests[k := HandleOne(l.requests[k], p)], l.count + 1, l.complated || l.count + 1 == |l.requests|)
  }

  class RequestListImp {
    var requests: seq<Request>
    var complatedCount: int
    var complated: bool

    ghost function State(): RequestList
      reads this
    {
      RequestList(requests, complatedCount, complated)
    }

    constructor ()
      ensures State() == RequestList([], 0, false)
    {
      requests, complatedCount, complated := [], 0, false;
    }

    // query, add, update, load, flush and remove alike.
    method Add(guid: U64)
      modifies this
      ensures State() == old(State()).(requests := old(requests) + [Request(guid, false)])
    {
      requests := requests + [Request(guid, false)];
    }

    method HandlePacket(p: Packet) returns (result: int)
      modifies this
      ensures State() == Handle(old(State()), p)
      ensures result == if FindRequest(old(requests), p.guid) < |old(requests)| then 0 else -1
    {
      result := -1;
      for k := 0 to |requests|
        invariant State() == old(State()) && result == -1
        invariant forall i :: 0 <= i < k ==> requests[i].guid != p.guid
      {
        if requests[k].guid == p.guid {
          result := 0;
          requests := requests[k := HandleOne(requests[k], p)];
          complatedCount := complatedCount + 1;
          if complatedCount == |requests| {
            complated := true;
          }
          break;
        }
      }
    }

    method IsSuccess() returns (ok: bool)
      ensures ok == forall i :: 0 <= i < |requests| ==> requests[i].success
    {
      for k := 0 to |requests|
        invariant forall i :: 0 <= i < k ==> requests[i].success
      {
        if !requests[k].success {
          return false;
        }
      }
      return true;
    }
  }

  function Requests(guids: seq<U64>): seq<Request> {
    seq(|guids|, i requires 0 <= i < |guids| => Request(guids[i], false))
  }

  // The list after some replies.
  function HandleAll(guids: seq<U64>, ps: seq<Packet>): RequestList {
    if ps == [] then RequestList(Requests(guids), 0, false)
    else Handle(HandleAll(guids, ps[..|ps| - 1]), ps[|ps| - 1])
  }

  // The guids of the replies that belong to the list.
  function Matching(guids: seq<U64>, ps: seq<Packet>): seq<U64> {
    if ps == [] then []
    else
      var some, p := Matching(guids, ps[..|ps| - 1]), ps[|ps| - 1];
      if p.guid in guids then some + [p.guid] else some
  }

  predicate Distinct(s: seq<U64>) {
    forall i, j :: 0 <= i < j < |s| ==> s[i] != s[j]
  }

  // The list is complete exactly when as many replies have come as it has requests, at least one: which
  // request each of them answers does not matter.
  lemma {:induction false} CompleteExact(guids: seq<U64>, ps: seq<Packet>)
    ensures var l := HandleAll(guids, ps);
            && |l.requests| == |guids|
            && (forall i :: 0 <= i < |guids| ==> l.requests[i].guid == guids[i])
            && l.count == |Matching(guids, ps)|
            && (l.complated <==> l.count >= |guids| > 0)
  {
    if ps != [] {
      CompleteExact(guids, ps[..|ps| - 1]);
      var l, p := HandleAll(guids, ps[..|ps| - 1]), ps[|ps| - 1];
      var k := FindRequest(l.requests, p.guid);
      assert k < |guids| ==> guids[k] == p.guid;
      assert p.guid in guids ==> k < |guids|;
    }
  }

  lemma {:induction false} MatchingAreRequested(guids: seq<U64>, ps: seq<Packet>)
    ensures forall i :: 0 <= i < |Matching(guids, ps)| ==> Matching(guids, ps)[i] in guids
  {
    if ps != [] {
      MatchingAreRequested(guids, ps[..|ps| - 1]);
    }
  }

  function Members(s: seq<U64>): set<U64> {
    set x | x in s
  }

  lemma {:induction false} DistinctSize(s: seq<U64>)
    requires Distinct(s)
    ensures |Members(s)| == |s|
  {
    if s != [] {
      var some, last := s[..|s| - 1], s[|s| - 1];
      DistinctSize(some);
      assert Members(s) == Members(some) + {last};
      assert last !in some;
    }
  }

  lemma SubsetOfSameSize(a: set<U64>, b: set<U64>)
    requires a <= b && |a| == |b|
    ensures a == b
  {
    assert |b - a| == 0;
  }

  lemma SubsetSize(a: set<U64>, b: set<U64>)
    requires a <= b
    ensures |a| <= |b|
  {
    assert b == a + (b - a);
  }

  // With distinct guids and at most one reply for each, the list is complete exactly when every request
  // has had its reply.
  lemma CompleteWhenAllAnswered(guids: seq<U64>, ps: seq<Packet>)
    requires guids != [] && Distinct(guids) && Distinct(Matching(guids, ps))
    ensures HandleAll(guids, ps).complated <==> forall i :: 0 <= i < |guids| ==> guids[i] in Matching(guids, ps)
  {
    var m := Matching(guids, ps);
    CompleteExact(guids, ps);
    MatchingAreRequested(guids, ps);
    DistinctSize(guids);
    DistinctSize(m);
    SubsetSize(Members(m), Members(guids));
    if |m| == |guids| {
      SubsetOfSameSize(Members(m), Members(guids));
      forall i | 0 <= i < |guids|
        ensures guids[i] in m
      {
        assert guids[i] in Members(guids);
      }
    }
    if forall i :: 0 <= i < |guids| ==> guids[i] in m {
      SubsetSize(Members(guids), Members(m));
    }
  }

  // A second request for the same guid never succeeds, so neither does the list.
  lemma {:induction false} SecondOfAGuidFails(guids: seq<U64>, ps: seq<Packet>, i: nat, j: nat)
    requires i < j < |guids| && guids[i] == guids[j]
    ensures |HandleAll(guids, ps).requests| == |guids| && !HandleAll(guids, ps).requests[j].success
  {
    CompleteExact(guids, ps);
    if ps != [] {
      var some := ps[..|ps| - 1];
      SecondOfAGuidFails(guids, some, i, j);
      CompleteExact(guids, some);
      var k := FindRequest(HandleAll(guids, some).requests, ps[|ps| - 1].guid);
      assert HandleAll(guids, some).requests[i].guid == HandleAll(guids, some).requests[j].guid;
      assert k != j;
    }
  }

  // Only the first request for a guid can succeed, and it does when its last reply that parses says so.
  lemma {:induction false} OutcomeIsLastReply(guids: seq<U64>, ps: seq<Packet>, i: nat)
    requires i < |guids| && (forall j :: 0 <= j < i ==> guids[j] != guids[i])
    ensures |HandleAll(guids, ps).requests| == |guids|
    ensures HandleAll(guids, ps).requests[i].success == LastOutcome(ps, guids[i])
  {
    CompleteExact(guids, ps);
    if ps != [] {
      var some := ps[..|ps| - 1];
      OutcomeIsLastReply(guids, some, i);
      CompleteExact(guids, some);
      var l, p := HandleAll(guids, some), ps[|ps| - 1];
      var k := FindRequest(l.requests, p.guid);
      if p.guid == guids[i] {
        assert l.requests[i].guid == p.guid;
        assert k == i;
      } else if k < |guids| {
        assert k != i;
      }
    }
  }

  function LastOutcome(ps: seq<Packet>, guid: U64): bool {
    if ps == [] then false
    else
      var p := ps[|ps| - 1];
      if p.guid == guid && p.parses then p.normal else LastOutcome(ps[..|ps| - 1], guid)
  }
}
