// ManageSqliteFile::collectTransaction: records of an unfinished transaction wait until the last
// one arrives (convertsys/src/ManageSQLiteFile.cpp:385-424).
module Transactions {
  import opened Records

  // Per line, the records of each transaction that is still incomplete.
  type Pending = map<int, map<int, seq<Record>>>

  datatype Key = Key(lineId: int, transactionId: int)

  function KeyOf(r: Record): Key {
    Key(r.lineId, r.transactionId)
  }

  function Waiting(p: Pending, k: Key): seq<Record> {
    if k.lineId in p && k.transactionId in p[k.lineId] then p[k.lineId][k.transactionId] else []
  }

  // One record: the records to keep waiting, and the group of records it releases.
  function Collect(p: Pending, r: Record): (Pending, seq<Record>) {
    var line, id := r.lineId, r.transactionId;
    if r.transactionNum == 1 then (p, [r])
    else if line !in p then (p[line := map[id := [r]]], [])
    else if id !in p[line] then (p[line := p[line][id := [r]]], [])
    else
      var group := p[line][id] + [r];
      if r.transactionNum == r.transactionIndex
      then (p[line := p[line] - {id}], group)
      else (p[line := p[line][id := group]], [])
  }

  // The records released so far, in release order, and those still waiting.
  function CollectAll(p0: Pending, rs: seq<Record>): (Pending, seq<Record>) {
    if rs == [] then (p0, [])
    else
      var (p, out) := CollectAll(p0, rs[..|rs| - 1]);
      var (p', group) := Collect(p, rs[|rs| - 1]);
      (p', out + group)
  }

  function OfKey(rs: seq<Record>, k: Key): seq<Record> {
    if rs == [] then []
    else
      OfKey(rs[..|rs| - 1], k) + if KeyOf(rs[|rs| - 1]) == k then [rs[|rs| - 1]] else []
  }

  lemma {:induction false} OfKeyConcat(a: seq<Record>, b: seq<Record>, k: Key)
    ensures OfKey(a + b, k) == OfKey(a, k) + OfKey(b, k)
  {
    if b == [] {
      assert a + b == a;
    } else {
      assert (a + b)[..|a + b| - 1] == a + b[..|b| - 1];
      OfKeyConcat(a, b[..|b| - 1], k);
    }
  }

  ghost predicate AllOfKey(rs: seq<Record>, k: Key) {
    forall i :: 0 <= i < |rs| ==> KeyOf(rs[i]) == k
  }

  lemma {:induction false} OfKeyUniform(rs: seq<Record>, k: Key, j: Key)
    requires AllOfKey(rs, k)
    ensures OfKey(rs, j) == if j == k then rs else []
  {
    if rs != [] {
      OfKeyUniform(rs[..|rs| - 1], k, j);
    }
  }

  // ---------- Nothing is lost or duplicated, whatever arrives ----------

  ghost predicate KeysHold(p: Pending) {
    forall k :: AllOfKey(Waiting(p, k), k)
  }

  lemma CollectStep(p: Pending, r: Record, k: Key)
    requires KeysHold(p)
    ensures Balanced(Waiting(p, k), r, Collect(p, r).1, Waiting(Collect(p, r).0, k), k)
    ensures AllOfKey(Waiting(Collect(p, r).0, k), k)
  {
    assert AllOfKey(Waiting(p, k), k) && AllOfKey(Waiting(p, KeyOf(r)), KeyOf(r));
  }

  // `group` is released and `w'` waits, where `w` waited before record r came.
  ghost predicate Balanced(w: seq<Record>, r: Record, group: seq<Record>, w': seq<Record>, k: Key) {
    && AllOfKey(group, KeyOf(r))
    && (k != KeyOf(r) ==> w' == w)
    && (k == KeyOf(r) ==> group + w' == w + [r] || (group == [r] && w' == w))
  }

  lemma BalancedCounts(w: seq<Record>, r: Record, group: seq<Record>, w': seq<Record>, k: Key)
    requires Balanced(w, r, group, w', k)
    ensures multiset(w) + multiset(OfKey([r], k)) == multiset(OfKey(group, k)) + multiset(w')
  {
    OfKeyUniform(group, KeyOf(r), k);
    OfKeyUniform([r], KeyOf(r), k);
    if k == KeyOf(r) && group + w' == w + [r] {
      assert multiset(group) + multiset(w') == multiset(group + w') == multiset(w + [r]);
    }
  }

  lemma CollectKeepsKeys(p: Pending, r: Record)
    requires KeysHold(p)
    ensures KeysHold(Collect(p, r).0)
  {
    forall j ensures AllOfKey(Waiting(Collect(p, r).0, j), j) {
      CollectStep(p, r, j);
    }
  }

  lemma CombineCounts(
      w0: seq<Record>, w: seq<Record>, w': seq<Record>,
      before: seq<Record>, now: seq<Record>, out: seq<Record>, group: seq<Record>)
    requires multiset(w0) + multiset(before) == multiset(out) + multiset(w)
    requires multiset(w) + multiset(now) == multiset(group) + multiset(w')
    ensures multiset(w0) + multiset(before + now) == multiset(out + group) + multiset(w')
  {
    assert multiset(before + now) == multiset(before) + multiset(now);
    assert multiset(out + group) == multiset(out) + multiset(group);
    forall x: Record {:trigger multiset(w0)[x]}
      ensures (multiset(w0) + multiset(before + now))[x] == (multiset(out + group) + multiset(w'))[x]
    {
      assert (multiset(w0) + multiset(before))[x] == (multiset(out) + multiset(w))[x];
      assert (multiset(w) + multiset(now))[x] == (multiset(group) + multiset(w'))[x];
    }
  }

  // One record is conserved: it joins the waiting records or leaves with the released group.
  lemma ConservationStep(
      w0: seq<Record>, before: seq<Record>, p: Pending, out: seq<Record>, r: Record, k: Key)
    requires KeysHold(p)
    requires multiset(w0) + multiset(before) == multiset(OfKey(out, k)) + multiset(Waiting(p, k))
    ensures KeysHold(Collect(p, r).0)
    ensures multiset(w0) + multiset(before + if KeyOf(r) == k then [r] else [])
            == multiset(OfKey(out + Collect(p, r).1, k)) + multiset(Waiting(Collect(p, r).0, k))
  {
    var group, w' := Collect(p, r).1, Waiting(Collect(p, r).0, k);
    CollectKeepsKeys(p, r);
    assert Balanced(Waiting(p, k), r, group, w', k) by {
      CollectStep(p, r, k);
    }
    BalancedCounts(Waiting(p, k), r, group, w', k);
    OfKeyUniform([r], KeyOf(r), k);
    OfKeyConcat(out, group, k);
    CombineCounts(w0, Waiting(p, k), w', before, OfKey([r], k), OfKey(out, k), OfKey(group, k));
  }

  // Every record is released once or still waiting, for any traffic at all.
  lemma {:induction false} Conservation(p0: Pending, rs: seq<Record>, k: Key)
    requires KeysHold(p0)
    ensures KeysHold(CollectAll(p0, rs).0)
    ensures multiset(Waiting(p0, k)) + multiset(OfKey(rs, k))
            == multiset(OfKey(CollectAll(p0, rs).1, k)) + multiset(Waiting(CollectAll(p0, rs).0, k))
  {
    if rs != [] {
      var q, r := rs[..|rs| - 1], rs[|rs| - 1];
      Conservation(p0, q, k);
      ConservationStep(Waiting(p0, k), OfKey(q, k), CollectAll(p0, q).0, CollectAll(p0, q).1, r, k);
    }
  }

  // ---------- Atomicity of well-formed traffic ----------

  // The records of k's transaction that are open at the end of the traffic `rs`: a transaction
  // closes with the record whose index is the transaction's size.
  function Open(rs: seq<Record>, k: Key): seq<Record> {
    if rs == [] then []
    else
      var r, before := rs[|rs| - 1], Open(rs[..|rs| - 1], k);
      if KeyOf(r) != k then before
      else if r.transactionIndex == r.transactionNum then []
      else before + [r]
  }

  // r is the next record of its transaction.
  predicate NextInLine(open: seq<Record>, r: Record) {
    && r.transactionIndex == |open| + 1 <= r.transactionNum
    && forall i :: 0 <= i < |open| ==> open[i].transactionNum == r.transactionNum
  }

  // Every transaction in flight has its own line and id, and its n records are numbered 1..n in
  // order; transactions may interleave freely.
  predicate WellFormed(rs: seq<Record>) {
    rs == [] ||
    (var q, r := rs[..|rs| - 1], rs[|rs| - 1];
     WellFormed(q) && NextInLine(Open(q, KeyOf(r)), r))
  }

  // A whole transaction: n records of one key, numbered 1..n.
  predicate Complete(group: seq<Record>) {
    && group != []
    && forall i :: 0 <= i < |group| ==>
         && KeyOf(group[i]) == KeyOf(group[0])
         && group[i].transactionNum == |group|
         && group[i].transactionIndex == i + 1
  }

  // The transactions completed by the traffic, in the order of their last records.
  function Completed(rs: seq<Record>): seq<seq<Record>> {
    if rs == [] then []
    else
      var r := rs[|rs| - 1];
      var done := Completed(rs[..|rs| - 1]);
      if r.transactionIndex == r.transactionNum
      then done + [Open(rs[..|rs| - 1], KeyOf(r)) + [r]] else done
  }

  // Those transactions, one after the other.
  function Released(rs: seq<Record>): seq<Record> {
    if rs == [] then []
    else
      var q, r := rs[..|rs| - 1], rs[|rs| - 1];
      if r.transactionIndex == r.transactionNum then Released(q) + (Open(q, KeyOf(r)) + [r]) else Released(q)
  }

  function Flatten(groups: seq<seq<Record>>): seq<Record> {
    if groups == [] then [] else Flatten(groups[..|groups| - 1]) + groups[|groups| - 1]
  }

  // An open transaction is a strict prefix of a complete one.
  lemma {:induction false} OpenIsPartial(rs: seq<Record>, k: Key)
    requires WellFormed(rs)
    ensures var o := Open(rs, k);
            && AllOfKey(o, k)
            && forall i :: 0 <= i < |o| ==>
                 o[i].transactionIndex == i + 1 && o[i].transactionNum == o[0].transactionNum > |o|
  {
    if rs != [] {
      var n := |rs| - 1;
      OpenIsPartial(rs[..n], k);
      assert NextInLine(Open(rs[..n], KeyOf(rs[n])), rs[n]);
    }
  }

  // Every group in Completed is a whole transaction, and Released lists the groups.
  lemma {:induction false} CompletedAreWhole(rs: seq<Record>)
    requires WellFormed(rs)
    ensures forall i :: 0 <= i < |Completed(rs)| ==> Complete(Completed(rs)[i])
    ensures Released(rs) == Flatten(Completed(rs))
  {
    if rs != [] {
      var q, r := rs[..|rs| - 1], rs[|rs| - 1];
      CompletedAreWhole(q);
      OpenIsPartial(q, KeyOf(r));
      if r.transactionIndex == r.transactionNum {
        var group := Open(q, KeyOf(r)) + [r];
        assert Complete(group);
        assert (Completed(q) + [group])[..|Completed(q)|] == Completed(q);
      }
    }
  }

  // Records are released by whole transactions: what has been released is exactly the completed
  // transactions, one after the other, and what waits is exactly the open ones.
  lemma {:induction false} ReleasedByTransaction(rs: seq<Record>)
    requires WellFormed(rs)
    ensures CollectAll(map[], rs).1 == Released(rs)
    ensures forall k :: Waiting(CollectAll(map[], rs).0, k) == Open(rs, k)
  {
    if rs != [] {
      var q, r := rs[..|rs| - 1], rs[|rs| - 1];
      ReleasedByTransaction(q);
      var p := CollectAll(map[], q).0;
      assert Waiting(p, KeyOf(r)) == Open(q, KeyOf(r));
      WaitingKeptOpen(p, r, Open(q, KeyOf(r)));
      forall k ensures Waiting(Collect(p, r).0, k) == Open(rs, k) {
        assert Waiting(p, k) == Open(q, k);
      }
    }
  }

  // A stored transaction is never empty, so the map knows a key exactly when something waits.
  lemma WaitingKeptOpen(p: Pending, r: Record, open: seq<Record>)
    requires Waiting(p, KeyOf(r)) == open && NextInLine(open, r)
    ensures var (p', group) := Collect(p, r);
            && group == (if r.transactionIndex == r.transactionNum then open + [r] else [])
            && Waiting(p', KeyOf(r)) == (if r.transactionIndex == r.transactionNum then [] else open + [r])
            && forall k :: k != KeyOf(r) ==> Waiting(p', k) == Waiting(p, k)
  {
    if r.transactionNum == 1 {
      assert open == [];
    } else if open == [] && r.transactionIndex == r.transactionNum {
      assert false;
    }
  }

  // None or all: per transaction, the traffic splits into released whole transactions followed by
  // the open part, in arrival order.
  lemma {:induction false} ArrivalOrderKept(rs: seq<Record>, k: Key)
    requires WellFormed(rs)
    ensures OfKey(rs, k) == OfKey(CollectAll(map[], rs).1, k) + Open(rs, k)
  {
    ReleasedByTransaction(rs);
    SplitsIntoTransactions(rs, k);
  }

  lemma {:induction false} SplitsIntoTransactions(rs: seq<Record>, k: Key)
    requires WellFormed(rs)
    ensures OfKey(rs, k) == OfKey(Released(rs), k) + Open(rs, k)
  {
    if rs != [] {
      var q, r := rs[..|rs| - 1], rs[|rs| - 1];
      SplitsIntoTransactions(q, k);
      OpenIsPartial(q, KeyOf(r));
      SplitStep(Released(q), Open(q, KeyOf(r)), Open(q, k), r, k);
    }
  }

  lemma SplitStep(out: seq<Record>, open: seq<Record>, openOfK: seq<Record>, r: Record, k: Key)
    requires AllOfKey(open, KeyOf(r))
    requires k == KeyOf(r) ==> openOfK == open
    ensures OfKey(out, k) + openOfK + (if KeyOf(r) == k then [r] else [])
            == (if r.transactionIndex == r.transactionNum
                then OfKey(out + (open + [r]), k) + (if KeyOf(r) != k then openOfK else [])
                else OfKey(out, k) + (if KeyOf(r) != k then openOfK else openOfK + [r]))
  {
    var base := OfKey(out, k);
    if KeyOf(r) == k {
      assert base + open + [r] == base + (open + [r]);
    } else {
      assert base + openOfK + [] == base + openOfK;
    }
    if r.transactionIndex == r.transactionNum {
      assert OfKey(out + (open + [r]), k) == base + (if k == KeyOf(r) then open + [r] else []) by {
        OfKeyConcat(out, open + [r], k);
        OfKeyUniform(open + [r], KeyOf(r), k);
      }
      if KeyOf(r) == k {
        assert base + (open + [r]) + [] == base + (open + [r]);
      }
    }
  }

  // ---------- The rule of release, for any traffic ----------

  ghost predicate Known(p: Pending, k: Key) {
    k.lineId in p && k.transactionId in p[k.lineId]
  }

  // The records of k that wait for others, and those of one-record transactions, which go at once.
  predicate Groups(r: Record, k: Key) {
    KeyOf(r) == k && r.transactionNum != 1
  }

  function Grouped(rs: seq<Record>, k: Key): seq<Record> {
    if rs == [] then [] else Grouped(rs[..|rs| - 1], k) + if Groups(rs[|rs| - 1], k) then [rs[|rs| - 1]] else []
  }

  predicate IsSingle(r: Record, k: Key) {
    KeyOf(r) == k && r.transactionNum == 1
  }

  function Singles(rs: seq<Record>, k: Key): seq<Record> {
    if rs == [] then [] else Singles(rs[..|rs| - 1], k) + if IsSingle(rs[|rs| - 1], k) then [rs[|rs| - 1]] else []
  }

  lemma {:induction false} GroupedConcat(a: seq<Record>, b: seq<Record>, k: Key)
    ensures Grouped(a + b, k) == Grouped(a, k) + Grouped(b, k)
    ensures Singles(a + b, k) == Singles(a, k) + Singles(b, k)
  {
    if b == [] {
      assert a + b == a;
    } else {
      assert (a + b)[..|a + b| - 1] == a + b[..|b| - 1];
      GroupedConcat(a, b[..|b| - 1], k);
    }
  }

  lemma {:induction false} GroupedAll(rs: seq<Record>, k: Key)
    requires forall i :: 0 <= i < |rs| ==> Groups(rs[i], k)
    ensures Grouped(rs, k) == rs && Singles(rs, k) == []
  {
    if rs != [] {
      GroupedAll(rs[..|rs| - 1], k);
    }
  }

  lemma {:induction false} GroupedNone(rs: seq<Record>, j: Key, k: Key)
    requires AllOfKey(rs, j) && j != k
    ensures Grouped(rs, k) == [] && Singles(rs, k) == []
  {
    if rs != [] {
      GroupedNone(rs[..|rs| - 1], j, k);
    }
  }

  predicate Closes(r: Record) {
    r.transactionIndex == r.transactionNum
  }

  // Of the waiting kind of one key: what still waits, and the groups that were released.
  function OpenPart(mine: seq<Record>): seq<Record> {
    if mine == [] then []
    else
      var open, r := OpenPart(mine[..|mine| - 1]), mine[|mine| - 1];
      if open != [] && Closes(r) then [] else open + [r]
  }

  function ClosedGroups(mine: seq<Record>): seq<seq<Record>> {
    if mine == [] then []
    else
      var groups, open, r := ClosedGroups(mine[..|mine| - 1]), OpenPart(mine[..|mine| - 1]), mine[|mine| - 1];
      if open != [] && Closes(r) then groups + [open + [r]] else groups
  }

  // A group ends with the first record after its first one whose index is its number.
  ghost predicate ClosedGroup(g: seq<Record>) {
    |g| >= 2 && Closes(g[|g| - 1]) && forall i :: 0 < i < |g| - 1 ==> !Closes(g[i])
  }

  ghost predicate IsSplit(groups: seq<seq<Record>>, open: seq<Record>, mine: seq<Record>) {
    && Flatten(groups) + open == mine
    && (forall i :: 0 <= i < |groups| ==> ClosedGroup(groups[i]))
    && forall i :: 0 < i < |open| ==> !Closes(open[i])
  }

  lemma FlattenMore(groups: seq<seq<Record>>, g: seq<Record>)
    ensures Flatten(groups + [g]) == Flatten(groups) + g
  {
    assert (groups + [g])[..|groups|] == groups;
  }

  lemma Regrouped(a: seq<Record>, b: seq<Record>, r: Record)
    ensures a + (b + [r]) == a + b + [r] && a + (b + [r]) + [] == a + b + [r]
  {
  }

  lemma SplitMore(mine: seq<Record>, r: Record)
    ensures var open, more := OpenPart(mine), mine + [r];
            && OpenPart(more) == (if open != [] && Closes(r) then [] else open + [r])
            && ClosedGroups(more)
               == (if open != [] && Closes(r) then ClosedGroups(mine) + [open + [r]] else ClosedGroups(mine))
  {
    assert (mine + [r])[..|mine|] == mine;
  }

  lemma {:induction false} SplitExists(mine: seq<Record>)
    ensures IsSplit(ClosedGroups(mine), OpenPart(mine), mine)
  {
    if mine != [] {
      var some, r := mine[..|mine| - 1], mine[|mine| - 1];
      SplitExists(some);
      assert some + [r] == mine;
      SplitMore(some, r);
      SplitStays(ClosedGroups(some), OpenPart(some), some, r);
    }
  }

  lemma SplitStays(groups: seq<seq<Record>>, open: seq<Record>, mine: seq<Record>, r: Record)
    requires IsSplit(groups, open, mine)
    ensures if open != [] && Closes(r) then IsSplit(groups + [open + [r]], [], mine + [r])
            else IsSplit(groups, open + [r], mine + [r])
  {
    FlattenMore(groups, open + [r]);
    Regrouped(Flatten(groups), open, r);
  }

  lemma WithoutOpen(groups: seq<seq<Record>>, open: seq<Record>, mine: seq<Record>)
    requires IsSplit(groups, open, mine) && open != []
    ensures mine != [] && mine[|mine| - 1] == open[|open| - 1]
    ensures IsSplit(groups, open[..|open| - 1], mine[..|mine| - 1])
  {
    assert mine[..|mine| - 1] == Flatten(groups) + open[..|open| - 1];
  }

  lemma WithoutGroup(groups: seq<seq<Record>>, mine: seq<Record>)
    requires IsSplit(groups, [], mine) && groups != []
    ensures var g := groups[|groups| - 1];
            && ClosedGroup(g) && mine != [] && mine[|mine| - 1] == g[|g| - 1]
            && IsSplit(groups[..|groups| - 1], g[..|g| - 1], mine[..|mine| - 1])
  {
    var some, g := groups[..|groups| - 1], groups[|groups| - 1];
    assert ClosedGroup(g) && mine == Flatten(some) + g;
    assert mine[..|mine| - 1] == Flatten(some) + g[..|g| - 1];
  }

  lemma WithLast<T>(s: seq<T>)
    requires s != []
    ensures s == s[..|s| - 1] + [s[|s| - 1]]
  {
  }

  // There is one such split only.
  lemma {:induction false} SplitUnique(groups: seq<seq<Record>>, open: seq<Record>, mine: seq<Record>)
    requires IsSplit(groups, open, mine)
    ensures groups == ClosedGroups(mine) && open == OpenPart(mine)
    decreases |mine|
  {
    if open != [] {
      WithoutOpen(groups, open, mine);
      var before, r := mine[..|mine| - 1], mine[|mine| - 1];
      SplitUnique(groups, open[..|open| - 1], before);
      WithLast(open);
      WithLast(mine);
      SplitMore(before, r);
    } else if groups != [] {
      WithoutGroup(groups, mine);
      var before, r, g := mine[..|mine| - 1], mine[|mine| - 1], groups[|groups| - 1];
      SplitUnique(groups[..|groups| - 1], g[..|g| - 1], before);
      WithLast(g);
      WithLast(groups);
      WithLast(mine);
      SplitMore(before, r);
    }
  }

  lemma {:induction false} OpenPartGroups(mine: seq<Record>, k: Key)
    requires forall i :: 0 <= i < |mine| ==> Groups(mine[i], k)
    ensures forall i :: 0 <= i < |OpenPart(mine)| ==> Groups(OpenPart(mine)[i], k)
  {
    if mine != [] {
      OpenPartGroups(mine[..|mine| - 1], k);
    }
  }

  lemma {:induction false} GroupedGroups(rs: seq<Record>, k: Key)
    ensures forall i :: 0 <= i < |Grouped(rs, k)| ==> Groups(Grouped(rs, k)[i], k)
  {
    if rs != [] {
      GroupedGroups(rs[..|rs| - 1], k);
    }
  }

  lemma CollectAny(p: Pending, r: Record, k: Key)
    requires KeysHold(p) && (Known(p, k) <==> Waiting(p, k) != [])
    requires forall i :: 0 <= i < |Waiting(p, k)| ==> Groups(Waiting(p, k)[i], k)
    ensures var (q, group) := Collect(p, r);
            var w := Waiting(p, k);
            && Waiting(q, k) == (if !Groups(r, k) then w else if w != [] && Closes(r) then [] else w + [r])
            && (Known(q, k) <==> Waiting(q, k) != [])
            && Grouped(group, k) == (if Groups(r, k) && w != [] && Closes(r) then w + [r] else [])
            && Singles(group, k) == (if IsSingle(r, k) then [r] else [])
  {
    var group, w := Collect(p, r).1, Waiting(p, k);
    assert [r][..0] == [] && Grouped([], k) == [] && Singles([], k) == [];
    CollectStep(p, r, k);
    if KeyOf(r) != k {
      GroupedNone(group, KeyOf(r), k);
    } else if group == w + [r] && Groups(r, k) {
      GroupedAll(group, k);
    }
  }

  // Whatever arrives, from a state that does not know the key: its records of one-record transactions are
  // released as they come; the others are released in groups, in arrival order, each of which ends with
  // the first record after its first one whose index is its number.
  lemma {:induction false} ReleaseRule(p: Pending, rs: seq<Record>, k: Key)
    requires KeysHold(p) && !Known(p, k)
    ensures var (q, out) := CollectAll(p, rs);
            && KeysHold(q)
            && Singles(out, k) == Singles(rs, k)
            && Grouped(out, k) == Flatten(ClosedGroups(Grouped(rs, k)))
            && Waiting(q, k) == OpenPart(Grouped(rs, k))
            && (Known(q, k) <==> Waiting(q, k) != [])
  {
    if rs != [] {
      var some, r := rs[..|rs| - 1], rs[|rs| - 1];
      ReleaseRule(p, some, k);
      var (q, out) := CollectAll(p, some);
      var mine := Grouped(some, k);
      GroupedGroups(some, k);
      OpenPartGroups(mine, k);
      CollectKeepsKeys(q, r);
      CollectAny(q, r, k);
      GroupedConcat(out, Collect(q, r).1, k);
      RuleStep(mine, Grouped(out, k), r, Groups(r, k));
    }
  }

  lemma RuleStep(mine: seq<Record>, released: seq<Record>, r: Record, groups: bool)
    requires released == Flatten(ClosedGroups(mine))
    ensures var w := OpenPart(mine);
            var more := mine + if groups then [r] else [];
            && OpenPart(more) == (if !groups then w else if w != [] && Closes(r) then [] else w + [r])
            && Flatten(ClosedGroups(more)) == released + if groups && w != [] && Closes(r) then w + [r] else []
  {
    if groups {
      SplitMore(mine, r);
      FlattenMore(ClosedGroups(mine), OpenPart(mine) + [r]);
    } else {
      assert mine + [] == mine;
    }
    assert released + [] == released;
  }

  // The logged records of a transaction of a client, whose loads are numbered as well and not logged: the
  // numbers ascend with gaps.
  ghost predicate Transaction(t: seq<Record>) {
    && t != []
    && (forall i :: 0 <= i < |t| ==> t[i].transactionIndex <= t[i].transactionNum == t[0].transactionNum)
    && forall i, j :: 0 <= i < j < |t| ==> t[i].transactionIndex < t[j].transactionIndex
  }

  // Transactions of one key that follow each other are what is released if and only if each has two logged
  // records at least and its last operation is one of them.
  lemma TransactionsReleasedExact(ts: seq<seq<Record>>)
    requires forall i :: 0 <= i < |ts| ==> Transaction(ts[i])
    ensures ClosedGroups(Flatten(ts)) == ts && OpenPart(Flatten(ts)) == []
            <==> forall i :: 0 <= i < |ts| ==> |ts[i]| >= 2 && Closes(ts[i][|ts[i]| - 1])
  {
    var mine := Flatten(ts);
    SplitExists(mine);
    if forall i :: 0 <= i < |ts| ==> |ts[i]| >= 2 && Closes(ts[i][|ts[i]| - 1]) {
      forall i | 0 <= i < |ts| ensures ClosedGroup(ts[i]) {
        var t := ts[i];
        forall j | 0 < j < |t| - 1 ensures !Closes(t[j]) {
          assert t[j].transactionIndex < t[|t| - 1].transactionIndex;
        }
      }
      assert mine + [] == mine;
      SplitUnique(ts, [], mine);
    }
    if ClosedGroups(mine) == ts {
      forall i | 0 <= i < |ts| ensures |ts[i]| >= 2 && Closes(ts[i][|ts[i]| - 1]) {
        assert ClosedGroup(ClosedGroups(mine)[i]);
      }
    }
  }

  // ---------- Records without transaction numbers ----------

  predicate Unnumbered(r: Record) {
    r.transactionNum == 0 && r.transactionIndex == 0
  }

  // Of unnumbered records, those released and those waiting: they go in pairs, in arrival order, and the
  // last one waits if and only if their number is odd.
  ghost predicate PairedUp(mine: seq<Record>, released: seq<Record>, waiting: seq<Record>, known: bool) {
    var n := |mine| - |mine| % 2;
    && released == mine[..n] && waiting == mine[n..]
    && (known <==> |mine| % 2 == 1)
    && (waiting == [] <==> |mine| % 2 == 0)
  }

  lemma PairStep(mine: seq<Record>, released: seq<Record>, waiting: seq<Record>, known: bool, r: Record)
    requires PairedUp(mine, released, waiting, known)
    ensures PairedUp(mine + [r], released + (if known then waiting + [r] else []), if known then [] else [r], !known)
  {
    var n := |mine| - |mine| % 2;
    if known {
      assert mine[..n] + (mine[n..] + [r]) == mine + [r];
    } else {
      assert mine[..n] + [] == mine && (mine + [r])[..n] == mine;
    }
  }

  lemma CollectUnnumbered(p: Pending, r: Record, k: Key)
    requires KeysHold(p) && (KeyOf(r) == k ==> Unnumbered(r))
    ensures var (q, group) := Collect(p, r);
            && OfKey(group, k) == (if KeyOf(r) == k && Known(p, k) then Waiting(p, k) + [r] else [])
            && Waiting(q, k) == (if KeyOf(r) != k then Waiting(p, k) else if Known(p, k) then [] else [r])
            && (Known(q, k) <==> if KeyOf(r) == k then !Known(p, k) else Known(p, k))
  {
    CollectStep(p, r, k);
    OfKeyUniform(Collect(p, r).1, KeyOf(r), k);
  }

  // Records of 0 of 0 share the key of their line and transaction id. Whatever the other traffic, and
  // whenever none of the key is waiting at first, they are released in pairs.
  lemma {:induction false} UnnumberedRecordsPairUp(p: Pending, rs: seq<Record>, k: Key)
    requires KeysHold(p) && !Known(p, k)
    requires forall i :: 0 <= i < |rs| && KeyOf(rs[i]) == k ==> Unnumbered(rs[i])
    ensures KeysHold(CollectAll(p, rs).0)
    ensures PairedUp(OfKey(rs, k), OfKey(CollectAll(p, rs).1, k), Waiting(CollectAll(p, rs).0, k),
                     Known(CollectAll(p, rs).0, k))
  {
    if rs != [] {
      var some, r := rs[..|rs| - 1], rs[|rs| - 1];
      UnnumberedRecordsPairUp(p, some, k);
      var q, out := CollectAll(p, some).0, CollectAll(p, some).1;
      CollectKeepsKeys(q, r);
      CollectUnnumbered(q, r, k);
      OfKeyConcat(out, Collect(q, r).1, k);
      if KeyOf(r) == k {
        PairStep(OfKey(some, k), OfKey(out, k), Waiting(q, k), Known(q, k), r);
      } else {
        assert OfKey(some, k) + [] == OfKey(some, k) && OfKey(out, k) + [] == OfKey(out, k);
      }
    }
  }
}
