// ManageSqliteFile::mergeRecord: the pending records of one guid are folded into one record,
// so that the database is written once per guid (convertsys/src/ManageSQLiteFile.cpp:438-535).
module MergeRecords {
  import opened Records

  type MergeMap = map<Guid, Record>

  // A record that starts an entry of the merge map.
  function Fresh(r: Record, cacheAddr: string): Record {
    r.(cacheAddr := cacheAddr, lastIsFlush := r.lastIsFlush || r.optype == Flush)
  }

  // What becomes of entry `first` when `second` arrives; None means that the entry is dropped.
  function Absorb(first: Record, second: Record): Option<Record> {
    var f := first.(stream := second.stream);
    match first.optype
    case Insert =>
      (match second.optype
       case Flush => Some(f.(lastModifyTime := second.lastModifyTime, lastIsFlush := true))
       case Remove => None
       case _ => Some(f))
    case Update =>
      (match second.optype
       case Flush => Some(f.(optype := Flush, lastModifyTime := second.lastModifyTime, lastIsFlush := true))
       case Remove => Some(f.(optype := Remove))
       case _ => Some(f))
    case Flush =>
      (match second.optype
       case Update => Some(f.(lastIsFlush := true))
       case Flush => Some(f.(lastModifyTime := second.lastModifyTime, lastIsFlush := true))
       case Remove => Some(f.(optype := Remove, lastIsFlush := true))
       case _ => Some(f))
    case InsertWithFlush =>
      (match second.optype
       case Flush => Some(f.(lastModifyTime := second.lastModifyTime, lastIsFlush := true))
       case Remove => None
       case _ => Some(f.(lastIsFlush := true)))
    case Remove => Some(f)
    case Base | Load | Query => Some(f)
  }

  function Merge(merged: MergeMap, cacheAddr: string, r: Record): MergeMap {
    var g := r.objectGuid;
    if g in merged then
      var e := Absorb(merged[g], r);
      if e == None then merged - {g} else merged[g := e.value]
    else
      merged[g := Fresh(r, cacheAddr)]
  }

  // ---------- Writing the merge map ----------

  // The row of g once the merge map has been written.
  function WrittenCell(merged: MergeMap, db: Database, g: Guid): Option<Stream> {
    if g in merged then WriteCell(Cell(db, g), merged[g]) else Cell(db, g)
  }

  function Written(merged: MergeMap, db: Database): Database {
    map g | g in db.Keys + merged.Keys && WrittenCell(merged, db, g) != None
      :: WrittenCell(merged, db, g).value
  }

  // An entry is acknowledged when it carries a flush and its write succeeded.
  predicate Acknowledged(merged: MergeMap, db: Database, a: Ack) {
    && a.guid in merged
    && merged[a.guid].lastIsFlush
    && merged[a.guid].lastModifyTime == a.lastModifyTime
    && WriteSucceeds(Cell(db, a.guid), merged[a.guid])
  }

  function AckSet(merged: MergeMap, db: Database): (acks: set<Ack>)
    ensures forall a :: a in acks <==> Acknowledged(merged, db, a)
  {
    set g | g in merged && Acknowledged(merged, db, Ack(g, merged[g].lastModifyTime))
      :: Ack(g, merged[g].lastModifyTime)
  }

  ghost predicate KeysMatch(merged: MergeMap) {
    forall g :: g in merged ==> merged[g].objectGuid == g
  }

  lemma WrittenIsCellwise(merged: MergeMap, db: Database, g: Guid)
    ensures Cell(Written(merged, db), g) == WrittenCell(merged, db, g)
  {
  }

  // Writing the entries one at a time, in the given order.
  function WriteInOrder(order: seq<Guid>, merged: MergeMap, db: Database): Database
    requires forall i :: 0 <= i < |order| ==> order[i] in merged
  {
    if order == [] then db
    else WriteRecord(WriteInOrder(order[..|order| - 1], merged, db), merged[order[|order| - 1]])
  }

  ghost predicate Enumerates(order: seq<Guid>, keys: set<Guid>) {
    && (forall g :: g in order <==> g in keys)
    && (forall i, j :: 0 <= i < j < |order| ==> order[i] != order[j])
  }

  lemma {:induction false} WriteInOrderCell(order: seq<Guid>, merged: MergeMap, db: Database, g: Guid)
    requires KeysMatch(merged)
    requires forall i :: 0 <= i < |order| ==> order[i] in merged
    requires forall i, j :: 0 <= i < j < |order| ==> order[i] != order[j]
    ensures Cell(WriteInOrder(order, merged, db), g)
            == if g in order then WriteCell(Cell(db, g), merged[g]) else Cell(db, g)
  {
    if order != [] {
      var n := |order| - 1;
      WriteInOrderCell(order[..n], merged, db, g);
      WriteRecordCell(WriteInOrder(order[..n], merged, db), merged[order[n]], g);
      assert order == order[..n] + [order[n]];
    }
  }

  // The hash map may be walked in any order: the database it leaves is the same.
  lemma WriteOrderIrrelevant(order: seq<Guid>, merged: MergeMap, db: Database)
    requires KeysMatch(merged)
    requires Enumerates(order, merged.Keys)
    ensures (forall i :: 0 <= i < |order| ==> order[i] in merged)
            && WriteInOrder(order, merged, db) == Written(merged, db)
  {
    forall i | 0 <= i < |order| ensures order[i] in merged {
      assert order[i] in order;
    }
    forall g ensures Cell(WriteInOrder(order, merged, db), g) == Cell(Written(merged, db), g) {
      WriteInOrderCell(order, merged, db, g);
      WrittenIsCellwise(merged, db, g);
    }
    SameCells(WriteInOrder(order, merged, db), Written(merged, db));
  }

  // The acknowledgements that go out while the entries are written in the given order.
  function AcksInOrder(order: seq<Guid>, merged: MergeMap, db: Database): seq<Ack>
    requires forall i :: 0 <= i < |order| ==> order[i] in merged
  {
    if order == [] then []
    else
      var g := order[|order| - 1];
      AcksInOrder(order[..|order| - 1], merged, db)
      + if merged[g].lastIsFlush && WriteSucceeds(Cell(db, g), merged[g])
        then [Ack(g, merged[g].lastModifyTime)] else []
  }

  ghost predicate GuidsDistinct(acks: seq<Ack>) {
    forall i, j :: 0 <= i < j < |acks| ==> acks[i].guid != acks[j].guid
  }

  // Each flushed entry whose write succeeds is acknowledged, once, with its own time.
  lemma {:induction false} AcksInOrderExact(order: seq<Guid>, merged: MergeMap, db: Database)
    requires forall i :: 0 <= i < |order| ==> order[i] in merged
    requires forall i, j :: 0 <= i < j < |order| ==> order[i] != order[j]
    ensures forall a :: a in AcksInOrder(order, merged, db) <==> a.guid in order && Acknowledged(merged, db, a)
    ensures GuidsDistinct(AcksInOrder(order, merged, db))
  {
    if order != [] {
      var n := |order| - 1;
      AcksInOrderExact(order[..n], merged, db);
      assert order == order[..n] + [order[n]];
      var before := AcksInOrder(order[..n], merged, db);
      forall i | 0 <= i < |before| ensures before[i].guid != order[n] {
        assert before[i] in before && before[i].guid in order[..n];
      }
    }
  }

  // ---------- Merging preserves meaning ----------

  // The types that the server logs.
  predicate Logged(r: Record) {
    r.optype in {Insert, Update, Flush, Remove, InsertWithFlush}
  }

  // The row after entry e, or after nothing when the entry was dropped.
  function WriteOptional(c: Option<Stream>, e: Option<Record>): Option<Stream> {
    if e == None then c else WriteCell(c, e.value)
  }

  // Merging second into first, over row c, means what writing the two in turn means.
  predicate KeepsMeaning(c: Option<Stream>, first: Record, second: Record) {
    WriteOptional(c, Absorb(first, second)) == WriteCell(WriteCell(c, first), second)
  }

  // One merge step keeps the meaning of the two records exactly when, over a free row or with no insert
  // first, the second one is no insert or inserts the value that is already live; and, with an insert
  // first whose row is taken, the second one fails as well or writes what the row holds.
  lemma AbsorbExact(c: Option<Stream>, first: Record, second: Record)
    requires Logged(first) && Logged(second)
    ensures KeepsMeaning(c, first, second)
            <==> if IsInsert(first) && c != None
                 then IsInsert(second) || (second.optype in {Update, Flush} && c == Some(second.stream))
                 else IsInsert(second) ==> WriteCell(c, first) == Some(second.stream)
  {
    match first.optype {
      case Insert =>
      case Update =>
      case Flush =>
      case Remove =>
      case InsertWithFlush =>
    }
  }

  // A removal swallows a later insert of the same guid: the entity is lost.
  lemma RemoveSwallowsReuse(first: Record, second: Record, c: Option<Stream>)
    requires first.optype == Remove && IsInsert(second)
    ensures WriteOptional(c, Absorb(first, second)) == None
    ensures WriteCell(WriteCell(c, first), second) == Some(second.stream)
  {
    AbsorbExact(c, first, second);
  }

  // An insert whose row is taken takes every later write and removal of its guid down with it: the row
  // stays as it was, and the entry is not acknowledged.
  lemma FailedInsertSwallowsWrites(first: Record, second: Record, row: Stream)
    requires IsInsert(first) && second.optype in {Update, Flush, Remove}
    ensures WriteOptional(Some(row), Absorb(first, second)) == Some(row)
    ensures WriteCell(WriteCell(Some(row), first), second)
            == if second.optype == Remove then None else Some(second.stream)
    ensures Absorb(first, second) != None ==> !WriteSucceeds(Some(row), Absorb(first, second).value)
  {
  }

  // r may follow the log rs: a type that the server writes, and an insert only of a guid that the
  // database does not hold and that no earlier record names.
  predicate LegalNext(db: Database, rs: seq<Record>, r: Record) {
    Logged(r) && (IsInsert(r) ==> r.objectGuid !in db && !Mentions(rs, r.objectGuid))
  }

  predicate LegalLog(db: Database, rs: seq<Record>) {
    rs == [] || (LegalLog(db, rs[..|rs| - 1]) && LegalNext(db, rs[..|rs| - 1], rs[|rs| - 1]))
  }

  // The merge map and the database together stand for the log `rs` applied to `db0`.
  ghost predicate Simulates(merged: MergeMap, db: Database, db0: Database, rs: seq<Record>) {
    && KeysMatch(merged)
    && (forall g :: g in merged ==> Logged(merged[g]))
    && (forall g :: g in merged && IsInsert(merged[g]) ==> g !in db)
    && (forall g :: g in merged ==> Mentions(rs, g))
    && (forall g :: g in db ==> g in db0 || Mentions(rs, g))
    && Written(merged, db) == ApplyAll(db0, rs)
  }

  lemma MentionsMore(rs: seq<Record>, r: Record, g: Guid)
    ensures Mentions(rs + [r], g) <==> Mentions(rs, g) || r.objectGuid == g
  {
    if Mentions(rs, g) {
      var i :| 0 <= i < |rs| && rs[i].objectGuid == g;
      assert (rs + [r])[i].objectGuid == g;
    }
    assert (rs + [r])[|rs|] == r;
    if Mentions(rs + [r], g) && r.objectGuid != g {
      var i :| 0 <= i < |rs + [r]| && (rs + [r])[i].objectGuid == g;
      assert rs[i].objectGuid == g;
    }
  }

  // The merged entry of one guid after one more record means what the two mean in turn.
  lemma MergeCell(merged: MergeMap, db: Database, cacheAddr: string, r: Record, g: Guid)
    requires KeysMatch(merged) && Logged(r)
    requires forall h :: h in merged ==> Logged(merged[h])
    requires forall h :: h in merged && IsInsert(merged[h]) ==> h !in db
    requires IsInsert(r) ==> r.objectGuid !in merged
    ensures WrittenCell(Merge(merged, cacheAddr, r), db, g)
            == if g == r.objectGuid then WriteCell(WrittenCell(merged, db, g), r) else WrittenCell(merged, db, g)
  {
    if g == r.objectGuid && g in merged {
      AbsorbExact(Cell(db, g), merged[g], r);
    }
  }

  // Merging one more record keeps the meaning of the log.
  lemma {:induction false} MergeSimulates(
      merged: MergeMap, db: Database, db0: Database, rs: seq<Record>, cacheAddr: string, r: Record)
    requires Simulates(merged, db, db0, rs)
    requires LegalNext(db0, rs, r)
    ensures Simulates(Merge(merged, cacheAddr, r), db, db0, rs + [r])
  {
    var m, g := Merge(merged, cacheAddr, r), r.objectGuid;
    forall h ensures Mentions(rs + [r], h) <==> Mentions(rs, h) || h == g {
      MentionsMore(rs, r, h);
    }
    forall h | h in m ensures m[h].objectGuid == h && Logged(m[h]) && (IsInsert(m[h]) ==> h !in db) {
      if h == g && g in merged {
        AbsorbKeeps(merged[g], r);
      }
    }
    MergeMeansWrite(merged, db, cacheAddr, r);
    assert ApplyAll(db0, rs + [r]) == WriteRecord(ApplyAll(db0, rs), r) by {
      assert (rs + [r])[|rs|] == r && (rs + [r])[..|rs|] == rs;
    }
  }

  // An entry keeps its guid and stays the creation of its guid, or not, as it absorbs records.
  lemma AbsorbKeeps(first: Record, second: Record)
    requires Logged(first) && Logged(second)
    ensures Absorb(first, second) != None ==>
              var e := Absorb(first, second).value;
              e.objectGuid == first.objectGuid && Logged(e) && (IsInsert(e) <==> IsInsert(first))
  {
  }

  lemma MergeMeansWrite(merged: MergeMap, db: Database, cacheAddr: string, r: Record)
    requires KeysMatch(merged) && Logged(r)
    requires forall h :: h in merged ==> Logged(merged[h])
    requires forall h :: h in merged && IsInsert(merged[h]) ==> h !in db
    requires IsInsert(r) ==> r.objectGuid !in merged
    ensures Written(Merge(merged, cacheAddr, r), db) == WriteRecord(Written(merged, db), r)
  {
    var m, d := Merge(merged, cacheAddr, r), Written(merged, db);
    forall h ensures Cell(Written(m, db), h) == Cell(WriteRecord(d, r), h) {
      WrittenIsCellwise(m, db, h);
      WrittenIsCellwise(merged, db, h);
      MergeCell(merged, db, cacheAddr, r, h);
      WriteRecordCell(d, r, h);
    }
    SameCells(Written(m, db), WriteRecord(d, r));
  }

  // Writing the map out, at any moment, keeps the meaning of the log.
  lemma WriteOutSimulates(merged: MergeMap, db: Database, db0: Database, rs: seq<Record>)
    requires Simulates(merged, db, db0, rs)
    ensures Simulates(map[], Written(merged, db), db0, rs)
  {
    var d := Written(merged, db);
    forall g ensures Cell(Written(map[], d), g) == Cell(d, g) {
      WrittenIsCellwise(map[], d, g);
    }
    SameCells(Written(map[], d), d);
  }

  // The merger over a log, with the map written out after record i whenever cuts[i].
  function Run(db0: Database, rs: seq<Record>, cuts: seq<bool>, cacheAddr: string): (MergeMap, Database)
    requires |cuts| == |rs|
  {
    if rs == [] then (map[], db0)
    else
      var n := |rs| - 1;
      var (merged, db) := Run(db0, rs[..n], cuts[..n], cacheAddr);
      var m := Merge(merged, cacheAddr, rs[n]);
      if cuts[n] then (map[], Written(m, db)) else (m, db)
  }

  lemma {:induction false} RunSimulates(db0: Database, rs: seq<Record>, cuts: seq<bool>, cacheAddr: string)
    requires |cuts| == |rs| && LegalLog(db0, rs)
    ensures var (merged, db) := Run(db0, rs, cuts, cacheAddr); Simulates(merged, db, db0, rs)
  {
    if rs == [] {
      forall g ensures Cell(Written(map[], db0), g) == Cell(db0, g) {
        WrittenIsCellwise(map[], db0, g);
      }
      SameCells(Written(map[], db0), db0);
    } else {
      var n := |rs| - 1;
      RunSimulates(db0, rs[..n], cuts[..n], cacheAddr);
      var (merged, db) := Run(db0, rs[..n], cuts[..n], cacheAddr);
      assert rs == rs[..n] + [rs[n]];
      MergeSimulates(merged, db, db0, rs[..n], cacheAddr, rs[n]);
      WriteOutSimulates(Merge(merged, cacheAddr, rs[n]), db, db0, rs);
    }
  }

  // Whatever the batch boundaries and whatever order the map is walked in, the final write
  // leaves the database that applying every record in turn would have left.
  lemma {:induction false} MergingPreservesMeaning(
      db0: Database, rs: seq<Record>, cuts: seq<bool>, cacheAddr: string, order: seq<Guid>)
    requires |cuts| == |rs| && LegalLog(db0, rs)
    requires Enumerates(order, Run(db0, rs, cuts, cacheAddr).0.Keys)
    ensures var (merged, db) := Run(db0, rs, cuts, cacheAddr);
            && (forall i :: 0 <= i < |order| ==> order[i] in merged)
            && WriteInOrder(order, merged, db) == ApplyAll(db0, rs)
  {
    RunSimulates(db0, rs, cuts, cacheAddr);
    var (merged, db) := Run(db0, rs, cuts, cacheAddr);
    WriteOrderIrrelevant(order, merged, db);
  }

  // ---------- Flush acknowledgements ----------

  // The entry that the records h of one guid leave behind, if it survives them all.
  function EntryOf(h: seq<Record>, cacheAddr: string): Option<Record>
    requires h != []
  {
    if |h| == 1 then Some(Fresh(h[0], cacheAddr))
    else
      var e := EntryOf(h[..|h| - 1], cacheAddr);
      if e == None then None else Absorb(e.value, h[|h| - 1])
  }

  predicate HasFlush(h: seq<Record>) {
    exists i :: 0 <= i < |h| && h[i].optype == Flush
  }

  // The records before the first removal: the only ones an entry listens to.
  function BeforeRemove(h: seq<Record>): seq<Record> {
    if h == [] then []
    else
      var p := BeforeRemove(h[..|h| - 1]);
      if |p| == |h| - 1 && h[|h| - 1].optype != Remove then h else p
  }

  function LastFlushTime(h: seq<Record>): Option<nat> {
    if h == [] then None
    else if IsFlush(h[|h| - 1]) then Some(h[|h| - 1].lastModifyTime)
    else LastFlushTime(h[..|h| - 1])
  }

  lemma {:induction false} BeforeRemoveFacts(h: seq<Record>)
    ensures BeforeRemove(h) <= h
    ensures forall i :: 0 <= i < |BeforeRemove(h)| ==> BeforeRemove(h)[i].optype != Remove
    ensures |BeforeRemove(h)| < |h| ==> h[|BeforeRemove(h)|].optype == Remove
  {
    if h != [] {
      BeforeRemoveFacts(h[..|h| - 1]);
    }
  }

  // Records as they come from the log: types the server writes, no mark yet, and an insert only
  // as the first record of its guid.
  ghost predicate History(h: seq<Record>) {
    && h != []
    && (forall i :: 0 <= i < |h| ==> Logged(h[i]) && !h[i].lastIsFlush)
    && (forall i :: 0 < i < |h| ==> !IsInsert(h[i]))
  }

  lemma HistorySnoc(h: seq<Record>, r: Record)
    ensures HasFlush(h + [r]) <==> HasFlush(h) || r.optype == Flush
    ensures LastFlushTime(h + [r]) == if IsFlush(r) then Some(r.lastModifyTime) else LastFlushTime(h)
    ensures BeforeRemove(h + [r])
            == if BeforeRemove(h) == h && r.optype != Remove then h + [r] else BeforeRemove(h)
  {
    var k := h + [r];
    assert k[..|k| - 1] == h && k[|h|] == r;
    BeforeRemoveFacts(h);
    if HasFlush(h) {
      var i :| 0 <= i < |h| && h[i].optype == Flush;
      assert k[i].optype == Flush;
    }
    if HasFlush(k) && r.optype != Flush {
      var i :| 0 <= i < |k| && k[i].optype == Flush;
      assert h[i].optype == Flush;
    }
  }

  // What entry e says about the records h that made it.
  ghost predicate Marks(e: Record, h: seq<Record>)
    requires h != []
  {
    var p := BeforeRemove(h);
    && Logged(e)
    && (e.lastIsFlush <==> HasFlush(p) || (h[0].optype == InsertWithFlush && |h| > 1))
    && (e.lastIsFlush || h[0].optype == InsertWithFlush ==> Some(e.lastModifyTime) == LastFlushTime(p))
    && (e.optype == Remove <==> p != h)
    && (e.optype == Insert <==> h[0].optype == Insert)
    && (e.optype == InsertWithFlush <==> h[0].optype == InsertWithFlush)
    && (e.optype == Flush ==> e.lastIsFlush)
  }

  lemma FreshMarks(r: Record, cacheAddr: string)
    requires Logged(r) && !r.lastIsFlush
    ensures Marks(Fresh(r, cacheAddr), [r])
  {
    HistorySnoc([], r);
    assert [] + [r] == [r];
    assert BeforeRemove([]) == [] && LastFlushTime([]) == None && !HasFlush([]);
  }

  lemma AbsorbMarks(e: Record, h: seq<Record>, r: Record)
    requires h != [] && Marks(e, h)
    requires Logged(r) && !IsInsert(r) && Absorb(e, r) != None
    ensures Marks(Absorb(e, r).value, h + [r])
  {
    HistorySnoc(h, r);
    BeforeRemoveFacts(h);
    assert (h + [r])[0] == h[0] && |BeforeRemove(h)| < |h + [r]|;
    if e.optype == Remove {
    } else {
      assert BeforeRemove(h) == h;
      match r.optype {
        case Update =>
        case Flush =>
        case Remove =>
      }
    }
  }

  // Exactly when a surviving entry asks for an acknowledgement, and with which time: a flush
  // before any removal does, and so does a flushed insert followed by anything; a flushed
  // insert on its own never does.
  lemma {:induction false} AckExact(h: seq<Record>, cacheAddr: string)
    requires History(h) && EntryOf(h, cacheAddr) != None
    ensures Marks(EntryOf(h, cacheAddr).value, h)
  {
    var n := |h| - 1;
    if n == 0 {
      FreshMarks(h[0], cacheAddr);
      assert h == [h[0]];
    } else {
      AckExact(h[..n], cacheAddr);
      AbsorbMarks(EntryOf(h[..n], cacheAddr).value, h[..n], h[n]);
      assert h[..n] + [h[n]] == h;
    }
  }

  // When no flush follows a removal, the acknowledgement of an entry carries the time of the
  // last flush-type record merged into it, and no absorbed flush goes unacknowledged.
  lemma AckCarriesLastFlush(h: seq<Record>, cacheAddr: string)
    requires History(h) && EntryOf(h, cacheAddr) != None
    requires forall i, j :: 0 <= i < j < |h| && h[i].optype == Remove ==> h[j].optype != Flush
    ensures var e := EntryOf(h, cacheAddr).value;
            && (HasFlush(h) ==> e.lastIsFlush)
            && (e.lastIsFlush ==> Some(e.lastModifyTime) == LastFlushTime(h))
  {
    var n := |BeforeRemove(h)|;
    AckExact(h, cacheAddr);
    BeforeRemoveFacts(h);
    assert BeforeRemove(h) == h[..n];
    assert forall i :: n <= i < |h| ==> !IsFlush(h[i]);
    LastFlushTimePrefix(h, n);
    if HasFlush(h) {
      var i :| 0 <= i < |h| && h[i].optype == Flush;
      assert BeforeRemove(h)[i].optype == Flush;
    }
  }

  lemma {:induction false} LastFlushTimePrefix(h: seq<Record>, n: nat)
    requires n <= |h|
    requires forall i :: n <= i < |h| ==> !IsFlush(h[i])
    ensures LastFlushTime(h) == LastFlushTime(h[..n])
  {
    if n < |h| {
      LastFlushTimePrefix(h[..|h| - 1], n);
      assert h[..|h| - 1][..n] == h[..n];
    } else {
      assert h[..n] == h;
    }
  }

  // The records that the present entry of g has absorbed, in a run of the merger.
  function Absorbed(rs: seq<Record>, cuts: seq<bool>, cacheAddr: string, g: Guid): seq<Record>
    requires |cuts| == |rs|
  {
    if rs == [] then []
    else
      var n := |rs| - 1;
      var h := Absorbed(rs[..n], cuts[..n], cacheAddr, g);
      var k := if rs[n].objectGuid == g then h + [rs[n]] else h;
      if cuts[n] || k == [] || EntryOf(k, cacheAddr) == None then [] else k
  }

  // h is what the entry of g in the merge map has absorbed.
  ghost predicate Tracks(merged: MergeMap, h: seq<Record>, cacheAddr: string, g: Guid) {
    && (g in merged <==> h != [])
    && (h != [] ==> History(h) && EntryOf(h, cacheAddr) == Some(merged[g]))
  }

  lemma TrackStep(merged: MergeMap, h: seq<Record>, cacheAddr: string, g: Guid, r: Record)
    requires Tracks(merged, h, cacheAddr, g)
    requires Logged(r) && !r.lastIsFlush
    requires r.objectGuid == g && IsInsert(r) ==> h == []
    ensures var k := if r.objectGuid == g then h + [r] else h;
            var left := if k == [] || EntryOf(k, cacheAddr) == None then [] else k;
            Tracks(Merge(merged, cacheAddr, r), left, cacheAddr, g)
  {
    if r.objectGuid == g {
      var k := h + [r];
      assert History(k);
      if h == [] {
        assert k == [r];
      } else {
        assert k[..|k| - 1] == h;
        assert EntryOf(k, cacheAddr) == Absorb(merged[g], r);
      }
    }
  }

  lemma {:induction false} EntriesTrackHistory(
      db0: Database, rs: seq<Record>, cuts: seq<bool>, cacheAddr: string, g: Guid)
    requires |cuts| == |rs| && LegalLog(db0, rs)
    requires forall i :: 0 <= i < |rs| ==> !rs[i].lastIsFlush
    ensures Tracks(Run(db0, rs, cuts, cacheAddr).0, Absorbed(rs, cuts, cacheAddr, g), cacheAddr, g)
  {
    if rs != [] {
      var n := |rs| - 1;
      EntriesTrackHistory(db0, rs[..n], cuts[..n], cacheAddr, g);
      RunSimulates(db0, rs[..n], cuts[..n], cacheAddr);
      var before := Absorbed(rs[..n], cuts[..n], cacheAddr, g);
      TrackStep(Run(db0, rs[..n], cuts[..n], cacheAddr).0, before, cacheAddr, g, rs[n]);
    }
  }

  // The acknowledgements that a write-out sends, in terms of the log alone.
  lemma AcksOfRun(db0: Database, rs: seq<Record>, cuts: seq<bool>, cacheAddr: string, a: Ack)
    requires |cuts| == |rs| && LegalLog(db0, rs)
    requires forall i :: 0 <= i < |rs| ==> !rs[i].lastIsFlush
    ensures var (merged, db) := Run(db0, rs, cuts, cacheAddr);
            var h := Absorbed(rs, cuts, cacheAddr, a.guid);
            a in AckSet(merged, db) <==>
            && h != []
            && (HasFlush(BeforeRemove(h)) || (h[0].optype == InsertWithFlush && |h| > 1))
            && LastFlushTime(BeforeRemove(h)) == Some(a.lastModifyTime)
  {
    RunSimulates(db0, rs, cuts, cacheAddr);
    EntriesTrackHistory(db0, rs, cuts, cacheAddr, a.guid);
    var h := Absorbed(rs, cuts, cacheAddr, a.guid);
    if h != [] {
      AckExact(h, cacheAddr);
    }
  }

  // A flush that arrives after a removal is not acknowledged.
  lemma FlushAfterRemoveIsLost(first: Record, second: Record)
    requires first.optype == Remove && !first.lastIsFlush && second.optype == Flush
    ensures Absorb(first, second) != None && !Absorb(first, second).value.lastIsFlush
  {
  }
}
