// ManageSqliteFile: the converter, which reads the change log a file at a time, groups
// transactions, merges records and writes the database (convertsys/src/ManageSQLiteFile.cpp).
module Converter {
  import opened Records
  import opened MergeRecords
  import opened Transactions
  import opened Paging

  const MAX_MERGE_RECORD_NUMBER := 100000

  // The converter as a value: records waiting for their transaction, the merge map, the
  // database, and the acknowledgements sent so far.
  datatype State = State(pending: Pending, merged: MergeMap, db: Database, acks: set<Ack>)

  function WriteOut(s: State): State {
    s.(merged := map[], db := Written(s.merged, s.db), acks := s.acks + AckSet(s.merged, s.db))
  }

  // processRecord: merge, and write the map out once it is large.
  function Process(s: State, cacheAddr: string, r: Record): State {
    var t := s.(merged := Merge(s.merged, cacheAddr, r));
    if |t.merged| < MAX_MERGE_RECORD_NUMBER then t else WriteOut(t)
  }

  function ProcessAll(s: State, cacheAddr: string, rs: seq<Record>): State {
    if rs == [] then s
    else Process(ProcessAll(s, cacheAddr, rs[..|rs| - 1]), cacheAddr, rs[|rs| - 1])
  }

  // collectTransaction, with the records it releases processed.
  function Accept(s: State, cacheAddr: string, r: Record): State {
    var (p, group) := Collect(s.pending, r);
    ProcessAll(s, cacheAddr, group).(pending := p)
  }

  function AcceptAll(s: State, cacheAddr: string, rs: seq<Record>): State {
    if rs == [] then s
    else Accept(AcceptAll(s, cacheAddr, rs[..|rs| - 1]), cacheAddr, rs[|rs| - 1])
  }

  lemma {:induction false} AcceptAllConcat(s: State, cacheAddr: string, a: seq<Record>, b: seq<Record>)
    ensures AcceptAll(s, cacheAddr, a + b) == AcceptAll(AcceptAll(s, cacheAddr, a), cacheAddr, b)
  {
    if b == [] {
      assert a + b == a;
    } else {
      assert (a + b)[..|a + b| - 1] == a + b[..|b| - 1];
      AcceptAllConcat(s, cacheAddr, a, b[..|b| - 1]);
    }
  }

  lemma {:induction false} AcceptAllNext(s: State, cacheAddr: string, rs: seq<Record>, i: nat, j: nat)
    requires i <= j <= |rs|
    ensures AcceptAll(AcceptAll(s, cacheAddr, rs[..i]), cacheAddr, rs[i..j]) == AcceptAll(s, cacheAddr, rs[..j])
  {
    assert rs[..i] + rs[i..j] == rs[..j];
    AcceptAllConcat(s, cacheAddr, rs[..i], rs[i..j]);
  }

  // The last page is the first that is not full.
  function ReadsNeeded(file: LogFile): nat {
    |RowsAfter(file.rows, 0)| / PAGE_SIZE + 1
  }

  predicate FileReadable(file: LogFile) {
    file.canOpen && ReadsNeeded(file) <= file.goodReads
  }

  function RowsRead(file: LogFile): seq<Record> {
    var all := RowsAfter(file.rows, 0);
    if !file.canOpen then []
    else if ReadsNeeded(file) <= file.goodReads then all
    else all[..file.goodReads * PAGE_SIZE]
  }

  // ---------- Paging through a file ----------

  // Some function that accepts records. Proofs about paging use any such function, which keeps what
  // accepting a record does out of them.
  ghost predicate IsAcceptor(accept: (State, seq<Record>) -> State, cacheAddr: string) {
    forall s: State, rs: seq<Record> :: AcceptsAt(accept, cacheAddr, s, rs)
  }

  ghost predicate AcceptsAt(accept: (State, seq<Record>) -> State, cacheAddr: string, s: State, rs: seq<Record>) {
    accept(s, rs) == AcceptAll(s, cacheAddr, rs)
  }

  lemma AcceptorExists(cacheAddr: string)
    ensures exists accept :: IsAcceptor(accept, cacheAddr)
  {
    var accept := (s: State, rs: seq<Record>) => AcceptAll(s, cacheAddr, rs);
    assert forall s: State, rs: seq<Record> :: AcceptsAt(accept, cacheAddr, s, rs);
    assert IsAcceptor(accept, cacheAddr);
  }

  lemma AcceptNext(
      accept: (State, seq<Record>) -> State, cacheAddr: string, s: State, rs: seq<Record>, i: nat, j: nat)
    requires IsAcceptor(accept, cacheAddr) && i <= j <= |rs|
    ensures accept(accept(s, rs[..i]), rs[i..j]) == accept(s, rs[..j])
  {
    assert AcceptsAt(accept, cacheAddr, s, rs[..i]) && AcceptsAt(accept, cacheAddr, s, rs[..j]);
    assert AcceptsAt(accept, cacheAddr, accept(s, rs[..i]), rs[i..j]);
    AcceptAllNext(s, cacheAddr, rs, i, j);
  }

  function LastRow(page: seq<Record>, guid: nat): nat {
    if page == [] then guid else page[|page| - 1].guid
  }

  // After `pages` pages, the last of `already` rows, the first `done` rows have been accepted, which took
  // the converter from start to now, and the next page comes after row guid.
  ghost predicate PagesRead(
      accept: (State, seq<Record>) -> State, start: State, now: State, rows: map<nat, Record>,
      guid: nat, already: nat, pages: nat, done: nat) {
    var all := RowsAfter(rows, 0);
    && done <= |all| && already <= PAGE_SIZE
    && now == accept(start, all[..done])
    && RowsAfter(rows, guid) == all[done..]
    && (if already == PAGE_SIZE then done == pages * PAGE_SIZE
        else done == |all| && 0 < pages && (pages - 1) * PAGE_SIZE <= done < pages * PAGE_SIZE)
  }

  lemma PagesStart(
      accept: (State, seq<Record>) -> State, cacheAddr: string, start: State, rows: map<nat, Record>)
    requires IsAcceptor(accept, cacheAddr)
    ensures PagesRead(accept, start, start, rows, 0, PAGE_SIZE, 0, 0)
  {
    assert RowsAfter(rows, 0)[..0] == [] && AcceptsAt(accept, cacheAddr, start, []);
  }

  lemma PagesNext(
      accept: (State, seq<Record>) -> State, cacheAddr: string, start: State, now: State,
      rows: map<nat, Record>, guid: nat, pages: nat, done: nat)
    requires IsAcceptor(accept, cacheAddr)
    requires RowsNumbered(rows) && PagesRead(accept, start, now, rows, guid, PAGE_SIZE, pages, done)
    ensures var page := Page(rows, guid);
            && PagesRead(accept, start, accept(now, page), rows, LastRow(page, guid), |page|,
                         pages + 1, done + |page|)
            && |RowsAfter(rows, LastRow(page, guid))| == |RowsAfter(rows, guid)| - |page|
  {
    var all, page := RowsAfter(rows, 0), Page(rows, guid);
    NextPage(rows, guid, all, done);
    assert page == all[done..done + |page|];
    AcceptNext(accept, cacheAddr, start, all, done, done + |page|);
  }

  lemma PagesFailed(
      accept: (State, seq<Record>) -> State, start: State, now: State, rows: map<nat, Record>,
      guid: nat, pages: nat, done: nat)
    requires PagesRead(accept, start, now, rows, guid, PAGE_SIZE, pages, done)
    ensures pages <= |RowsAfter(rows, 0)| / PAGE_SIZE && done == pages * PAGE_SIZE <= |RowsAfter(rows, 0)|
    ensures now == accept(start, RowsAfter(rows, 0)[..done])
  {
  }

  lemma PagesFinished(
      accept: (State, seq<Record>) -> State, start: State, now: State, rows: map<nat, Record>,
      guid: nat, already: nat, pages: nat, done: nat)
    requires PagesRead(accept, start, now, rows, guid, already, pages, done) && already < PAGE_SIZE
    ensures |RowsAfter(rows, 0)| / PAGE_SIZE == pages - 1 && done == |RowsAfter(rows, 0)|
    ensures now == accept(start, RowsAfter(rows, 0)[..done])
  {
  }

  // The state a file leaves behind: every page is accepted in turn, and the merge map is written
  // out at the end. A read that fails abandons the file with the map as it is.
  function AfterFile(s: State, cacheAddr: string, file: LogFile): State {
    var t := AcceptAll(s, cacheAddr, RowsRead(file));
    if FileReadable(file) then WriteOut(t) else t
  }

  // ---------- What a file means ----------

  lemma {:induction false} ProcessAllConcat(s: State, cacheAddr: string, a: seq<Record>, b: seq<Record>)
    ensures ProcessAll(s, cacheAddr, a + b) == ProcessAll(ProcessAll(s, cacheAddr, a), cacheAddr, b)
  {
    if b == [] {
      assert a + b == a;
    } else {
      assert (a + b)[..|a + b| - 1] == a + b[..|b| - 1];
      ProcessAllConcat(s, cacheAddr, a, b[..|b| - 1]);
    }
  }

  lemma {:induction false} ProcessAllKeepsPending(s: State, p: Pending, cacheAddr: string, rs: seq<Record>)
    ensures ProcessAll(s.(pending := p), cacheAddr, rs) == ProcessAll(s, cacheAddr, rs).(pending := p)
  {
    if rs != [] {
      ProcessAllKeepsPending(s, p, cacheAddr, rs[..|rs| - 1]);
    }
  }

  // Accepting records is processing those that their transactions release.
  lemma {:induction false} AcceptAllReleases(s: State, cacheAddr: string, rs: seq<Record>)
    ensures var (p, out) := CollectAll(s.pending, rs);
            AcceptAll(s, cacheAddr, rs) == ProcessAll(s, cacheAddr, out).(pending := p)
  {
    if rs != [] {
      var n := |rs| - 1;
      AcceptAllReleases(s, cacheAddr, rs[..n]);
      var (p, out) := CollectAll(s.pending, rs[..n]);
      var (p', group) := Collect(p, rs[n]);
      ProcessAllKeepsPending(ProcessAll(s, cacheAddr, out), p, cacheAddr, group);
      ProcessAllConcat(s, cacheAddr, out, group);
    }
  }

  // The map never holds 100000 guids after a record,
  lemma {:induction false} MapStaysSmall(s: State, cacheAddr: string, rs: seq<Record>)
    requires |s.merged| < 100000
    ensures |ProcessAll(s, cacheAddr, rs).merged| < 100000
  {
    if rs != [] {
      MapStaysSmall(s, cacheAddr, rs[..|rs| - 1]);
    }
  }

  // and as long as it cannot nothing is written or acknowledged.
  lemma {:induction false} FewRecordsWriteNothing(s: State, cacheAddr: string, rs: seq<Record>)
    requires |s.merged| + |rs| < 100000
    ensures var t := ProcessAll(s, cacheAddr, rs);
            t == s.(merged := t.merged) && |t.merged| <= |s.merged| + |rs|
  {
    if rs != [] {
      FewRecordsWriteNothing(s, cacheAddr, rs[..|rs| - 1]);
      MergeGrowsByOne(ProcessAll(s, cacheAddr, rs[..|rs| - 1]).merged, cacheAddr, rs[|rs| - 1]);
    }
  }

  lemma MergeGrowsByOne(merged: MergeMap, cacheAddr: string, r: Record)
    ensures |Merge(merged, cacheAddr, r)| <= |merged| + 1
  {
    var m := Merge(merged, cacheAddr, r);
    var keys := merged.Keys + {r.objectGuid};
    assert keys == m.Keys + (keys - m.Keys);
    assert |keys| <= |merged| + 1;
  }

  ghost predicate Stands(s: State, db0: Database, log: seq<Record>) {
    Simulates(s.merged, s.db, db0, log)
  }

  lemma ProcessStands(s: State, cacheAddr: string, db0: Database, log: seq<Record>, r: Record)
    requires Stands(s, db0, log) && LegalNext(db0, log, r)
    ensures Stands(Process(s, cacheAddr, r), db0, log + [r])
  {
    MergeSimulates(s.merged, s.db, db0, log, cacheAddr, r);
    WriteOutSimulates(Merge(s.merged, cacheAddr, r), s.db, db0, log + [r]);
  }

  lemma LegalSnoc(db: Database, log: seq<Record>, r: Record)
    requires LegalLog(db, log + [r])
    ensures LegalLog(db, log) && LegalNext(db, log, r)
  {
    assert (log + [r])[..|log|] == log;
  }

  lemma {:induction false} ProcessAllStands(
      s: State, cacheAddr: string, db0: Database, log: seq<Record>, rs: seq<Record>)
    requires Stands(s, db0, log) && LegalLog(db0, log + rs)
    ensures Stands(ProcessAll(s, cacheAddr, rs), db0, log + rs)
  {
    if rs == [] {
      assert log + rs == log;
    } else {
      var q, r := rs[..|rs| - 1], rs[|rs| - 1];
      assert log + q + [r] == log + rs;
      LegalSnoc(db0, log + q, r);
      ProcessAllStands(s, cacheAddr, db0, log, q);
      ProcessStands(ProcessAll(s, cacheAddr, q), cacheAddr, db0, log + q, r);
    }
  }

  // After a file the merge map is empty, the database is what applying every released record in
  // turn gives, and the records of unfinished transactions wait for the next file.
  lemma FileMeaning(s: State, cacheAddr: string, file: LogFile, db0: Database, log: seq<Record>)
    requires FileReadable(file)
    requires Stands(s, db0, log)
    requires LegalLog(db0, log + CollectAll(s.pending, RowsAfter(file.rows, 0)).1)
    ensures var t, (p, out) := AfterFile(s, cacheAddr, file), CollectAll(s.pending, RowsAfter(file.rows, 0));
            && t.merged == map[]
            && t.db == ApplyAll(db0, log + out)
            && t.pending == p
            && Stands(t, db0, log + out)
  {
    var rows := RowsAfter(file.rows, 0);
    var out := CollectAll(s.pending, rows).1;
    AcceptAllReleases(s, cacheAddr, rows);
    ProcessAllStands(s, cacheAddr, db0, log, out);
    var t := ProcessAll(s, cacheAddr, out);
    WriteOutSimulates(t.merged, t.db, db0, log + out);
  }

  // All entries but those still to do have been written, in this order.
  ghost predicate Walked(order: seq<Guid>, merged: MergeMap, todo: set<Guid>) {
    && Enumerates(order, merged.Keys - todo)
    && forall i :: 0 <= i < |order| ==> order[i] in merged
  }

  lemma WalkOn(order: seq<Guid>, merged: MergeMap, todo: set<Guid>, db: Database, g: Guid)
    requires KeysMatch(merged) && todo <= merged.Keys && Walked(order, merged, todo) && g in todo
    ensures Walked(order + [g], merged, todo - {g})
    ensures Cell(WriteInOrder(order, merged, db), g) == Cell(db, g)
    ensures WriteInOrder(order + [g], merged, db) == WriteRecord(WriteInOrder(order, merged, db), merged[g])
    ensures AcksInOrder(order + [g], merged, db)
            == AcksInOrder(order, merged, db)
               + if merged[g].lastIsFlush && WriteSucceeds(Cell(db, g), merged[g])
                 then [Ack(g, merged[g].lastModifyTime)] else []
  {
    WriteInOrderCell(order, merged, db, g);
    assert (order + [g])[..|order|] == order;
  }

  class ManageSqliteFile {
    var pending: Pending        // line_trans_record
    var merged: MergeMap        // m_merge_record_map
    var db: Database            // the tables behind the connection
    var output: seq<Ack>        // what m_handle_output was given

    ghost function Abs(): State
      reads this
    {
      State(pending, merged, db, set a | a in output)
    }

    constructor (db0: Database)
      ensures Abs() == State(map[], map[], db0, {}) && output == []
    {
      pending, merged, db, output := map[], map[], db0, [];
    }

    // `created` and `parses` say whether an entity object can be made for the record and its stream parsed
    // into it; a removal needs no stream.
    method WriteRecordToDb(r: Record, created: bool, parses: bool) returns (ok: bool)
      modifies `db
      ensures if created && (r.optype == Remove || parses) then
                db == WriteRecord(old(db), r) && (ok <==> WriteSucceeds(Cell(old(db), r.objectGuid), r))
              else db == old(db) && !ok
    {
      if !created {
        return false;
      }
      if r.optype != Remove {
        if !parses {
          return false;
        }
      }
      var g := r.objectGuid;
      match r.optype {
        case Insert | InsertWithFlush =>
          ok := g !in db;
          if ok {
            db := db[g := r.stream];
          }
        case Update | Flush =>
          ok := true;
          if g in db {
            db := db[g := r.stream];
          }
        case Remove =>
          ok := true;
          db := db - {g};
        case Base | Load | Query =>
          ok := false;
      }
      assert db == WriteRecord(old(db), r);
    }

    method MergeRecord(cacheAddr: string, record: Record)
      modifies `merged
      ensures merged == Merge(old(merged), cacheAddr, record)
    {
      var g := record.objectGuid;
      if g in merged {
        var first, second := merged[g], record;
        first := first.(stream := second.stream);
        var erased := false;
        match first.optype {
          case Insert =>
            if second.optype == Flush {
              first := first.(lastModifyTime := second.lastModifyTime, lastIsFlush := true);
            } else if second.optype == Remove {
              erased := true;
            }
          case Update =>
            if second.optype == Flush {
              first := first.(optype := second.optype, lastModifyTime := second.lastModifyTime, lastIsFlush := true);
            } else if second.optype == Remove {
              first := first.(optype := second.optype);
            }
          case Flush =>
            if second.optype == Update {
              first := first.(lastIsFlush := true);
            } else if second.optype == Flush {
              first := first.(lastModifyTime := second.lastModifyTime, lastIsFlush := true);
            } else if second.optype == Remove {
              first := first.(optype := second.optype, lastIsFlush := true);
            }
          case Remove =>
          case InsertWithFlush =>
            first := first.(lastIsFlush := true);
            if second.optype == Flush {
              first := first.(lastModifyTime := second.lastModifyTime);
            } else if second.optype == Remove {
              erased := true;
            }
          case Base | Load | Query =>
        }
        merged := if erased then merged - {g} else merged[g := first];
      } else {
        var first := record.(cacheAddr := cacheAddr);
        if record.optype == Flush {
          first := first.(lastIsFlush := true);
        }
        merged := merged[g := first];
      }
    }

    // Writes one merged record, which parses, and acknowledges it if it carries a flush and the write
    // succeeded.
    method WriteEntry(g: Guid)
      requires g in merged
      modifies `db, `output
      ensures db == WriteRecord(old(db), merged[g])
      ensures output == old(output)
                + if merged[g].lastIsFlush && WriteSucceeds(Cell(old(db), merged[g].objectGuid), merged[g])
                  then [Ack(merged[g].objectGuid, merged[g].lastModifyTime)] else []
    {
      var record := merged[g];
      var ok := WriteRecordToDb(record, true, true);
      if ok && record.lastIsFlush {
        output := output + [Ack(record.objectGuid, record.lastModifyTime)];
      } else {
        assert output == old(output) + [];
      }
    }

    // Walks the merge map in whatever order it yields its entries.
    method WriteMerged() returns (ghost order: seq<Guid>)
      requires KeysMatch(merged)
      modifies `db, `output
      ensures Enumerates(order, merged.Keys)
      ensures forall i :: 0 <= i < |order| ==> order[i] in merged
      ensures db == WriteInOrder(order, merged, old(db))
      ensures output == old(output) + AcksInOrder(order, merged, old(db))
    {
      order := [];
      var todo := merged.Keys;
      while todo != {}
        invariant todo <= merged.Keys && Walked(order, merged, todo)
        invariant db == WriteInOrder(order, merged, old(db))
        invariant output == old(output) + AcksInOrder(order, merged, old(db))
        decreases |todo|
      {
        var g :| g in todo;
        WalkOn(order, merged, todo, old(db), g);
        ghost var before := output;
        WriteEntry(g);
        assert old(output) + AcksInOrder(order, merged, old(db)) == before;
        order := order + [g];
        todo := todo - {g};
      }
    }

    // Writes every merged record once, in any order, and acknowledges each flushed one right
    // after its write succeeded; does nothing while the map is small, unless the file is finished.
    method CheckMergeRecord(fileProcessFinish: bool)
      requires KeysMatch(merged)
      modifies `merged, `db, `output
      ensures old(output) <= output
      ensures fileProcessFinish || |old(merged)| >= MAX_MERGE_RECORD_NUMBER ==>
                && Abs() == WriteOut(old(Abs()))
                && (forall a :: a in output[|old(output)|..] <==> Acknowledged(old(merged), old(db), a))
                && GuidsDistinct(output[|old(output)|..])
      ensures !(fileProcessFinish || |old(merged)| >= MAX_MERGE_RECORD_NUMBER) ==>
                merged == old(merged) && db == old(db) && output == old(output)
    {
      if !fileProcessFinish {
        if |merged| < MAX_MERGE_RECORD_NUMBER {
          return;
        }
      }
      ghost var order := WriteMerged();
      WriteOrderIrrelevant(order, merged, old(db));
      AcksInOrderExact(order, merged, old(db));
      ghost var sent := AcksInOrder(order, merged, old(db));
      assert output[|old(output)|..] == sent;
      assert (set a | a in output) == (set a | a in old(output)) + AckSet(merged, old(db));
      merged := map[];
    }

    method ProcessRecord(cacheAddr: string, record: Record)
      requires KeysMatch(merged)
      modifies `merged, `db, `output
      ensures KeysMatch(merged)
      ensures Abs() == Process(old(Abs()), cacheAddr, record)
      ensures old(output) <= output
    {
      MergeRecord(cacheAddr, record);
      CheckMergeRecord(false);
    }

    method ProcessGroup(cacheAddr: string, group: seq<Record>)
      requires KeysMatch(merged)
      modifies `merged, `db, `output
      ensures KeysMatch(merged)
      ensures Abs() == ProcessAll(old(Abs()), cacheAddr, group)
      ensures old(output) <= output
    {
      for i := 0 to |group|
        invariant KeysMatch(merged) && old(output) <= output
        invariant Abs() == ProcessAll(old(Abs()), cacheAddr, group[..i])
      {
        assert group[..i + 1][..i] == group[..i];
        ProcessRecord(cacheAddr, group[i]);
      }
      assert group[..|group|] == group;
    }

    method CollectTransaction(cacheAddr: string, record: Record)
      requires KeysMatch(merged)
      modifies this
      ensures KeysMatch(merged)
      ensures Abs() == Accept(old(Abs()), cacheAddr, record)
      ensures old(output) <= output
    {
      if record.transactionNum == 1 {
        ProcessGroup(cacheAddr, [record]);
        return;
      }
      var line, id := record.lineId, record.transactionId;
      if line !in pending {
        pending := pending[line := map[id := [record]]];
      } else if id !in pending[line] {
        pending := pending[line := pending[line][id := [record]]];
      } else {
        var group := pending[line][id] + [record];
        if record.transactionNum == record.transactionIndex {
          ProcessGroup(cacheAddr, group);
          pending := pending[line := pending[line] - {id}];
        } else {
          pending := pending[line := pending[line][id := group]];
        }
      }
    }

    method ProcessRecordSet(cacheAddr: string, recordSet: seq<Record>)
      requires KeysMatch(merged)
      modifies this
      ensures KeysMatch(merged)
      ensures Abs() == AcceptAll(old(Abs()), cacheAddr, recordSet)
      ensures old(output) <= output
    {
      for i := 0 to |recordSet|
        invariant KeysMatch(merged) && old(output) <= output
        invariant Abs() == AcceptAll(old(Abs()), cacheAddr, recordSet[..i])
      {
        assert recordSet[..i + 1][..i] == recordSet[..i];
        CollectTransaction(cacheAddr, recordSet[i]);
      }
      assert recordSet[..|recordSet|] == recordSet;
    }

    // Reads and accepts the page after row `guid`.
    method ProcessPage(
        cacheAddr: string, rows: map<nat, Record>, guid: nat, ghost accept: (State, seq<Record>) -> State)
      returns (next: nat, alreadyRead: nat)
      requires KeysMatch(merged) && IsAcceptor(accept, cacheAddr)
      modifies this
      ensures KeysMatch(merged)
      ensures Abs() == accept(old(Abs()), Page(rows, guid))
      ensures next == LastRow(Page(rows, guid), guid) && alreadyRead == |Page(rows, guid)|
      ensures old(output) <= output
    {
      var recordSet := Page(rows, guid);
      alreadyRead := |recordSet|;
      next := guid;
      if alreadyRead > 0 {
        next := recordSet[alreadyRead - 1].guid;
      }
      ProcessRecordSet(cacheAddr, recordSet);
      assert AcceptsAt(accept, cacheAddr, old(Abs()), recordSet);
    }

    // Pages through the rows. The loop ends on the first page that is not full, which is an empty
    // page when the number of rows is a multiple of the page size.
    method ReadPages(
        cacheAddr: string, rows: map<nat, Record>, goodReads: nat, ghost accept: (State, seq<Record>) -> State)
      returns (ok: bool, ghost done: nat)
      requires KeysMatch(merged) && RowsNumbered(rows) && IsAcceptor(accept, cacheAddr)
      modifies this
      ensures KeysMatch(merged)
      ensures ok <==> |RowsAfter(rows, 0)| / PAGE_SIZE < goodReads
      ensures done == if ok then |RowsAfter(rows, 0)| else goodReads * PAGE_SIZE
      ensures done <= |RowsAfter(rows, 0)|
      ensures Abs() == accept(old(Abs()), RowsAfter(rows, 0)[..done])
      ensures old(output) <= output
    {
      ghost var start := Abs();
      done := 0;
      var guid: nat, already: nat, pages: nat := 0, PAGE_SIZE, 0;
      PagesStart(accept, cacheAddr, start, rows);
      while already >= PAGE_SIZE
        invariant KeysMatch(merged) && old(output) <= output && pages <= goodReads && already <= PAGE_SIZE
        invariant PagesRead(accept, start, Abs(), rows, guid, already, pages, done)
        decreases |RowsAfter(rows, guid)|, already
      {
        if pages == goodReads {
          PagesFailed(accept, start, Abs(), rows, guid, pages, done);
          return false, done;
        }
        ghost var now, before := Abs(), guid;
        guid, already := ProcessPage(cacheAddr, rows, guid, accept);
        PagesNext(accept, cacheAddr, start, now, rows, before, pages, done);
        done, pages := done + already, pages + 1;
      }
      PagesFinished(accept, start, Abs(), rows, guid, already, pages, done);
      return true, done;
    }

    method ProcessPages(cacheAddr: string, rows: map<nat, Record>, goodReads: nat)
      returns (ok: bool, ghost done: nat)
      requires KeysMatch(merged) && RowsNumbered(rows)
      modifies this
      ensures KeysMatch(merged)
      ensures ok <==> |RowsAfter(rows, 0)| / PAGE_SIZE < goodReads
      ensures done == if ok then |RowsAfter(rows, 0)| else goodReads * PAGE_SIZE
      ensures done <= |RowsAfter(rows, 0)|
      ensures Abs() == AcceptAll(old(Abs()), cacheAddr, RowsAfter(rows, 0)[..done])
      ensures old(output) <= output
    {
      AcceptorExists(cacheAddr);
      ghost var accept :| IsAcceptor(accept, cacheAddr);
      ok, done := ReadPages(cacheAddr, rows, goodReads, accept);
      assert AcceptsAt(accept, cacheAddr, old(Abs()), RowsAfter(rows, 0)[..done]);
    }

    method ProcessSqliteFile(cacheAddr: string, file: LogFile) returns (ok: bool)
      requires KeysMatch(merged) && RowsNumbered(file.rows)
      modifies this
      ensures KeysMatch(merged)
      ensures ok <==> FileReadable(file)
      ensures Abs() == AfterFile(old(Abs()), cacheAddr, file)
      ensures old(output) <= output
    {
      if !file.canOpen {
        return false;
      }
      ghost var done;
      ok, done := ProcessPages(cacheAddr, file.rows, file.goodReads);
      if ok {
        assert RowsAfter(file.rows, 0)[..done] == RowsAfter(file.rows, 0);
        CheckMergeRecord(true);
      }
    }
  }
}
