// The records of the cache server's change log and the database they are written to
// (cachesys/src/serialize/Serialize.h, convertsys/src/ManageSQLiteFile.cpp).
module Records {

  datatype Option<+T> = None | Some(value: T)

  type Guid = nat

  // A serialised entity, as it is logged, stored and sent.
  type Stream = string

  datatype RecordType =
    | Base | Insert | Load | Query | Update | Flush | Remove | InsertWithFlush

  datatype Record = Record(
    guid: nat,               // row number in the log file
    objectGuid: Guid,        // the entity the record is about
    stream: Stream,
    optype: RecordType,
    lastModifyTime: nat,
    transactionIndex: nat,
    transactionNum: nat,
    transactionId: nat,
    lineId: nat,
    lastIsFlush: bool,
    cacheAddr: string
  )

  // The message that tells a cache server which flush has reached the database.
  datatype Ack = Ack(guid: Guid, lastModifyTime: nat)

  type Database = map<Guid, Stream>

  // The row of one guid, if there is one.
  function Cell(db: Database, g: Guid): Option<Stream> {
    if g in db then Some(db[g]) else None
  }

  predicate IsInsert(r: Record) {
    r.optype == Insert || r.optype == InsertWithFlush
  }

  predicate IsFlush(r: Record) {
    r.optype == Flush || r.optype == InsertWithFlush
  }

  // The row of r's guid after r is written over row c. INSERT needs an absent row, UPDATE and
  // DELETE of an absent row succeed and change nothing, and any other type is refused.
  function WriteCell(c: Option<Stream>, r: Record): Option<Stream> {
    match r.optype
    case Insert | InsertWithFlush => if c == None then Some(r.stream) else c
    case Update | Flush => if c == None then None else Some(r.stream)
    case Remove => None
    case Base | Load | Query => c
  }

  predicate WriteSucceeds(c: Option<Stream>, r: Record) {
    match r.optype
    case Insert | InsertWithFlush => c == None
    case Update | Flush | Remove => true
    case Base | Load | Query => false
  }

  function SetCell(db: Database, g: Guid, c: Option<Stream>): Database {
    if c == None then db - {g} else db[g := c.value]
  }

  function WriteRecord(db: Database, r: Record): Database {
    SetCell(db, r.objectGuid, WriteCell(Cell(db, r.objectGuid), r))
  }

  // The effect of writing every record on its own, in order.
  function ApplyAll(db: Database, rs: seq<Record>): Database {
    if rs == [] then db else WriteRecord(ApplyAll(db, rs[..|rs| - 1]), rs[|rs| - 1])
  }

  lemma SameCells(a: Database, b: Database)
    requires forall g :: Cell(a, g) == Cell(b, g)
    ensures a == b
  {
    forall g ensures g in a <==> g in b {
      assert Cell(a, g) == Cell(b, g);
    }
    forall g | g in a ensures a[g] == b[g] {
      assert Cell(a, g) == Cell(b, g);
    }
  }

  lemma WriteRecordCell(db: Database, r: Record, g: Guid)
    ensures Cell(WriteRecord(db, r), g)
            == if g == r.objectGuid then WriteCell(Cell(db, g), r) else Cell(db, g)
  {
  }

  predicate Mentions(rs: seq<Record>, g: Guid) {
    exists i :: 0 <= i < |rs| && rs[i].objectGuid == g
  }

  lemma {:induction false} ApplyAllConcat(db: Database, a: seq<Record>, b: seq<Record>)
    ensures ApplyAll(db, a + b) == ApplyAll(ApplyAll(db, a), b)
  {
    if b == [] {
      assert a + b == a;
    } else {
      assert (a + b)[..|a + b| - 1] == a + b[..|b| - 1];
      ApplyAllConcat(db, a, b[..|b| - 1]);
    }
  }

  // Records about other guids leave a row alone.
  lemma {:induction false} ApplyAllUnmentioned(db: Database, rs: seq<Record>, g: Guid)
    requires !Mentions(rs, g)
    ensures Cell(ApplyAll(db, rs), g) == Cell(db, g)
  {
    if rs != [] {
      var front := rs[..|rs| - 1];
      assert rs[|rs| - 1].objectGuid != g;
      assert !Mentions(front, g) by {
        forall i | 0 <= i < |front| ensures front[i].objectGuid != g {
          assert front[i] == rs[i];
        }
      }
      ApplyAllUnmentioned(db, front, g);
    }
  }
}
