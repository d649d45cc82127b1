// The cache server's state and the effect of each request on it, as values
// (cachesys/src/EntityHander.cpp, cachesys/src/serialize/ManageExpiredItem.cpp).
module CacheState {
  import opened Records

  // An entity that was flushed out of the entity map and may not be in the database yet.
  datatype ExpiredItem = ExpiredItem(lastModifyTime: nat, inUse: bool, isDelete: bool, item: Option<Stream>)

  type ExpiredMap = map<Guid, ExpiredItem>

  function Expire(m: ExpiredMap, g: Guid, item: Option<Stream>, time: nat): ExpiredMap {
    m[g := ExpiredItem(time, false, false, item)]
  }

  function ExpireToDelete(m: ExpiredMap, g: Guid): ExpiredMap {
    if g in m then m[g := m[g].(inUse := false, isDelete := true, item := None)] else m
  }

  predicate Expired(m: ExpiredMap, g: Guid) {
    g in m && !m[g].isDelete
  }

  function Reuse(m: ExpiredMap, g: Guid): ExpiredMap {
    if Expired(m, g) then m[g := m[g].(inUse := true)] else m
  }

  // An acknowledgement drops an entry that is back in use, or whose flush is the acknowledged one.
  function Acknowledge(m: ExpiredMap, a: Ack): ExpiredMap {
    if a.guid in m && (m[a.guid].inUse || m[a.guid].lastModifyTime == a.lastModifyTime)
    then m - {a.guid} else m
  }

  datatype Opcode =
    | NewEntity | NewEntityWithFlush | LoadEntity | LoadEntityOnce
    | FlushEntity | UpdateEntity | RemoveEntity | OnlyRemoveEntity

  datatype Request = Request(
    opcode: Opcode, guid: Guid, stream: Stream, lastModifyTime: nat,
    transactionIndex: nat, transactionNum: nat, transactionId: nat, lineId: nat)
  {
    // Only a request that carries data carries an entity.
    function Entity(): Option<Stream> {
      if |stream| > 0 then Some(stream) else None
    }
  }

  // A load handed to the database loader; found is what it read, once it has read.
  datatype DbLoad = DbLoad(guid: Guid, once: bool, read: bool, found: Option<Stream>)

  // Crashed stands for a null pointer dereferenced, or a deleted object read.
  datatype Reply = NoReply | Done(guid: Guid) | Loaded(guid: Guid, value: Stream) | NotFound(guid: Guid) | Crashed

  datatype Cache = Cache(
    entities: map<Guid, Stream>,   // m_entity_map
    expired: ExpiredMap,           // ManageExpiredItem::m_lru_map
    log: seq<Record>,              // records written and not yet read by the converter
    rows: nat,                     // ManageSerialize::m_guid_index
    loads: seq<DbLoad>             // requests at the database loader
  )

  function RecordOf(c: Cache, q: Request, t: RecordType): Record {
    Record(c.rows + 1, q.guid, q.stream, t, q.lastModifyTime,
           q.transactionIndex, q.transactionNum, q.transactionId, q.lineId, false, "")
  }

  function Log(c: Cache, q: Request, t: RecordType): Cache {
    c.(log := c.log + [RecordOf(c, q, t)], rows := c.rows + 1)
  }

  predicate CanAdd(c: Cache, g: Guid, entity: Option<Stream>) {
    entity != None && g !in c.entities
  }

  function Add(c: Cache, g: Guid, entity: Option<Stream>): Cache {
    if CanAdd(c, g, entity) then c.(entities := c.entities[g := entity.value]) else c
  }

  function New(c: Cache, q: Request): (Cache, Reply) {
    var d := Add(c, q.guid, q.Entity());
    (if CanAdd(c, q.guid, q.Entity()) then Log(d, q, Insert) else d, Done(q.guid))
  }

  function NewWithFlush(c: Cache, q: Request): (Cache, Reply) {
    var d := c.(expired := Expire(c.expired, q.guid, q.Entity(), q.lastModifyTime));
    (Log(d, q, InsertWithFlush), Done(q.guid))
  }

  function LoadFromDb(c: Cache, g: Guid, once: bool): Cache {
    c.(loads := c.loads + [DbLoad(g, once, false, None)])
  }

  function LoadReply(g: Guid, entity: Option<Stream>): Reply {
    if entity == None then NoReply else Loaded(g, entity.value)
  }

  function HandleLoad(c: Cache, q: Request): (Cache, Reply) {
    var g := q.guid;
    if g in c.entities then (c, Loaded(g, c.entities[g]))
    else if Expired(c.expired, g) then
      var entity := c.expired[g].item;
      (Add(c.(expired := Reuse(c.expired, g)), g, entity), LoadReply(g, entity))
    else (LoadFromDb(c, g, false), NoReply)
  }

  function HandleLoadOnce(c: Cache, q: Request): (Cache, Reply) {
    var g := q.guid;
    if g in c.entities then (c, Loaded(g, c.entities[g]))
    else if Expired(c.expired, g) then
      var entity := c.expired[g].item;
      (c, if entity == None then Crashed else Loaded(g, entity.value))
    else (LoadFromDb(c, g, true), NoReply)
  }

  function HandleFlush(c: Cache, q: Request): (Cache, Reply) {
    var g := q.guid;
    if g !in c.entities then (c, NotFound(g))
    else
      var d := Log(c.(expired := Expire(c.expired, g, q.Entity(), q.lastModifyTime)), q, Flush);
      (d.(entities := d.entities - {g}), Done(g))
  }

  function HandleUpdate(c: Cache, q: Request): (Cache, Reply) {
    var g := q.guid;
    if q.Entity() == None then (c, NotFound(g))
    else
      var d := Log(c, q, Update);
      (if g in d.entities then d.(entities := d.entities[g := q.stream]) else d, Done(g))
  }

  function HandleRemove(c: Cache, q: Request): (Cache, Reply) {
    var g := q.guid;
    var d := Log(c.(expired := ExpireToDelete(c.expired, g)), q, Remove);
    (d.(entities := d.entities - {g}), Done(g))
  }

  function Handle(c: Cache, q: Request): (Cache, Reply) {
    match q.opcode
    case NewEntity => New(c, q)
    case NewEntityWithFlush => NewWithFlush(c, q)
    case LoadEntity => HandleLoad(c, q)
    case LoadEntityOnce => HandleLoadOnce(c, q)
    case FlushEntity => HandleFlush(c, q)
    case UpdateEntity => HandleUpdate(c, q)
    case RemoveEntity => HandleRemove(c, q)
    case OnlyRemoveEntity => (c.(entities := c.entities - {q.guid}), NoReply)
  }

  // The loader has looked the entity up.
  function DbRead(c: Cache, i: nat, db: Database): Cache
    requires i < |c.loads|
  {
    c.(loads := c.loads[i := c.loads[i].(read := true, found := Cell(db, c.loads[i].guid))])
  }

  // handleDbLoad: the loader's answer comes back.
  function HandleDbLoad(c: Cache, i: nat): (Cache, Reply)
    requires i < |c.loads|
  {
    var load := c.loads[i];
    var d := c.(loads := c.loads[..i] + c.loads[i + 1..]);
    if load.found == None then (d, NotFound(load.guid))
    else if load.once then (d, Loaded(load.guid, load.found.value))
    // An entity whose guid is loaded is deleted by addEntity, and read for the reply all the same.
    else if !CanAdd(d, load.guid, load.found) then (d, Crashed)
    else (Add(d, load.guid, load.found), Loaded(load.guid, load.found.value))
  }
}
