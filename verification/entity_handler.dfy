// The cache server's objects: the expired store, the record log, the database loader and the
// request handler that owns the entity map (cachesys/src/EntityHander.cpp,
// cachesys/src/serialize/ManageExpiredItem.cpp, cachesys/src/serialize/ManageSerialize.cpp).
module EntityHandler {
  import opened Records
  import opened CacheState

  class ManageExpiredItem {
    var lruMap: ExpiredMap

    constructor ()
      ensures lruMap == map[]
    {
      lruMap := map[];
    }

    method Update(guid: Guid, item: Option<Stream>, lastModifyTime: nat)
      modifies this
      ensures lruMap == Expire(old(lruMap), guid, item, lastModifyTime)
    {
      if guid in lruMap {
        lruMap := lruMap - {guid};
      }
      lruMap := lruMap[guid := ExpiredItem(lastModifyTime, false, false, item)];
    }

    method UpdateToDelete(guid: Guid)
      modifies this
      ensures lruMap == ExpireToDelete(old(lruMap), guid)
    {
      if guid in lruMap {
        var it := lruMap[guid];
        it := it.(inUse := false);
        it := it.(isDelete := true);
        it := it.(item := None);
        lruMap := lruMap[guid := it];
      }
    }

    method Query(guid: Guid, deleteAfterQuery: bool) returns (found: bool, item: Option<Stream>)
      modifies this
      ensures found <==> Expired(old(lruMap), guid)
      ensures found ==> item == old(lruMap)[guid].item
      ensures lruMap == if deleteAfterQuery then Reuse(old(lruMap), guid) else old(lruMap)
    {
      if guid in lruMap {
        if !lruMap[guid].isDelete {
          item := lruMap[guid].item;
          if deleteAfterQuery {
            lruMap := lruMap[guid := lruMap[guid].(inUse := true)];
          }
          return true, item;
        }
      }
      return false, None;
    }

    // The result tells whether the entry was known; a known entry may still be kept.
    method Remove(guid: Guid, lastModifyTime: nat) returns (known: bool)
      modifies this
      ensures lruMap == Acknowledge(old(lruMap), Ack(guid, lastModifyTime))
      ensures known <==> guid in old(lruMap)
    {
      if guid in lruMap {
        if lruMap[guid].inUse {
          lruMap := lruMap - {guid};
          return true;
        } else if lastModifyTime == lruMap[guid].lastModifyTime {
          lruMap := lruMap - {guid};
          return true;
        } else {
          return true;
        }
      }
      return false;
    }
  }

  class ManageSerialize {
    var recordSet: seq<Record>
    var guidIndex: nat

    constructor (rows: nat)
      ensures recordSet == [] && guidIndex == rows
    {
      recordSet, guidIndex := [], rows;
    }

    method WriteRecord(q: Request, recordType: RecordType)
      modifies this
      ensures guidIndex == old(guidIndex) + 1
      ensures recordSet == old(recordSet)
                           + [Record(guidIndex, q.guid, q.stream, recordType, q.lastModifyTime, q.transactionIndex,
                                     q.transactionNum, q.transactionId, q.lineId, false, "")]
    {
      guidIndex := guidIndex + 1;
      var record := Record(guidIndex, q.guid, q.stream, recordType, q.lastModifyTime, q.transactionIndex,
                           q.transactionNum, q.transactionId, q.lineId, false, "");
      recordSet := recordSet + [record];
    }
  }

  class DbLoader {
    var requests: seq<DbLoad>

    constructor ()
      ensures requests == []
    {
      requests := [];
    }

    method Process(guid: Guid, once: bool)
      modifies this
      ensures requests == old(requests) + [DbLoad(guid, once, false, None)]
    {
      requests := requests + [DbLoad(guid, once, false, None)];
    }

    method HandleRequest(i: nat, db: Database)
      requires i < |requests|
      modifies this
      ensures requests == old(requests)[i := old(requests)[i].(read := true, found := Cell(db, old(requests)[i].guid))]
    {
      var load := requests[i];
      load := load.(read := true, found := if load.guid in db then Some(db[load.guid]) else None);
      requests := requests[i := load];
    }

    method Take(i: nat) returns (load: DbLoad)
      requires i < |requests|
      modifies this
      ensures load == old(requests)[i]
      ensures requests == old(requests)[..i] + old(requests)[i + 1..]
    {
      load := requests[i];
      requests := requests[..i] + requests[i + 1..];
    }
  }

  class EntityHander {
    var entityMap: map<Guid, Stream>
    var replies: seq<Reply>
    const expiredItem: ManageExpiredItem
    const serialize: ManageSerialize
    const dbLoader: DbLoader

    ghost function Abs(): Cache
      reads this, expiredItem, serialize, dbLoader
    {
      Cache(entityMap, expiredItem.lruMap, serialize.recordSet, serialize.guidIndex, dbLoader.requests)
    }

    // The replies after one more of them, where no reply leaves them alone.
    static function Replied(replies: seq<Reply>, reply: Reply): seq<Reply> {
      if reply == NoReply then replies else replies + [reply]
    }

    constructor (rows: nat)
      ensures Abs() == Cache(map[], map[], [], rows, []) && replies == []
      ensures fresh(expiredItem) && fresh(serialize) && fresh(dbLoader)
    {
      entityMap, replies := map[], [];
      expiredItem := new ManageExpiredItem();
      serialize := new ManageSerialize(rows);
      dbLoader := new DbLoader();
    }

    method AddEntity(entity: Option<Stream>, guid: Guid) returns (ok: bool)
      modifies `entityMap
      ensures ok <==> CanAdd(old(Abs()), guid, entity)
      ensures Abs() == Add(old(Abs()), guid, entity)
    {
      if entity == None {
        return false;
      }
      if guid in entityMap {
        return false;
      }
      entityMap := entityMap[guid := entity.value];
      return true;
    }

    method HandleNewEntity(q: Request)
      modifies this, serialize
      ensures Abs() == New(old(Abs()), q).0
      ensures replies == Replied(old(replies), New(old(Abs()), q).1)
    {
      var added := AddEntity(q.Entity(), q.guid);
      if added {
        serialize.WriteRecord(q, Insert);
      }
      replies := replies + [Done(q.guid)];
    }

    method HandleNewEntityWithFlush(q: Request)
      modifies this, expiredItem, serialize
      ensures Abs() == NewWithFlush(old(Abs()), q).0
      ensures replies == Replied(old(replies), NewWithFlush(old(Abs()), q).1)
    {
      expiredItem.Update(q.guid, q.Entity(), q.lastModifyTime);
      serialize.WriteRecord(q, InsertWithFlush);
      replies := replies + [Done(q.guid)];
    }

    method HandleLoadEntity(q: Request)
      modifies this, expiredItem, dbLoader
      ensures Abs() == HandleLoad(old(Abs()), q).0
      ensures replies == Replied(old(replies), HandleLoad(old(Abs()), q).1)
    {
      if q.guid in entityMap {
        replies := replies + [Loaded(q.guid, entityMap[q.guid])];
      } else {
        var found, entity := expiredItem.Query(q.guid, true);
        if found {
          var added := AddEntity(entity, q.guid);
          if entity != None {
            replies := replies + [Loaded(q.guid, entity.value)];
          }
        } else {
          dbLoader.Process(q.guid, false);
        }
      }
    }

    method HandleLoadEntityOnce(q: Request)
      modifies this, expiredItem, dbLoader
      ensures Abs() == HandleLoadOnce(old(Abs()), q).0
      ensures replies == Replied(old(replies), HandleLoadOnce(old(Abs()), q).1)
    {
      if q.guid in entityMap {
        replies := replies + [Loaded(q.guid, entityMap[q.guid])];
      } else {
        var found, entity := expiredItem.Query(q.guid, false);
        if found {
          // The copy of a missing entity dereferences a null pointer.
          replies := replies + [if entity == None then Crashed else Loaded(q.guid, entity.value)];
        } else {
          dbLoader.Process(q.guid, true);
        }
      }
    }

    method HandleFlushEntity(q: Request)
      modifies this, expiredItem, serialize
      ensures Abs() == HandleFlush(old(Abs()), q).0
      ensures replies == Replied(old(replies), HandleFlush(old(Abs()), q).1)
    {
      if q.guid !in entityMap {
        replies := replies + [NotFound(q.guid)];
        return;
      }
      expiredItem.Update(q.guid, q.Entity(), q.lastModifyTime);
      serialize.WriteRecord(q, Flush);
      replies := replies + [Done(q.guid)];
      entityMap := entityMap - {q.guid};
    }

    method HandleUpdateEntity(q: Request)
      modifies this, serialize
      ensures Abs() == HandleUpdate(old(Abs()), q).0
      ensures replies == Replied(old(replies), HandleUpdate(old(Abs()), q).1)
    {
      var entity := q.Entity();
      if entity == None {
        replies := replies + [NotFound(q.guid)];
        return;
      }
      serialize.WriteRecord(q, Update);
      if q.guid in entityMap {
        entityMap := entityMap[q.guid := entity.value];
      }
      replies := replies + [Done(q.guid)];
    }

    method HandleRemoveEntity(q: Request)
      modifies this, expiredItem, serialize
      ensures Abs() == HandleRemove(old(Abs()), q).0
      ensures replies == Replied(old(replies), HandleRemove(old(Abs()), q).1)
    {
      expiredItem.UpdateToDelete(q.guid);
      serialize.WriteRecord(q, Remove);
      entityMap := entityMap - {q.guid};
      replies := replies + [Done(q.guid)];
    }

    method HandlePacket(q: Request)
      modifies this, expiredItem, serialize, dbLoader
      ensures Abs() == Handle(old(Abs()), q).0
      ensures var reply := Handle(old(Abs()), q).1;
              replies == if reply == NoReply then old(replies) else old(replies) + [reply]
    {
      match q.opcode {
        case NewEntity => HandleNewEntity(q);
        case LoadEntity => HandleLoadEntity(q);
        case FlushEntity => HandleFlushEntity(q);
        case UpdateEntity => HandleUpdateEntity(q);
        case RemoveEntity => HandleRemoveEntity(q);
        case LoadEntityOnce => HandleLoadEntityOnce(q);
        case NewEntityWithFlush => HandleNewEntityWithFlush(q);
        case OnlyRemoveEntity => entityMap := entityMap - {q.guid};
      }
    }

    // The answer of the database loader to its i-th request.
    method HandleDbLoadReply(i: nat)
      requires i < |dbLoader.requests|
      modifies this, dbLoader
      ensures Abs() == HandleDbLoad(old(Abs()), i).0
      ensures var reply := HandleDbLoad(old(Abs()), i).1;
              replies == if reply == NoReply then old(replies) else old(replies) + [reply]
    {
      var load := dbLoader.Take(i);
      if load.found != None {
        var kept := true;
        if !load.once {
          kept := AddEntity(load.found, load.guid);
        }
        replies := replies + [if kept then Loaded(load.guid, load.found.value) else Crashed];
      } else {
        replies := replies + [NotFound(load.guid)];
      }
    }

    // ManageConvertSession::handleBinaryRecord: an acknowledgement from the converter.
    method HandleBinaryRecord(a: Ack)
      modifies expiredItem
      ensures Abs() == old(Abs()).(expired := Acknowledge(old(Abs()).expired, a))
    {
      var known := expiredItem.Remove(a.guid, a.lastModifyTime);
    }
  }
}
