# Verification of the game-server back end

A Dafny model of the parts of the server in which state outlives a single call, with proofs of what they
promise. Each module names the source files it models.

| file | what it models |
|---|---|
| `records.dfy`, `merge.dfy`, `merge_exact.dfy`, `transactions.dfy`, `paging.dfy`, `converter.dfy` | the converter: it reads a change log page by page, groups transactions, merges the records of a guid, writes the database and acknowledges flushes |
| `cache_state.dfy`, `entity_handler.dfy`, `coherence.dfy`, `flush_times.dfy`, `pipeline.dfy`, `answers.dfy` | the cache server in front of it; the two together with the database and late acknowledgements as one state machine; which flush times it can bear; the cache server and the converter as they are, transactions included; and that every load is answered and everything logged arrives |
| `bytes.dfy`, `word_numbers.dfy`, `md5_compress.dfy`, `md5.dfy` | streaming MD5 against RFC 1321 |
| `handle_data.dfy` | the proactor connection that counts its outstanding operations and deletes itself |
| `session_pool.dfy` | the lifetime of a netcore session between the input side and the output workers |
| `framing.dfy`, `message_block.dfy`, `packet_session.dfy` | packets over fragmented streams with bounded buffers |
| `guid.dfy` | ranges of guids, handed out by a server and used by clients |
| `replies.dfy` | replies of the cache matched to requests, and request lists |
| `schema.dfy` | bringing the tables of a database in line with the message definitions |

`dafny verify dfyconfig.toml` verifies everything.

## How the model is built

An object that the source changes in place is a class with the same fields. Each of its methods is proved
to take the object's value to what a function says; the theorems are about these functions and about all
runs of the state machines made of them. What lies outside the code is an input or a step: whether an
allocation, an asynchronous operation, a save or a statement succeeds, how many bytes a peer takes, in which
order threads take their locks, when the converter writes out, when a message arrives, is lost or repeated.

The database is a map from guid to value with the behaviour of SQL: an INSERT of a present key fails and
changes nothing, an UPDATE or DELETE of an absent one succeeds and changes nothing.

Integers are unbounded except where the source's width matters, and there the wrap-around is written out:
the count words of MD5, the 16-bit stream size of a packet, the 32-bit rest of a guid range, the 64-bit
index and the 32-bit seed.

## Where the code falls short of what one expects

Each of these is a theorem that says exactly when.

- A removal swallows a later insert of the same guid, and an insert whose row is taken swallows what follows
  (`MergeRecords.AbsorbExact`, `RemoveSwallowsReuse`, `FailedInsertSwallowsWrites`).
- So merging keeps the meaning of a log for all batch boundaries exactly under a condition on each record
  (`MergeExact.MeaningKeptExact`).
- The insert and the update of `CacheAssistantx` build their statement, report success and do not execute it:
  nothing is ever stored, and rows only go (`MergeExact.OnlyRemovals`, `ExecutionExact`).
- An insert-with-flush that nothing follows is never acknowledged (`MergeRecords.AckExact`, `AcksOfRun`), and
  neither is a flush after a removal (`FlushAfterRemoveIsLost`).
- A flush with the time of an older acknowledgement of its guid can be lost, and no other can
  (`FlushTiming.FlushTimeExact`, `EqualTimesLoseAnUpdate`). The server stamps the times itself, in microseconds
  (`cachesys/src/DataRequestInfo.h:28, 41`), so this takes two flushes in one microsecond or a clock set back.
- A log row numbered 0 is never read (`Paging.VisitsEveryRow`).
- Records without transaction numbers are released in pairs, and an odd one waits
  (`Transactions.UnnumberedRecordsPairUp`); and a transaction with one logged record of several operations, or
  whose last operation is a load, is released with records of another one or never
  (`ReleaseRule`, `TransactionsReleasedExact`).
- An update that waits for its transaction is written over a later one of its guid that does not
  (`Pipeline.OvertakenUpdateIsLost`).
- A load that is answered by the database when its guid is loaded already reads a deleted entity
  (`EntityHandler.EntityHander.HandleDbLoadReply`).
- A load of an entity that was created with flush and without data gets no answer
  (`Answers.UnansweredExact`, `EmptyCreationIsUnanswered`).
- A session whose add and remove meet in one pass, or that a write error took out first, is never reclaimed
  (`SessionPool.CloseDecides`, `KeptForever`, reached by `MeetingIsKept` and `WriteErrorIsKept`).
- A body of more than 65523 bytes wraps the stream size (`PacketSessions.WireExact`, `PutWholeExact`).
- After the first rollover a range can meet the one granted at the rollover (`GuidAllocation.SecondEraExact`,
  `RolloverIsMet`), and a client that asks for empty ranges takes guids that were not allocated
  (`EmptyRangesAreTaken`).
- A request is recorded under one lock and sent under another. Some reply of a guid gets what belongs to
  another request exactly when the replies of the guid do not come in the order of recording: when a thread
  comes between the locks, or a reply overtakes another (`Replies.AllOwnExact`, `SendingOrderDecides`,
  `SwappedSendsMisdirect`, `OvertakingMisdirects`).
- A reply to a request with id 0 can take another request's entry, and from then on the replies for the guid
  are shifted (`Replies.ZeroIdExact`, `OwnEntryExact`, `MissingExact`); and a request list counts replies
  without asking which request they answer (`Replies.CompleteExact`, `SecondOfAGuidFails`).
- Messages with one short name: of a new table only the last is sure to be served, and a field that two add
  to a known table stops the migration (`SchemaMigration.DuplicateNamesExact`).

## Model

| member | source | states |
|---|---|---|
| `MergeRecords.AbsorbExact` | src/aceinternal/convertsys/src/ManageSQLiteFile.cpp:444-521 | one merge step over any row keeps the meaning of two records written in turn if and only if: with an insert whose row is taken, the second is an insert or writes what the row holds; otherwise it is no insert or inserts the live value |
| `MergeRecords.RemoveSwallowsReuse` | src/aceinternal/convertsys/src/ManageSQLiteFile.cpp:500-502 | the first failing family: a merged removal followed by an insert of the same guid loses the entity |
| `MergeRecords.FailedInsertSwallowsWrites` | src/aceinternal/convertsys/src/ManageSQLiteFile.cpp:453-467 | the second: an insert whose row is taken takes later writes and removals of its guid down with it, unacknowledged |
| `MergeRecords.MergeSimulates` | src/aceinternal/convertsys/src/ManageSQLiteFile.cpp:438-535 | merging one more legal record: merge map and database together still stand for the whole log |
| `MergeRecords.WriteOutSimulates` | src/aceinternal/convertsys/src/ManageSQLiteFile.cpp:537-588 | writing the map out at any moment keeps that |
| `MergeRecords.WriteOrderIrrelevant` | src/aceinternal/convertsys/src/ManageSQLiteFile.cpp:554-585 | the hash map may be walked in any order, the database it leaves is the same |
| `MergeRecords.AcksInOrderExact` | src/aceinternal/convertsys/src/ManageSQLiteFile.cpp:563-580 | exactly the entries with a flush whose write succeeded are acknowledged, once each, with their own time |
| `MergeRecords.MergingPreservesMeaning` | src/aceinternal/convertsys/src/ManageSQLiteFile.cpp:438-588 | for every legal log, any batch boundaries and any map order: the database is that of applying every record in sequence, given a database that executes what it is sent (see Left out) |
| `MergeExact.MeaningKeptExact` | src/aceinternal/convertsys/src/ManageSQLiteFile.cpp:438-588 | for any log of the types that the server writes: merging keeps the meaning of every prefix for all batch boundaries if and only if each record may follow those before it: an insert is the first of its guid, inserts what the row holds, or comes after failed inserts only; any other record after an insert that failed writes what the row holds |
| `MergeExact.OnlyRemovals` | src/aceinternal/dynamicparse/src/dynamicparseimp.cpp:716-1026 | with the insert and update that build their statement and do not execute it, a row stays as it was until its guid is removed |
| `MergeExact.ExecutionExact` | src/aceinternal/dynamicparse/src/dynamicparseimp.cpp:716-1026 | so the database is what executing every statement would give, at every prefix, if and only if no insert or update would have changed a row |
| `MergeRecords.AckExact` | src/aceinternal/convertsys/src/ManageSQLiteFile.cpp:444-534 | exactly when a merged entry asks for an acknowledgement, and with which time, in terms of the records it absorbed |
| `MergeRecords.AckCarriesLastFlush` | src/aceinternal/convertsys/src/ManageSQLiteFile.cpp:444-534 | when no flush follows a removal: the time is that of the last flush-type record, and no absorbed flush is left unmarked |
| `MergeRecords.FlushAfterRemoveIsLost` | src/aceinternal/convertsys/src/ManageSQLiteFile.cpp:500-502 | a flush merged into a removal is never acknowledged |
| `MergeRecords.EntriesTrackHistory` | src/aceinternal/convertsys/src/ManageSQLiteFile.cpp:438-588 | in every run an entry of the map is the fold of the records of its guid since the last write-out or drop |
| `MergeRecords.AcksOfRun` | src/aceinternal/convertsys/src/ManageSQLiteFile.cpp:438-588 | which acknowledgements a write-out sends, read off the log alone; a lone insert-with-flush gives none |
| `Transactions.Conservation` | src/aceinternal/convertsys/src/ManageSQLiteFile.cpp:385-424 | for any traffic at all, every record is released once or still waiting |
| `Transactions.CompletedAreWhole` | src/aceinternal/convertsys/src/ManageSQLiteFile.cpp:385-424 | for such traffic, what is released is a list of whole transactions, each numbered 1 to n |
| `Transactions.ReleasedByTransaction` | src/aceinternal/convertsys/src/ManageSQLiteFile.cpp:385-424 | for interleaved transactions numbered 1 to n without gaps: released is exactly the completed ones, waiting exactly the open ones; `ReleaseRule` is for any other |
| `Transactions.ArrivalOrderKept` | src/aceinternal/convertsys/src/ManageSQLiteFile.cpp:385-424 | per transaction, released and waiting records are the input in arrival order |
| `Transactions.UnnumberedRecordsPairUp` | src/aceinternal/convertsys/src/ManageSQLiteFile.cpp:387-420 | for any traffic in which the records of a key are numbered 0 of 0: they are released in pairs, in arrival order, and the last one waits if and only if their number is odd |
| `Transactions.ReleaseRule` | src/aceinternal/convertsys/src/ManageSQLiteFile.cpp:385-424 | for any traffic at all: the records of one-record transactions of a key are released as they come, the others in arrival order in the groups of one split, and the open part waits |
| `Transactions.SplitUnique` | src/aceinternal/convertsys/src/ManageSQLiteFile.cpp:385-424 | that split is the only one in which each group ends with the first record after its first one whose index is its number |
| `Transactions.TransactionsReleasedExact` | src/aceinternal/scene/src/PoolImp.cpp:398-411 | transactions whose numbers have gaps, since loads are numbered and not logged: the groups are the transactions if and only if each has two logged records at least and its last operation is one of them |
| `Paging.PageAdvances` | src/aceinternal/convertsys/src/ManageSQLiteFile.cpp:222-250 | the next page starts exactly after the last row of this one |
| `Paging.NextPage` | src/aceinternal/cachesys/src/serialize/SQLiteSerialize.cpp:67-142 | one page query: its length, its rows and what is left |
| `Paging.VisitsEveryRow` | src/aceinternal/convertsys/src/ManageSQLiteFile.cpp:215-252 | paging from 0 visits every row if and only if none is numbered 0, ascending and without repetition |
| `Converter.AcceptAllReleases` | src/aceinternal/convertsys/src/ManageSQLiteFile.cpp:275-292 | accepting records is processing those their transactions release |
| `Converter.MapStaysSmall` | src/aceinternal/convertsys/src/ManageSQLiteFile.cpp:539-546 | the merge map never holds 100000 guids after a record |
| `Converter.FewRecordsWriteNothing` | src/aceinternal/convertsys/src/ManageSQLiteFile.cpp:539-546 | as long as it cannot hold as many, nothing is written and nothing acknowledged |
| `Converter.FileMeaning` | src/aceinternal/convertsys/src/ManageSQLiteFile.cpp:207-273 | after a file the merge map is empty, the database is the sequential effect of the released records, unfinished transactions are carried over, given a database that executes what it is sent |
| `Converter.ManageSqliteFile.WriteRecordToDb` | src/aceinternal/convertsys/src/ManageSQLiteFile.cpp:294-352 | nothing is written when no entity can be made or the stream does not parse; otherwise the one row changes as SQL does, and success is that of the statement; the insert and the update that the source builds and does not execute are taken as executed |
| `Converter.ManageSqliteFile.MergeRecord` | src/aceinternal/convertsys/src/ManageSQLiteFile.cpp:438-535 | the merge map after one more record, as the specification says for each pair of types |
| `Converter.ManageSqliteFile.WriteMerged` | src/aceinternal/convertsys/src/ManageSQLiteFile.cpp:554-585 | every entry is written once, in an order of the map's choosing, and acknowledged after its write |
| `Converter.ManageSqliteFile.CheckMergeRecord` | src/aceinternal/convertsys/src/ManageSQLiteFile.cpp:537-588 | writes out when the file is finished or the map is large, otherwise changes nothing; one acknowledgement per flushed entry written |
| `Converter.ManageSqliteFile.ProcessRecord` | src/aceinternal/convertsys/src/ManageSQLiteFile.cpp:426-436 | merge, then the size check |
| `Converter.ManageSqliteFile.CollectTransaction` | src/aceinternal/convertsys/src/ManageSQLiteFile.cpp:385-424 | a record waits or releases its group, each of which is processed |
| `Converter.ManageSqliteFile.ProcessRecordSet` | src/aceinternal/convertsys/src/ManageSQLiteFile.cpp:275-292 | every row of the page is accepted in order |
| `Converter.ManageSqliteFile.ProcessPages` | src/aceinternal/convertsys/src/ManageSQLiteFile.cpp:215-258 | the paging loop terminates, reads every row, also when the number of rows is a multiple of the page size; a failing read stops it |
| `Converter.ManageSqliteFile.ProcessSqliteFile` | src/aceinternal/convertsys/src/ManageSQLiteFile.cpp:207-273 | the state after a file, for files that open or not and reads that fail |
| `EntityHandler.ManageExpiredItem.Update` | src/aceinternal/cachesys/src/serialize/ManageExpiredItem.cpp:18-28 | the entry of the guid is replaced, unused and live |
| `EntityHandler.ManageExpiredItem.UpdateToDelete` | src/aceinternal/cachesys/src/serialize/ManageExpiredItem.cpp:30-40 | a known entry becomes a tombstone |
| `EntityHandler.ManageExpiredItem.Query` | src/aceinternal/cachesys/src/serialize/ManageExpiredItem.cpp:42-61 | finds an entry that is no tombstone, and marks it used when asked to |
| `EntityHandler.ManageExpiredItem.Remove` | src/aceinternal/cachesys/src/serialize/ManageExpiredItem.cpp:81-111 | drops an entry that is in use again or whose time is the acknowledged one, and no other |
| `EntityHandler.ManageSerialize.WriteRecord` | src/aceinternal/cachesys/src/serialize/ManageSerialize.cpp:90-112 | one record with the next row number is appended to the log |
| `EntityHandler.EntityHander.AddEntity` | src/aceinternal/cachesys/src/EntityHander.cpp:482-502 | an entity is added unless it is missing or its guid is loaded |
| `EntityHandler.EntityHander.HandleNewEntity` | src/aceinternal/cachesys/src/EntityHander.cpp:200-213 | state and reply after a creation; logged only when it was added |
| `EntityHandler.EntityHander.HandleNewEntityWithFlush` | src/aceinternal/cachesys/src/EntityHander.cpp:215-226 | the entity goes to the expired store and the log |
| `EntityHandler.EntityHander.HandleLoadEntity` | src/aceinternal/cachesys/src/EntityHander.cpp:228-259 | answered from the entity map, else from the expired store, else handed to the database loader; which of these happens, and that the answer comes, is `Answers.LoadIsAnswered` |
| `EntityHandler.EntityHander.HandleDbLoadReply` | src/aceinternal/cachesys/src/EntityHander.cpp:261-286 | the loader's answer is kept, unless for one load only, and passed on; for a guid that is loaded already the entity is deleted before it is read for the reply |
| `EntityHandler.EntityHander.HandleFlushEntity` | src/aceinternal/cachesys/src/EntityHander.cpp:288-305 | a loaded entity moves to the expired store and the log |
| `EntityHandler.EntityHander.HandleUpdateEntity` | src/aceinternal/cachesys/src/EntityHander.cpp:307-321 | an update is logged whether or not the guid is loaded |
| `EntityHandler.EntityHander.HandleRemoveEntity` | src/aceinternal/cachesys/src/EntityHander.cpp:323-332 | tombstone, log and removal from the map |
| `EntityHandler.EntityHander.HandleLoadEntityOnce` | src/aceinternal/cachesys/src/EntityHander.cpp:334-366 | a load that keeps nothing; an expired entry without an entity crashes, by the null pointer of lines 72-73 of ManageExpiredItem.cpp |
| `EntityHandler.EntityHander.HandlePacket` | src/aceinternal/cachesys/src/EntityHander.cpp:122-198 | each operation code reaches its handler, and the reply, when there is one, goes out last |
| `EntityHandler.EntityHander.HandleBinaryRecord` | src/aceinternal/cachesys/src/ManageConvertSession.cpp:177-188 | an acknowledgement reaches the expired store and nothing else |
| `Answers.RepliesExact` | src/aceinternal/cachesys/src/EntityHander.cpp:200-366 | exactly which requests are told that they are done, and which that there is no such entity: creations and removals always the first, flushes and updates by whether there is an entity to flush or to write |
| `Answers.LoggedExact` | src/aceinternal/cachesys/src/EntityHander.cpp:200-332 | exactly which requests leave a record in the log, in any state: one, with the next row number and the data, times and transaction of the request |
| `Answers.RemovedIsGone` | src/aceinternal/cachesys/src/EntityHander.cpp:323-332 | after a removal the entity is in neither store, a load of it asks the database, and once the log is written there is no row, whatever there was before |
| `Answers.FlushMoves` | src/aceinternal/cachesys/src/EntityHander.cpp:288-305 | a flush of a loaded entity moves it to the expired store under its own time and logs it last |
| `Coherence.WriteKeepsInv` | src/aceinternal/cachesys/src/EntityHander.cpp:200-321 | a disciplined write by a client keeps the invariant of cache, log, converter and database |
| `Coherence.ReadKeepsInv` | src/aceinternal/cachesys/src/EntityHander.cpp:228-366 | so does everything else a client does, and what it is answered is the value written last |
| `Coherence.ConvertKeepsInv` | src/aceinternal/convertsys/src/ManageSQLiteFile.cpp:438-535 | so does the converter merging any record of the log that is the first of its guid there |
| `Coherence.WriteBatchKeepsInv` | src/aceinternal/convertsys/src/ManageSQLiteFile.cpp:537-588 | so does a write-out at any moment |
| `Coherence.DeliverKeepsInv` | src/aceinternal/cachesys/src/ManageConvertSession.cpp:177-188 | so does an acknowledgement, however late, out of order or repeated |
| `Coherence.AnswerKeepsInv` | src/aceinternal/cachesys/src/EntityHander.cpp:261-286 | so does the answer of the database loader, which is the value written last, or that there is none |
| `Coherence.StepCoherent` | src/aceinternal/cachesys/src/EntityHander.cpp:200-366 | one step of any kind: the invariant is kept, the answer is truthful, and nothing crashes |
| `Coherence.EveryLoadIsCoherent` | src/aceinternal/cachesys/src/EntityHander.cpp:200-366 | in every disciplined run every answered load returns the value written last, wherever it lives, and nothing is lost on its way to the database, given a database that executes what it is sent; records may be merged out of the order of the log as long as each guid keeps its own; the only demand on times is that a flush is not stamped with that of an acknowledgement of its guid that was sent or can still be |
| `Answers.UnansweredExact` | src/aceinternal/cachesys/src/EntityHander.cpp:228-366 | in any state a load is answered with a stored value or handed to the loader, if and only if the expired store has no entry without an entity for it; there a plain load gets no answer, and a load for once crashes |
| `Answers.EmptyCreationIsUnanswered` | src/aceinternal/cachesys/src/EntityHander.cpp:215-259 | a creation with flush that carries no data leads there from any state |
| `Answers.LoadIsAnswered` | src/aceinternal/cachesys/src/EntityHander.cpp:228-366 | a load of an entity in one of the stores is answered at once with the value written last, and a plain one loads it; any other is handed to the loader, once, and changes nothing else |
| `Answers.ReadLoadIsAnswered` | src/aceinternal/cachesys/src/EntityHander.cpp:261-286 | when the loader has looked, every load is answered: with the value written last, or that there is none; a plain one loads the entity |
| `Answers.EveryLoadIsAnswered` | src/aceinternal/cachesys/src/EntityHander.cpp:228-366 | in every disciplined run, for each guid, the loads requested are the loads answered and those at the loader: none is dropped and none is answered twice |
| `Answers.AllLoadsAnswered` | src/aceinternal/cachesys/src/EntityHander.cpp:228-366 | after any such run the loader can come back so that every load of the run has been answered once |
| `Answers.EveryLoadIsAnsweredWithTransactions` | src/aceinternal/cachesys/src/EntityHander.cpp:228-366 | the same account of the loads for every run of server and converter together |
| `Answers.DeliverExact` | src/aceinternal/cachesys/src/serialize/ManageExpiredItem.cpp:81-111 | an acknowledgement drops the entry of its guid exactly if it is in use again or has its time, and changes nothing else |
| `Answers.AcknowledgedIsDropped` | src/aceinternal/cachesys/src/serialize/ManageExpiredItem.cpp:81-111 | an entity whose own flush is acknowledged leaves the expired store, and the database has its last value by then |
| `Answers.FlushLeavesTheStore` | src/aceinternal/convertsys/src/ManageSQLiteFile.cpp:554-580 | every flush is acknowledged after some steps of the converter, and its acknowledgement takes the entity out of the expired store with the flushed value in the database |
| `Answers.DatabaseCatchesUp` | src/aceinternal/convertsys/src/ManageSQLiteFile.cpp:537-588 | after any disciplined run, converting the log and writing out leaves exactly the values written last in the database, given a database that executes what it is sent |
| `Answers.ReadingEmptiesLog` | src/aceinternal/convertsys/src/ManageSQLiteFile.cpp:275-292 | reading empties the log, whatever waits for its transaction |
| `Answers.NothingWaitsMeansWritten` | src/aceinternal/convertsys/src/ManageSQLiteFile.cpp:537-588 | and when nothing waits, a write-out brings the database up to date, given a database that executes what it is sent |
| `FlushTiming.TimesSuffice` | src/aceinternal/cachesys/src/ManageConvertSession.cpp:177-188 | that demand is met when the server's microsecond clock stamps no flush with the time of an earlier flush or flushed creation of its guid |
| `FlushTiming.FreshFlushTimesAreCoherent` | src/aceinternal/cachesys/src/serialize/ManageExpiredItem.cpp:81-111 | so with a clock that does not repeat a flush time of a guid every load is answered truthfully, whatever the other times |
| `FlushTiming.OldAckLosesAFlush` | src/aceinternal/cachesys/src/serialize/ManageExpiredItem.cpp:81-111 | the converse, for every guid, time and value: with an acknowledgement of that time sent and another value in the database, a load is not answered with the flushed value |
| `FlushTiming.PendingFlushIsObtainable` | src/aceinternal/convertsys/src/ManageSQLiteFile.cpp:484-499 | a flush on its way to the database can still be acknowledged |
| `FlushTiming.ObtainableIsSent` | src/aceinternal/convertsys/src/ManageSQLiteFile.cpp:554-580 | what can still be acknowledged, from the log or the merge map, is by some steps of the converter |
| `FlushTiming.FlushTimeExact` | src/aceinternal/cachesys/src/serialize/ManageExpiredItem.cpp:81-111 | the time that a flush is stamped with is unsafe for some value if and only if an acknowledgement with it was sent or can still be |
| `FlushTiming.EqualTimesLoseAnUpdate` | src/aceinternal/cachesys/src/serialize/ManageExpiredItem.cpp:81-111 | after any allowed flush of a loaded entity and a load, a second flush stamped with the same microsecond can lose its value, for every guid, time and first value |
| `Pipeline.ConverterKeepsCoherence` | src/aceinternal/convertsys/src/ManageSQLiteFile.cpp:385-436 | one step of server and converter together, with whatever waits for its transaction: the invariant is kept and an answer is truthful, provided no record is released before one of its guid that goes on waiting |
| `Pipeline.OtherSeen` | src/aceinternal/cachesys/src/EntityHander.cpp:122-366 | requests, loads, write-outs and acknowledgements do not see what waits in the converter: they do to the joint state what they do when it is still in the log |
| `Pipeline.ReadBySteps` | src/aceinternal/convertsys/src/ManageSQLiteFile.cpp:385-436 | reading one record, which then waits or releases its transaction, is a run of converter steps of the coherence model |
| `Pipeline.EveryLoadIsCoherentWithTransactions` | src/aceinternal/convertsys/src/ManageSQLiteFile.cpp:385-588 | in every run of the two together, over any number of reads with transactions waiting between them: every answered load returns the value written last, and what waits, is merged or is unread brings the database to it, given a database that executes what it is sent |
| `Pipeline.SeparateKeepsOrder` | src/aceinternal/convertsys/src/ManageSQLiteFile.cpp:385-424 | it is enough that no guid waits in two transactions at a time |
| `Pipeline.OvertakenUpdateIsLost` | src/aceinternal/convertsys/src/ManageSQLiteFile.cpp:385-436 | otherwise, for any database and updates: the first of a transaction of two, which waits, is written over a later one of its guid, which does not |
| `Md5Compress.LinesAreSteps` | src/aceinternal/DebugClient/md5.cpp:64-302 | the 64 SET lines, literal by literal, are the 64 steps of the loop of section 3.4 of RFC 1321 |
| `WordNumbers.NumberOfSum` | src/aceinternal/DebugClient/md5.cpp:305-308 | adding words is adding modulo 2^32 the numbers that their binary digits stand for, section 2 of RFC 1321 |
| `Md5Compress.BitsOfF` | src/aceinternal/DebugClient/md5.cpp:204 | on any set of bit positions: y where x is set, z elsewhere |
| `Md5Compress.BitsOfG` | src/aceinternal/DebugClient/md5.cpp:230 | x where z is set, y elsewhere |
| `Md5Compress.BitsOfH` | src/aceinternal/DebugClient/md5.cpp:256 | the exclusive or of y and z, flipped where x is set |
| `Md5Compress.BitsOfI` | src/aceinternal/DebugClient/md5.cpp:282 | the complement of y where x is set, of the exclusive or of y and z elsewhere |
| `Md5Compress.BitOfRotated` | src/aceinternal/DebugClient/md5.cpp:199 | bit j of a rotated word is bit j - n modulo 32, for every amount up to 32 |
| `Md5Compress.OperationExact` | src/aceinternal/DebugClient/md5.cpp:205-207 | a step rotates the sum of register, auxiliary function, word and constant modulo 2^32 and adds the next register |
| `Md5Compress.AddRegsExact` | src/aceinternal/DebugClient/md5.cpp:305-308 | the additions at the end of a block, register by register, as numbers modulo 2^32 |
| `Md5Compress.FourSets` | src/aceinternal/DebugClient/md5.cpp:199-212 | four lines with rotating registers are four steps of the loop, for any operation |
| `Md5Compress.SixtyFourSets` | src/aceinternal/DebugClient/md5.cpp:199-303 | all 64 lines are the 64 steps, for every state and block |
| `Md5Compress.SumOfBytes` | src/aceinternal/DebugClient/md5.cpp:193-194 | the sum of shifted bytes that a big-endian machine forms is the little-endian word |
| `Md5Compress.BytesRoundTrip` | src/aceinternal/DebugClient/md5.cpp:193-194 | taking a word apart lowest byte first and putting bytes together are inverse to each other |
| `Md5Compress.LittleEndianNumber` | src/aceinternal/DebugClient/md5.cpp:193-194 | the number of a word put together from bytes has the first byte lowest |
| `Md5Compress.LoadWords` | src/aceinternal/DebugClient/md5.cpp:142-197 | both the little-endian and the big-endian way of loading a block give its little-endian words |
| `Md5Compress.Process` | src/aceinternal/DebugClient/md5.cpp:130-312 | one block for either byte order: the registers after the 64 steps are added, each to its own |
| `Md5.FoldOfPrefix` | src/aceinternal/DebugClient/md5.cpp:354-356 | later bytes do not change the fold over earlier blocks |
| `Md5.PadLengthExact` | src/aceinternal/DebugClient/md5.cpp:379-380 | for every length, the pad length computed with unsigned wrap gives the only padding of 1 to 64 bytes that reaches 56 modulo 64 |
| `Md5.CountBytesExact` | src/aceinternal/DebugClient/md5.cpp:376-378 | the eight saved bytes are the only ones that stand for the length in bits modulo 2 to the power 64 |
| `Md5.CountsAdvance` | src/aceinternal/DebugClient/md5.cpp:335-339 | the two count words with the carry are the length in bits modulo 2 to the power 64 after any append |
| `Md5.PaddedExact` | src/aceinternal/DebugClient/md5.cpp:376-382 | padding and length are those of sections 3.1 and 3.2 of RFC 1321 and no others |
| `Md5.PaddedIsWhole` | src/aceinternal/DebugClient/md5.cpp:379-382 | no partial block remains after finishing |
| `Md5.DigestAt` | src/aceinternal/DebugClient/md5.cpp:383-384 | byte i of the digest is byte i mod 4 of register i / 4, lowest first |
| `Md5.InitialBytes` | src/aceinternal/DebugClient/md5.cpp:314-322 | byte i of the initial registers is 0x01 + 0x22 i for the first eight and 0xfe - 0x22 (i - 8) for the rest, section 3.3 of RFC 1321 |
| `Md5.Md5State.constructor` | src/aceinternal/DebugClient/md5.cpp:314-322 | the fresh state is that of the empty message |
| `Md5.Md5State.AddLength` | src/aceinternal/DebugClient/md5.cpp:332-339 | the count words move on by the appended length |
| `Md5.Md5State.FillBuffer` | src/aceinternal/DebugClient/md5.cpp:341-351 | an initial partial block is filled, and processed when full |
| `Md5.Md5State.AbsorbBlocks` | src/aceinternal/DebugClient/md5.cpp:353-360 | full blocks are processed and the remainder is kept in the buffer |
| `Md5.Md5State.Append` | src/aceinternal/DebugClient/md5.cpp:324-361 | after any append the state is the fold over the full blocks of the whole message, the remainder is in the buffer, the count is its length |
| `Md5.Md5State.Finish` | src/aceinternal/DebugClient/md5.cpp:363-385 | the message becomes the padded one, and the digest is the little-endian output of the fold over it |
| `Md5.AppendAll` | src/aceinternal/DebugClient/md5.cpp:324-361 | appending pieces is appending their concatenation |
| `Md5.DigestOfChunks` | src/aceinternal/DebugClient/md5.cpp:324-385 | the digest does not depend on how the message is cut |
| `HandleData.Handle_data.InitiateReadStream` | src/aceinternal/ch6_server/handle_data.cpp:156-176 | a read is started with a fresh block, or nothing is left behind |
| `HandleData.Handle_data.InitiateWriteStream` | src/aceinternal/ch6_server/handle_data.cpp:178-201 | the write is outstanding with its block, or the block is released; when it is which, is `ReadDoneExact` |
| `HandleData.Handle_data.Open` | src/aceinternal/ch6_server/handle_data.cpp:121-154 | the object after opening, deleted at once when no read could be started |
| `HandleData.Handle_data.HandleReadStream` | src/aceinternal/ch6_server/handle_data.cpp:203-246 | state after a completed read, as `ReadDoneExact` says |
| `HandleData.Handle_data.HandleWriteStream` | src/aceinternal/ch6_server/handle_data.cpp:248-286 | state after a completed write, as `WriteDoneExact` says |
| `HandleData.Handle_data.Cancel` | src/aceinternal/ch6_server/handle_data.cpp:96-103 | only the flag changes |
| `HandleData.StepKeepsInv` | src/aceinternal/ch6_server/handle_data.cpp:121-286 | every event keeps the invariant of count, blocks and bytes |
| `HandleData.RunKeepsInv` | src/aceinternal/ch6_server/handle_data.cpp:121-286 | in every run: the count is the number of outstanding operations, at least one exactly while live; each live block is in one operation; one read at most in full duplex, one operation in half; bytes sent and being sent were received |
| `HandleData.DeletedOnce` | src/aceinternal/ch6_server/handle_data.cpp:142-153 | nothing can happen after the deletion, at which no operation is outstanding and no block is held |
| `HandleData.OpenedExact` | src/aceinternal/ch6_server/handle_data.cpp:121-154 | opening starts one read exactly when the handle, both streams, the allocation and the read are good, and otherwise the object is deleted |
| `HandleData.ReadDoneExact` | src/aceinternal/ch6_server/handle_data.cpp:203-246 | what a completed read leaves outstanding, exactly: its bytes written back from its block if there are any and the connection is usable and accepts them, then in full duplex the next read; deleted if nothing is |
| `HandleData.WriteDoneExact` | src/aceinternal/ch6_server/handle_data.cpp:248-286 | what a completed write leaves outstanding, exactly: in half duplex the next read, if the connection is usable and can start it |
| `HandleData.BytesExact` | src/aceinternal/ch6_server/handle_data.cpp:203-286 | in every run the bytes received are those sent, those being written and those lost by steps that fail or fall short |
| `HandleData.FineRunServes` | src/aceinternal/ch6_server/handle_data.cpp:121-286 | without cancellation, failure, end of input and partial writes: the connection stays live with its one read outstanding, or in half duplex one operation, and what was received is sent or being written |
| `HandleData.CancelDrains` | src/aceinternal/ch6_server/handle_data.cpp:96-103 | cancelling a live connection makes it drain and changes nothing else |
| `HandleData.StepDrains` | src/aceinternal/ch6_server/handle_data.cpp:156-286 | once cancelled, or with the chain of full-duplex reads stopped, each completion lowers the outstanding operations by one |
| `HandleData.Drains` | src/aceinternal/ch6_server/handle_data.cpp:96-286 | so the object is deleted after exactly as many completions as operations were outstanding |
| `SessionPool.SessionPoolImp.Insert` | src/aceinternal/netcore/src/SessionPoolImp.cpp:281-286 | a new session has two references |
| `SessionPool.SessionPoolImp.RemoveSession` | src/aceinternal/netcore/src/SessionPoolImp.cpp:304-320 | one reference less, and deletion with the last |
| `SessionPool.OutputSessionPool.HandleSession` | src/aceinternal/netcore/src/OutputSessionPool.cpp:140-157 | the session goes to the next worker's add set, or nowhere without workers |
| `SessionPool.OutputSessionPool.RemoveSession` | src/aceinternal/netcore/src/OutputSessionPool.cpp:159-174 | the request goes to the worker the session was given to |
| `SessionPool.OutputSessionPool.Pass` | src/aceinternal/netcore/src/OutputSessionPool.cpp:76-103 | one pass: sessions to be removed and held lose a reference, the others stay, those to be added are taken, both sets are emptied; the loop visits the set in any order |
| `SessionPool.OutputSessionPool.Write` | src/aceinternal/netcore/src/OutputSessionPool.cpp:107-131 | a write error takes the session out of the worker's set and nothing more |
| `SessionPool.SessionOpen` | src/aceinternal/netcore/src/SessionPoolImp.cpp:269-291 | opening: two references, then the next worker's add set |
| `SessionPool.SessionClosed` | src/aceinternal/netcore/src/SessionPoolImp.cpp:293-302 | closing: one reference less, then the request to the session's worker |
| `SessionPool.StepKeepsInv` | src/aceinternal/netcore/src/OutputSessionPool.cpp:59-174 | every step of any thread keeps the invariant |
| `SessionPool.SafeInEveryRun` | src/aceinternal/netcore/src/OutputSessionPool.cpp:59-174 | in every interleaving a session in a worker's set, add set or remove set is alive, and all three belong to one worker |
| `SessionPool.ClosedInputKeepsInv` | src/aceinternal/netcore/src/SessionPoolImp.cpp:293-302 | the session given to sessionClosed is still alive |
| `SessionPool.OnlyDueDeleted` | src/aceinternal/netcore/src/OutputSessionPool.cpp:77-92 | a session is deleted only by the worker that holds it, after the input side closed it, and nobody refers to it after |
| `SessionPool.CloseDecides` | src/aceinternal/netcore/src/SessionPoolImp.cpp:293-302 | whether a closed session will be reclaimed or kept: reclaimed if and only if its worker holds it when the removal is requested |
| `SessionPool.HeldExact` | src/aceinternal/netcore/src/OutputSessionPool.cpp:76-131 | for every step, exactly which sessions a worker holds after it: those it held but the ones its own pass removes and the one it fails to write to, and those its pass takes |
| `SessionPool.AskedExact` | src/aceinternal/netcore/src/OutputSessionPool.cpp:140-174 | for every step, exactly which sessions a worker is to receive and to remove |
| `SessionPool.OwnerExact` | src/aceinternal/netcore/src/OutputSessionPool.cpp:140-174 | a session has the same owner from its opening to its close |
| `SessionPool.RoundRobin` | src/aceinternal/netcore/src/OutputSessionPool.cpp:150 | workers are taken in turn over any run |
| `SessionPool.StaysWithItsWorker` | src/aceinternal/netcore/src/OutputSessionPool.cpp:76-174 | until it is closed or a write to it fails, a session stays with its worker, which takes it at its next pass |
| `SessionPool.LifeOfASession` | src/aceinternal/netcore/src/OutputSessionPool.cpp:76-174 | the whole life of a session among any other events, with no failed write to it: it is deleted, once, if and only if its worker passes both between its opening and its close and after its close; without the first it is kept for ever |
| `SessionPool.DueStep` | src/aceinternal/netcore/src/OutputSessionPool.cpp:76-131 | a due session is deleted by its worker's pass, kept after a write error, and otherwise stays due |
| `SessionPool.DeletedAtMostOnce` | src/aceinternal/netcore/src/SessionPoolImp.cpp:304-320 | in every run each accepted session is deleted at most once, also when addresses are reused |
| `SessionPool.DueIsReclaimed` | src/aceinternal/netcore/src/OutputSessionPool.cpp:76-131 | without a write error a due session is deleted exactly once if and only if its worker passes |
| `SessionPool.KeptForever` | src/aceinternal/netcore/src/OutputSessionPool.cpp:76-131 | a closed session that its worker did not hold at the removal, or lost to a write error, is never deleted |
| `SessionPool.MeetingIsKept` | src/aceinternal/netcore/src/OutputSessionPool.cpp:76-103 | every run goes on so that the add and the remove of a session meet in one pass, and then it is kept |
| `SessionPool.WriteErrorIsKept` | src/aceinternal/netcore/src/OutputSessionPool.cpp:107-131 | every run of a pool with workers goes on so that a write to a session fails before it is closed, and then it is kept |
| `Framing.NumberOfBytes` | src/aceinternal/share/inc/Packet.h:86-107 | the packed head fields can be read back |
| `Framing.HeadRoundTrip` | src/aceinternal/membersys/src/MemberSession.cpp:117-121 | an encoded packet starts with a head and a body that give the packet back |
| `Framing.Layout` | src/aceinternal/share/inc/Packet.h:86-107 | the bytes of an encoded packet: opcode and size in two bytes each, lowest first, the guid in eight where the head has one, then the body; only a cell packet carries its guid |
| `Framing.AcceptedExact` | src/aceinternal/membersys/src/MemberSession.cpp:228-240 | a packet is delivered if and only if its body has at most 4096 bytes for a member, 40960 for a gate, and any length for a cell; a longer one stops the reader with everything from it on unread |
| `Framing.ParseInPieces` | src/aceinternal/membersys/src/MemberSession.cpp:215-279 | a stream parsed up to any point can be taken up from what was left; after an oversized head nothing changes any more |
| `Framing.RoundTrip` | src/aceinternal/membersys/src/MemberSession.cpp:107-279 | parsing undoes encoding, whatever follows |
| `Framing.FragmentationIrrelevant` | src/aceinternal/membersys/src/MemberSession.cpp:77-105 | however the stream is cut, the same packets are delivered and the reader gives up or not alike |
| `Framing.WrittenPacketsArrive` | src/aceinternal/membersys/src/GateSession.cpp:50-197 | packets with acceptable bodies come out of any fragmentation unchanged, in order, without a rest; Member and Gate lose the guid |
| `Framing.SomeBytesArrived` | src/aceinternal/membersys/src/MemberSession.cpp:77-162 | while bytes are under way the packets delivered are the first ones |
| `Framing.RestIsShort` | src/aceinternal/membersys/src/MemberSession.cpp:228-240 | the unused bytes are fewer than a head and the largest body |
| `MessageBlocks.MessageBlock.Crunch` | src/aceinternal/membersys/src/MemberSession.cpp:276 | crunching moves the contents to the front and keeps them |
| `MessageBlocks.MessageBlock.Copy` | src/aceinternal/membersys/src/MemberSession.cpp:120-121 | a copy is all or nothing |
| `PacketSessions.Reader.NextPacket` | src/aceinternal/membersys/src/MemberSession.cpp:220-273 | one round of the parser: a packet, too few bytes, or an oversized head |
| `PacketSessions.Reader.ParseInputPacket` | src/aceinternal/netcore/src/Sessionx.cpp:265-303 | the parser delivers exactly the packets of the stream so far |
| `PacketSessions.Reader.ProcessRead` | src/aceinternal/membersys/src/MemberSession.cpp:77-105 | delivered packets are those of all bytes received; 2 exactly on a close, an error or an oversized head; there is always room for the next bytes |
| `PacketSessions.Reader.ReadStream` | src/aceinternal/netcore/src/Sessionx.cpp:127-177 | the same for Sessionx, whose heads are never oversized |
| `PacketSessions.NeverOversized` | src/aceinternal/netcore/src/Sessionx.cpp:265-303 | a 16-bit size is never refused by Sessionx |
| `PacketSessions.StreamSizeExact` | src/aceinternal/share/inc/Packet.h:135-138 | the 16-bit stream size is the real one if and only if the body has at most 65523 bytes |
| `PacketSessions.PutWholeExact` | src/aceinternal/membersys/src/MemberSession.cpp:115-121 | a packet that passes the size test is written whole if and only if its stream size does not wrap or the room suffices anyway |
| `PacketSessions.FillConserves` | src/aceinternal/membersys/src/MemberSession.cpp:113-134 | what is put into the block and what stays queued is everything queued |
| `PacketSessions.FillMakesProgress` | src/aceinternal/membersys/src/MemberSession.cpp:113-134 | an empty block takes at least one packet |
| `PacketSessions.FillStops` | src/aceinternal/membersys/src/MemberSession.cpp:113-134 | filling stops only at an empty queue or a packet too large for what is left |
| `PacketSessions.StopsOnce` | src/aceinternal/membersys/src/MemberSession.cpp:141-160 | sending stops short for one reason only: the connection breaks or the peer has no room |
| `PacketSessions.Writer.FillBlock` | src/aceinternal/membersys/src/MemberSession.cpp:113-134 | the block and the queue after filling |
| `PacketSessions.Writer.SendBlock` | src/aceinternal/membersys/src/MemberSession.cpp:141-160 | against any peer: what was sent and what is left is what was there; 2 if and only if the connection breaks after sends that took less than there was, 1 if and only if the peer has no room then, 0 if and only if all is sent |
| `PacketSessions.Writer.ProcessWrite` | src/aceinternal/membersys/src/MemberSession.cpp:107-162 | bytes sent, buffered and queued are everything ever queued, in order; 1 when there was nothing to send or the peer has no more room, 2 exactly when the connection breaks before all in the block is sent, 0 exactly when it is; a peer that takes anything takes some of what is unsent |
| `PacketSessions.WireExact` | src/aceinternal/netcore/src/CellSessionx.cpp:62-66 | CellSessionx sends a packet whole if and only if its stream size does not wrap |
| `PacketSessions.WireAllExact` | src/aceinternal/netcore/src/CellSessionx.cpp:59-73 | so a queue without such packets goes out as the readers expect it |
| `PacketSessions.CellFillConserves` | src/aceinternal/netcore/src/CellSessionx.cpp:59-73 | nothing is lost when the buffer is filled |
| `PacketSessions.CellFillStops` | src/aceinternal/netcore/src/CellSessionx.cpp:59-73 | filling stops only at an empty queue or a packet not smaller than what is left |
| `PacketSessions.CellWriter.Output` | src/aceinternal/netcore/src/CellSessionx.cpp:43-47 | the packet joins the queue |
| `PacketSessions.CellWriter.WriteStream` | src/aceinternal/netcore/src/CellSessionx.cpp:49-107 | sent, buffered and queued bytes are everything queued; 1 exactly when there was nothing to send; -1 exactly when sending what is in the block fails; no stall: a peer that takes anything takes some |
| `GuidAllocation.PackingExact` | src/aceinternal/charsys/src/ManageConfig.cpp:8 | the fields of a guid can be read back as far as they fit, 8, 8 and 48 bits |
| `GuidAllocation.PackingInjective` | src/aceinternal/charsys/src/ManageConfig.cpp:8 | packing is injective on fields in range |
| `GuidAllocation.ManageConfig.WriteGuidCfg` | src/aceinternal/guidsys/src/ManageConfig.cpp:60-70 | the position in the file is the new one exactly when the save succeeds |
| `GuidAllocation.AllocGuid.GenerateGuid` | src/aceinternal/guidsys/src/AllocGuid.cpp:64-85 | range and new position, in the branch before and at the rollover |
| `GuidAllocation.AllocGuid.ProcessRequest` | src/aceinternal/guidsys/src/AllocGuid.cpp:30-62 | a reply goes out only after the advanced position was saved |
| `GuidAllocation.MakeGuid.Get` | src/aceinternal/charsys/src/MakeGuid.cpp:18-33 | the next guid of the client's ranges, or none |
| `GuidAllocation.MakeGuid.GetGuidInfo` | src/aceinternal/charsys/src/MakeGuid.cpp:113-124 | the oldest waiting range |
| `GuidAllocation.MakeGuid.ParsePack` | src/aceinternal/charsys/src/MakeGuid.cpp:166-182 | a reply queues its range |
| `GuidAllocation.GrantExact` | src/aceinternal/guidsys/src/AllocGuid.cpp:30-85 | a saved request is granted as many indices as it asks for, from the old position on; the new position is behind them or behind the first n of the next seed; one that is not saved is granted nothing and forgotten by a restart |
| `GuidAllocation.IssuesInOrder` | src/aceinternal/charsys/src/MakeGuid.cpp:18-33 | with no empty range queued, any number of calls issue the indices of all ranges of the client in order, each once, and then none |
| `GuidAllocation.RangeIsIssued` | src/aceinternal/charsys/src/MakeGuid.cpp:18-33 | so a range of n indices at the front is issued as index to index + n - 1 of its seed in n calls |
| `GuidAllocation.ArrivingComesLast` | src/aceinternal/charsys/src/MakeGuid.cpp:166-182 | what an arriving range holds comes after what is there |
| `GuidAllocation.StepKeepsInv` | src/aceinternal/guidsys/src/AllocGuid.cpp:30-85 | every index is in at most one place, and none at or above the saved position is anywhere |
| `GuidAllocation.GuidsAreUnique` | src/aceinternal/guidsys/src/AllocGuid.cpp:30-85 | no guid is issued twice before the first rollover, for any clients, interleavings, losses, crashes, failed saves and restarts |
| `GuidAllocation.EmptyRangesAreTaken` | src/aceinternal/charsys/src/MakeGuid.cpp:18-33 | a client's first index of a range is one the server allocated if and only if it asked for at least one |
| `GuidAllocation.EmptyRangesRepeatAGuid` | src/aceinternal/charsys/src/MakeGuid.cpp:18-33 | two clients that ask for empty ranges are issued the same guid |
| `GuidAllocation.FirstEraIsFresh` | src/aceinternal/guidsys/src/AllocGuid.cpp:64-83 | up to and including the first rollover every range is disjoint from all granted before |
| `GuidAllocation.SecondEraExact` | src/aceinternal/guidsys/src/AllocGuid.cpp:64-83 | after it, a range is fresh if and only if it does not reach into the one granted at the rollover, which starts at the old index under the new seed |
| `GuidAllocation.RolloverIsMet` | src/aceinternal/guidsys/src/AllocGuid.cpp:64-83 | from any position in the first era: after a rollover some further requests are granted a range that is not fresh, before the next rollover, if and only if the position was not the last of all |
| `Replies.First` | src/aceinternal/cache/src/ManageRemoteCache.cpp:221-228 | the first element with a guid, none before it |
| `Replies.ManageRemoteCache.Record` | src/aceinternal/cache/src/ManageRemoteCache.cpp:94-102 | only requests with a nonzero id are recorded |
| `Replies.ManageRemoteCache.GetMapID` | src/aceinternal/cache/src/ManageRemoteCache.cpp:218-242 | the first entry with the guid is found, and erased when asked to |
| `Replies.KeptIsSuffix` | src/aceinternal/cache/src/ManageRemoteCache.cpp:74-109 | in every run, whatever the ids and the order of recording, sending and answering, the table has of each guid its last entries |
| `Replies.FoundExact` | src/aceinternal/cache/src/ManageRemoteCache.cpp:218-242 | so a reply finds the first recorded request of its guid that no reply has taken |
| `Replies.NthReplyFindsNthRecorded` | src/aceinternal/cache/src/ManageRemoteCache.cpp:74-109 | when the requests of the guid have ids: the n-th reply finds the n-th request recorded, whichever it answers, and so its own if and only if that is it |
| `Replies.AllOwnExact` | src/aceinternal/cache/src/ManageRemoteCache.cpp:74-109 | every reply of the guid got the map id and request id of its own request if and only if the requests were answered in the order of their recording |
| `Replies.SendingOrderDecides` | src/aceinternal/cache/src/ManageRemoteCache.cpp:94-109 | with a cache that answers in the order in which requests reach it: if and only if, as far as answered, they were sent in the order of their recording |
| `Replies.SentAsRecorded` | src/aceinternal/cache/src/ManageRemoteCache.cpp:94-109 | so sending in the order of recording is enough |
| `Replies.SwappedSendsMisdirect` | src/aceinternal/cache/src/ManageRemoteCache.cpp:94-109 | two requests of a guid, sent by a thread that comes between the locks of another, in every such pair: the first reply gets what belongs to the other request |
| `Replies.OvertakingMisdirects` | src/aceinternal/cache/src/ManageRemoteCache.cpp:105-108 | so it does when sent in order and answered in another, as two caches do, for every pair |
| `Replies.OwnEntryExact` | src/aceinternal/cache/src/ManageRemoteCache.cpp:218-242 | in every run, ids or not: a reply finds the entry that is as many places after those of the answered requests as entries are missing, or none |
| `Replies.OwnEntryInTurn` | src/aceinternal/cache/src/ManageRemoteCache.cpp:218-242 | when it is the turn of its request in the order of recording, and the requests differ, it finds its own entry if and only if none is missing |
| `Replies.MissingExact` | src/aceinternal/cache/src/ManageRemoteCache.cpp:218-242 | entries go missing exactly by replies to requests with id 0 that find one, and come to rights exactly by replies to recorded ones that find none |
| `Replies.UnrobbedMissesNone` | src/aceinternal/cache/src/ManageRemoteCache.cpp:94-102 | as long as no reply to a request with id 0 has found an entry, none is missing |
| `Replies.ZeroIdExact` | src/aceinternal/cache/src/ManageRemoteCache.cpp:94-102 | a reply finds an entry if and only if more recorded requests of its guid are pending than entries are missing; for a request with id 0 it is another one's |
| `Replies.ZeroIdRobs` | src/aceinternal/cache/src/ManageRemoteCache.cpp:94-102 | such a run, for any two requests of one guid, the first with id 0 |
| `Replies.RobbedOwnerIsLost` | src/aceinternal/cache/src/ManageRemoteCache.cpp:218-242 | after the first such reply the next one finds the entry behind that of the request whose turn it is, or none |
| `Replies.RequestListImp.HandlePacket` | src/aceinternal/pool/src/PoolAssistant.cpp:250-271 | the list after a reply: the first request for the guid has its outcome |
| `Replies.RequestListImp.IsSuccess` | src/aceinternal/pool/src/PoolAssistant.cpp:214-225 | success of the list is success of every request |
| `Replies.CompleteExact` | src/aceinternal/pool/src/PoolAssistant.cpp:250-271 | a list is complete if and only if as many matching replies came as it has requests, at least one, whichever they answer |
| `Replies.CompleteWhenAllAnswered` | src/aceinternal/pool/src/PoolAssistant.cpp:250-271 | with distinct guids and one reply for each at most: complete if and only if every request has had its reply |
| `Replies.OutcomeIsLastReply` | src/aceinternal/pool/src/PoolAssistant.cpp:72-142 | the first request for a guid has the outcome of its last reply that parses |
| `Replies.SecondOfAGuidFails` | src/aceinternal/pool/src/PoolAssistant.cpp:214-271 | a second request for the same guid never succeeds, nor does its list |
| `SchemaMigration.QuerydbDesc` | src/aceinternal/dynamicparse/src/dynamicparseimp.cpp:404-442 | the snapshot has the columns of every table |
| `SchemaMigration.CheckEntity` | src/aceinternal/dynamicparse/src/dynamicparseimp.cpp:276-371 | the statements in order, for all messages and fields |
| `SchemaMigration.UpdatedbChanged` | src/aceinternal/dynamicparse/src/dynamicparseimp.cpp:373-402 | the statements run in order up to the first rejected one; -1 exactly when there is one |
| `SchemaMigration.FieldRun` | src/aceinternal/dynamicparse/src/dynamicparseimp.cpp:307-338 | the statements for a field are rejected only for want of a type or because another message has added it, so its AFTER names a column that is there; nothing stored is touched |
| `SchemaMigration.Migration` | src/aceinternal/dynamicparse/src/dynamicparseimp.cpp:276-402 | for any messages: accepted exactly when each is acceptable and none adds a field again; no table, column or stored cell is lost either way; on success the columns of every table are known |
| `SchemaMigration.NewColumnsFilled` | src/aceinternal/dynamicparse/src/dynamicparseimp.cpp:315-338 | after an accepted migration of any messages every row has an empty message in each new repeated column and the default in each other new one |
| `SchemaMigration.DistinctNamesConverge` | src/aceinternal/dynamicparse/src/dynamicparseimp.cpp:276-402 | with distinct short names: accepted exactly when each message is, and then every message has a table with all its fields |
| `SchemaMigration.NothingLeftToDo` | src/aceinternal/dynamicparse/src/dynamicparseimp.cpp:276-371 | the check emits nothing if and only if every message has a table with all its fields |
| `SchemaMigration.Migrate` | src/aceinternal/dynamicparse/src/dynamicparseimp.cpp:276-442 | looking, checking, running and checking again: success exactly when each message is acceptable, and then the second check is empty |
| `SchemaMigration.DuplicateNamesExact` | src/aceinternal/dynamicparse/src/dynamicparseimp.cpp:276-402 | for messages with repeated short names: accepted if and only if each is acceptable and no two of one known name share a field that the table lacks; a message of an unknown name is served if and only if the last one of its name has all its fields |

## Left out

- `Coherence.EveryLoadIsCoherent`: assumes, as its `Allowed` says, that guids are created fresh, updated and flushed only while loaded and never removed, that loads are awaited, and that a flush is not stamped with the time of an acknowledgement that was sent or can still be; `FlushTiming.FlushTimeExact` says what happens with such a time. The handlers for removal are modelled but not allowed in its runs: a tombstone hides the entity from the expired store while its removal is under way, and `handleOnlyRemoveEntity` discards state without a record.
- `Answers.EveryLoadIsAnswered`: assumes the same; `UnansweredExact` says which loads go unanswered without it.
- `Pipeline.EveryLoadIsCoherentWithTransactions`: assumes the same, and that no record is released before one of its guid that goes on waiting; `OvertakenUpdateIsLost` says what happens otherwise.
- `Converter.ManageSqliteFile.WriteRecordToDb`: takes the database to execute what it is sent. In the source `CacheAssistantx::update` and `insert` (src/aceinternal/dynamicparse/src/dynamicparseimp.cpp:716, 862) build their query, report success and do not execute it; the results about the contents of the database (`MergingPreservesMeaning`, `MeaningKeptExact`, `FileMeaning`, `EveryLoadIsCoherent`) are about the contract that their callers rely on, and `MergeExact.ExecutionExact` says when the bodies meet it.
- `Converter.ManageSqliteFile.WriteMerged`: writes records that parse and for which an entity can be made.
- `MergeRecords.MergingPreservesMeaning`: asks that an insert is the first record of its guid and that the database does not hold the guid; `AbsorbExact` says what happens to two records otherwise, and `MergeExact.MeaningKeptExact` to whole logs.
- `GuidAllocation.IssuesInOrder`: asks that no queued range is empty; `EmptyRangesAreTaken` says what happens then.
- `GuidAllocation.GuidsAreUnique`: covers runs up to the first rollover with requests for at least one guid and a seed below 256; `SecondEraExact`, `RolloverIsMet` and `EmptyRangesAreTaken` say what happens beyond.
- `Md5.Md5State.Append`: asks that the offset in the buffer plus the number of bytes fits an int, as the addition in the source does; `nbytes << 3` is taken to wrap at 32 bits.
- `SchemaMigration.Migrate`: asks that short names are distinct and that field names within a message are, as protobuf sees to; `DuplicateNamesExact` drops the first condition.
- SQL text and the load, insert, update and remove bodies of `CacheAssistantx`: the database is abstract here.
- Several converter workers: they share the merge map without a lock; the model has one.
- Aliasing of `Record` objects between the record set, the waiting transactions and the merge map, and the memory they use.
- Handlers, passes and locked blocks are atomic steps; data races inside them are not modelled.
- Requests that do not parse, entities that cannot be created, and unknown operation codes are dropped by the source before any state changes; they are not part of the model.
- The log file as a SQLite database, its rotation and transfer to the converter: a log is a sequence of records, a file a map of rows.
- Real time: the microsecond clock, sleeps, timeouts, the ping of the database connection.
- Logging, statistics, the byte-count warnings of the connection's destructor.
- The input session pool, `SessionPoolImp::connect` and shutting the pools down; a session's two references and the output side are modelled.
- `MemberSession::processWrite(Packet *)`, which sends one packet with retries, and the ownership of `Packet` objects after they are handed on; a reader is modelled with its input handler set.
- `CacheSession` of the converter, whose output loop repeats the one of `CellSessionx`.
- The netstream pool: its output pool and session are not part of this model.
- `RequestListImp` requests other than guid and outcome; extracting entities from replies.
- Column order, and case folding of names by MySQL; of column types only whether they are known and can be a primary key.
