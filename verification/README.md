# A model of the distributed store's storage, locking, logging and timestamps

The project models, in Dafny, the four components of the repository that hold state which must agree with something
simple, and proves that it does, or says exactly when it does not.

1. **Storage.** The skip-list memtable is a pointer structure on the heap (`SkipList.dfy`, `SkipListLinks.dfy`,
   `SkipListIterator.dfy`) over sorted entries (`Entries.dfy`). Blocks and table files are byte strings
   (`BlockFormat.dfy`, `BlockBuilder.dfy`, `Block.dfy`, `Splitting.dfy`, `TableFormat.dfy`, `TableBuilder.dfy`,
   `SSTable.dfy`). `LevelZero.dfy` and `KVStoreBeta.dfy` put them together; `StoreModel.dfy` says what the result means
   and when it behaves like a map, `StoreSteps.dfy` what other calls can do while `get` and `del` hold no mutex.
2. **Locking.** `LockModes.dfy` has the mode tables, `LockModel.dfy` one critical section at a time, `LockEffects.dfy`,
   `LockRuns.dfy` and `LockGrowth.dfy` what every interleaving keeps, `TwoPhase.dfy` what a surviving transaction keeps,
   and `Serializability.dfy` the theorem all this is for; `UpgradeGuard.dfy` restates its condition as a check at the
   grant and `WaitingUpgrades.dfy` has a run that fails it. `Transaction.dfy`, `LockManager.dfy` and
   `TransactionManager.dfy` are the objects, each method proved to make the step the model describes.
3. **Log and recovery.** `LogRecord.dfy` is the record codec, `LogModel.dfy` the double-buffered log as a state machine
   and `LogManager.dfy` the object with its two byte arrays. `RecoveryModel.dfy` folds a log, `RecoveryManager.dfy` has
   the chunked redo scan and the undo loop. `RecoveryCorrect.dfy` compares the recovered store with a replay of the
   finished transactions on a plain map, `RecoveredStore.dfy` carries this over to what gets on the spilling store find,
   `LargeLogs.dfy` has a log where spills get in the way, `RecoveryAgain.dfy` recovers a second time, and
   `Compensations.dfy` goes through the records recovery writes. `TxnLog.dfy`, `LoggedStore.dfy` and `Durability.dfy`
   connect running transactions with what recovery needs, `LogRebuilds.dfy` the log of a run with the store it builds.
4. **Timestamps.** `Timestamps.dfy` has the oracle's arithmetic, steps and runs, `OracleServer.dfy` the object.

Where the code does something a reader might not expect, the model does the same, and a lemma names it:

- The spilled tables are searched oldest first (src/storage/LevelZero.cpp:41), and `del` of a memtable key leaves no
  tombstone (src/storage/KVStore_beta.cpp:45-47). So the store is a map only under the conditions of
  `StoreModel.RunRefinesExactly`; `StaleReads` and `DeletedTwiceAfterPut` are runs from the empty store where it is not.
- An upgrade that has to wait gives up its grant meanwhile (src/transaction/Lock_manager.cpp:107-110), and another
  transaction can be granted a conflicting lock in that gap. `Serializability.SerializableExactly` shows that this alone
  breaks serializability in waiting mode, `WaitingUpgradeCycle` that it happens.
- A failed no-wait upgrade drops the old grant and leaves `upgrading_` set for good
  (src/transaction/Lock_manager.cpp:107-124).
- Undo has no before-images (src/recovery/recovery_manager.cpp:115) and restores a deleted key with itself as value
  (src/recovery/recovery_manager.cpp:129-130), so recovery is characterised key by key. It works through the
  spilling store's put and del: `RecoveredStores.RecoveredLookups` says when gets then find what a map would show,
  `SpillsResurrect` and `EmptyKeyIsLost` are logs where they do not. `RecoveryManager` never initialises its
  `kv_` pointer (include/recovery/recovery_manager.h:15-18); the model starts from any store.
- `syncTimestamp` compares unsigned values: a clock behind the saved value is used as it is
  (meta_server/timestamp.h:74-77). `updateTimestamp` cuts a 64-bit difference down to 32 bits
  (meta_server/timestamp.h:100). `RestartExactly` and `RestartsExactly` say when one restart is safe,
  `RunsAheadExactly` when a whole run keeps its restarts safe, `WindowMatters` is a run that does not. On a first start
  `lastTS` is 0 and the difference is the whole clock reading, so whether an update is saved depends on its low 32 bits.

Byte strings are sequences of `byte`; 64-bit and 32-bit fields are encoded explicitly, little-endian, as the code copies
them. Snappy is a pair of functions of which only the round trip is known. Node heights, clock readings and thread
interleavings are inputs, and every statement is about all of them.

## Model

| member | source | states |
|---|---|---|
| `SkipLists.SkipList.Put` | src/storage/SkipList.cpp:48-79 | put, for every node height: the contents become the sorted insertion (or update) of the pair and every level stays exactly linked |
| `SkipLists.SkipList.Del` | src/storage/SkipList.cpp:82-100 | del removes exactly that key's entry and reports whether there was one |
| `SkipLists.SkipList.Get` | src/storage/SkipList.cpp:32-44 | get returns the entry's value, or nothing when the key is missing |
| `SkipLists.SkipList.Contains` | src/storage/SkipList.cpp:102-106 | contains is membership in the map the list stands for |
| `SkipLists.SkipList.Clear` | src/storage/SkipList.cpp:20-29 | clear leaves a valid empty list |
| `SkipLists.SkipList.FindGreaterOrEqual` | src/storage/SkipList.cpp:167-195 | the search returns the first node at or after the key, and at every level the last node before that place that reaches the level |
| `SkipLists.SkipList.FindLessThan` | src/storage/SkipList.cpp:198-213 | the last node below the key, or the head |
| `SkipLists.SkipList.FindLast` | src/storage/SkipList.cpp:216-231 | the last node, or the head of an empty list |
| `SkipLists.SkipList.EnlargeHeight` | src/storage/SkipList.cpp:141-162 | head and tail grow to the new height and the new levels run straight from head to tail |
| `SkipLists.SkipList.LevelEnds` | src/storage/SkipList.cpp:118-126 | at every level the nodes reaching above it run from head to tail |
| `SkipLists.SkipList.LevelStep` | src/storage/SkipList.cpp:70-75 | in every valid list the level-i pointer of such a node leads to the next such node: a level's chain is exactly the key-sorted nodes higher than i |
| `SkipListLinks.InsertKeepsChain` | src/storage/SkipList.cpp:69-75 | splicing a node in behind its predecessors keeps all levels exact |
| `SkipListLinks.RemoveKeepsChain` | src/storage/SkipList.cpp:91-95 | bypassing a node at each of its levels keeps all levels exact |
| `SkipListLinks.RaiseLinked` | src/storage/SkipList.cpp:141-162 | raising head and tail keeps all levels exact |
| `Entries.InsertIsMapUpdate` | src/storage/SkipList.cpp:46-79 | a sorted insertion is a map update |
| `Entries.RemoveIsMapRemoval` | src/storage/SkipList.cpp:81-100 | a sorted removal is a map removal |
| `SkipListIterators.RunIsMap` | src/storage/SkipList.cpp:20-100 | any sequence of puts, dels and clears yields the sorted entries of the plain map it describes |
| `SkipListIterators.Run` | src/storage/SkipList.cpp:20-100 | the pointer structure, run through any such sequence with any heights, holds exactly that map; size and space are its entry count and its key and value bytes |
| `SkipListIterators.ListIterator.Seek` | src/storage/SkipList.cpp:272-277 | stops at the first entry at or after the key, invalid when none |
| `SkipListIterators.ListIterator.SeekToLast` | src/storage/SkipList.cpp:264-269 | stops at the last entry, invalid when the list is empty |
| `SkipListIterators.ListIterator.Next` | src/storage/SkipList.cpp:280-286 | moves from entry i to entry i + 1 |
| `SkipListIterators.ListIterator.Prev` | src/storage/SkipList.cpp:289-295 | moves from entry i to entry i - 1 |
| `BlockBuilders.BlockBuilder.Add` | src/storage/BlockBuilder.cpp:11-32 | the open block holds one more entry; buffer, restart points and counter are those of the longer sequence |
| `BlockBuilders.BlockBuilder.Finish` | src/storage/BlockBuilder.cpp:38-53 | the bytes of a block are those of its entries followed by count, restart points and trailer position |
| `BlockBuilders.BlockBuilder.EstimatedSize` | src/storage/BlockBuilder.cpp:65-69 | always the length finish will return |
| `BlockFormat.RestartsClosedForm` | src/storage/BlockBuilder.cpp:15-19 | the restart points are the offsets of every twentieth entry |
| `BlockFormat.DecodeBlockEntry` | src/storage/BlockBuilder.cpp:21-27 | every entry can be read back from the finished block at its offset |
| `BlockFormat.DecodeTrailer` | src/storage/BlockBuilder.cpp:38-52 | the trailer of a finished block gives back the entry area's end and the number of restart points |
| `Blocks.Block.constructor` | src/storage/Block.cpp:8-25 | loading a finished block recovers its restart table |
| `Blocks.Block.Get` | src/storage/Block.cpp:28-53 | the scan finds exactly what the added entries hold, including empty values and misses |
| `Blocks.BlockIterator.SeekToLast` | src/storage/Block.cpp:93-107 | through the last restart point it reaches the last added pair |
| `Blocks.BlockIterator.Seek` | src/storage/Block.cpp:110-124 | stops at the first key at or after the target, or becomes invalid exactly when there is none |
| `Blocks.BlockIterator.Next` | src/storage/Block.cpp:143-148 | moves to the following pair, past the last one to the invalid position |
| `Blocks.Enumerate` | src/storage/Block.cpp:86-169 | SeekToFirst and Next yield exactly the added pairs, in order |
| `Splitting.CutIsGreedy` | src/storage/TableBuilder.cpp:26-43 | cutting on a full block loses nothing and is greedy: every block but the last is full, no block is full without its last entry |
| `Splitting.GreedyIsUnique` | src/storage/TableBuilder.cpp:26-43 | there is only one greedy way to cut a sequence |
| `TableFormat.DataBlocksExactly` | src/storage/TableBuilder.cpp:26-79 | the data blocks concatenate to the input, all but the last reach BLOCK_SPACE, each without its final entry is below it, and no other split does that |
| `TableFormat.IndexSnoc` | src/storage/TableBuilder.cpp:58-65 | each written block adds one index entry: last key, offset and size |
| `TableFormat.ChunkInFile` | src/storage/TableBuilder.cpp:45-62 | every block lies in the file where its index entry says |
| `TableFormat.Footer` | src/storage/TableBuilder.cpp:66-69 | the last sixteen bytes are the handle of the index block |
| `TableFormat.SkipBlock` | src/storage/SSTable.cpp:46-66 | an index key below the sought key rules its whole block out |
| `TableFormat.StopAtBlock` | src/storage/SSTable.cpp:48-61 | the first index key at or after the sought key names the only block that can hold it |
| `TableBuilders.TableBuilder.Add` | src/storage/TableBuilder.cpp:26-35 | the builder has one more entry, and its written blocks and open block are the greedy cut so far |
| `TableBuilders.TableBuilder.Finish` | src/storage/TableBuilder.cpp:73-79 | the file is the table of the greedy blocks of everything added |
| `TableBuilders.CreateTable` | src/storage/TableBuilder.cpp:81-93 | create_sstable writes the table of the memtable's entries |
| `SSTables.LoadBlock` | src/storage/SSTable.cpp:22-33 | reading, uncompressing and parsing at a handle gives the block written there |
| `SSTables.SSTable.constructor` | src/storage/SSTable.cpp:10-20 | opening a written table through its footer finds its index block |
| `SSTables.SSTable.Get` | src/storage/SSTable.cpp:39-68 | the index walk and block scan return exactly what the written entries hold |
| `LevelZeros.FileAgreesWithMemtable` | src/storage/TableBuilder.cpp:81-93 | end to end: for every memtable and key, get on the written file equals get on the memtable |
| `LevelZeros.LevelZero.Add` | src/storage/LevelZero.cpp:31-37 | one more table file, holding the memtable's entries |
| `LevelZeros.LevelZero.Lookup` | src/storage/LevelZero.cpp:40-56 | the oldest table with the key answers |
| `KVStores.KVStore.Put` | src/storage/KVStore_beta.cpp:15-23 | put with its spill, on memtable and table files, is the model's put |
| `KVStores.KVStore.Get` | src/storage/KVStore_beta.cpp:27-40 | get returns the model's lookup |
| `KVStores.KVStore.Del` | src/storage/KVStore_beta.cpp:43-58 | del is the model's del, and its result says whether an entry or a spilled value was there |
| `KVStores.KVStore.Flush` | src/storage/KVStore_beta.cpp:98-102 | flush writes the memtable out and keeps it |
| `KVStores.KVStore.Open` | src/storage/KVStore_beta.cpp:6-8 | opening over the tables on disk starts with an empty memtable |
| `StoreModel.SpillInvisible` | src/storage/KVStore_beta.cpp:18-22 | a spill leaves every lookup unchanged if and only if each memtable entry agrees with the oldest table holding its key |
| `StoreModel.StaleReads` | src/storage/LevelZero.cpp:40-56 | from the empty store, two puts of different values larger than a memtable: every later get finds the first one |
| `StoreModel.FlushInvisible` | src/storage/KVStore_beta.cpp:98-102 | flush never changes a lookup |
| `StoreModel.ReopenInvisibleAt` | src/storage/KVStore_beta.cpp:6-12 | closing and reopening leaves a lookup unchanged if and only if the memtable entry agrees with the oldest table holding the key |
| `StoreModel.ClosingTwiceIsOnce` | include/storage/KVStore_new.h:12 | the logged store flushes twice when it is closed; no lookup after reopening can tell |
| `StoreModel.CrashInvisibleAt` | src/storage/KVStore_beta.cpp:92-96 | losing the memtable unflushed (a crash, or reset) leaves a lookup unchanged if and only if the tables alone show the same |
| `StoreModel.PutRefines` | src/storage/KVStore_beta.cpp:15-23 | when put acts as a map update, per key, exactly |
| `StoreModel.DelRefines` | src/storage/KVStore_beta.cpp:43-58 | when del acts as a map removal, per key, exactly |
| `StoreModel.DeleteTwiceResurrects` | src/storage/KVStore_beta.cpp:43-58 | deleting a spilled key twice brings its value back |
| `StoreModel.DeletedTwice` | src/storage/KVStore_beta.cpp:43-58 | after any run that leaves a key on disk only: one del hides it, a second del shows the old value again |
| `StoreModel.DeletedTwiceAfterPut` | src/storage/KVStore_beta.cpp:15-58 | such a run from the empty store: one large put and two dels of its key |
| `StoreModel.RunRefinesFrom` | src/storage/KVStore_beta.cpp:6-102 | on any store, a run of puts, dels, flushes and reopenings looks at every moment like the plain map it makes of what the store showed, if and only if each call met its guard |
| `StoreModel.RunRefinesExactly` | src/storage/KVStore_beta.cpp:6-102 | the same from the empty store |
| `StoreModel.RunRefinesMap` | src/storage/KVStore_beta.cpp:6-102 | runs of non-empty puts, dels, flushes and reopenings that never touch an already spilled key meet every guard and are a plain map |
| `StoreModel.FinalLookup` | src/storage/KVStore_beta.cpp:6-102 | after any run on any store, guarded or not, per key: get finds what the plain map has if the key is still in the memtable, and else the first value of the key that was written out; so it is right if and only if one of the two is |
| `StoreModel.DiskKeepsFirst` | src/storage/LevelZero.cpp:40-56 | what the tables show for a key is the value it had in the first memtable written out with it |
| `StoreSteps.CallsFollow` | src/storage/KVStore_beta.cpp:15-58 | every critical section, also the last one of an interrupted del, keeps the tables or writes the memtable out behind them |
| `StoreSteps.GetIsLinearizable` | src/storage/KVStore_beta.cpp:27-40 | whatever other calls do after get has dropped the mutex, it returns what an undisturbed get would have returned at some moment of the call |
| `StoreSteps.CoverRemoves` | src/storage/KVStore_beta.cpp:50-54 | however late the last critical section of a del comes, it removes the key and nothing else |
| `StoreSteps.DelReports` | src/storage/KVStore_beta.cpp:43-58 | whatever other calls do in between, a del that missed the memtable returns whether the key could be found at some moment of the call |
| `StoreSteps.TwoDels` | src/storage/KVStore_beta.cpp:43-58 | two dels of a key that only tables hold both return true; one after the other the second uncovers the key again, with both searches first it stays deleted |
| `LockModes.UpgradeEnlarges` | src/transaction/Lock_manager.cpp:8-67 | the upgrade table allows a change of mode exactly when it strictly enlarges what the compatibility table excludes |
| `LockModes.CompatibleIsSymmetric` | src/transaction/Lock_manager.cpp:8-35 | compatibility does not depend on who holds and who asks |
| `LockModes.CompatibleMeans` | src/transaction/Lock_manager.cpp:8-35 | what the table means: modes are compatible exactly when no write of one clashes with a read or write of the other, where an intention mode claims parts and claims on parts do not clash |
| `LockManagers.CheckQueueCompatible` | src/transaction/Lock_manager.cpp:140-148 | true exactly when the request is compatible with every other granted request |
| `LockManagers.LockManager.CheckSameTxnLockRequest` | src/transaction/Lock_manager.cpp:69-138 | a repeated request, an upgrade, or neither, with the table and transaction state it leaves |
| `LockManagers.LockManager.LockTable` | src/transaction/Lock_manager.cpp:150-226 | one critical section of the call: granted exactly when the caller is before its first unlock, the request is new, repeated or a legal upgrade nobody else is in the middle of, and every other granted request is compatible; blocked in waiting mode and refused in no-wait mode exactly when only the last is missing; queue, flag, state and lock sets afterwards |
| `LockManagers.LockManager.LockPartition` | src/transaction/Lock_manager.cpp:228-303 | the same for a partition |
| `LockManagers.LockManager.LockRow` | src/transaction/Lock_manager.cpp:305-382 | the same for a row, where intention modes are never legal |
| `LockManagers.LockManager.Wake` | src/transaction/Lock_manager.cpp:195-218 | a blocked call woken up: granted exactly when its transaction is not aborted and every other granted request is compatible, and what follows |
| `LockManagers.LockManager.Unlock` | src/transaction/Lock_manager.cpp:427-458 | drops the first granted request of the caller or aborts it |
| `LockManagers.LockManager.UnLockTable` | src/transaction/Lock_manager.cpp:384-399 | unlock, and the id leaves all five table lock sets |
| `LockManagers.LockManager.UnLockPartition` | src/transaction/Lock_manager.cpp:401-414 | unlock, and the id leaves all five partition lock sets |
| `LockManagers.LockManager.UnLockRow` | src/transaction/Lock_manager.cpp:416-426 | unlock, and the id leaves both row lock sets |
| `LockEffects.AcquireEffect` | src/transaction/Lock_manager.cpp:150-382 | a lock call touches only the caller's request on that id and leaves it granted and recorded, refused and aborted, or queued and waiting |
| `LockEffects.AcquireExactly` | src/transaction/Lock_manager.cpp:69-226 | which outcome a lock call has, exactly, for every caller, mode and queue, and what it makes of queue, flag, state and lock sets |
| `LockEffects.SettleExactly` | src/transaction/Lock_manager.cpp:195-218 | the same for one evaluation of the wait |
| `LockEffects.ReleaseEffect` | src/transaction/Lock_manager.cpp:384-458 | an unlock call drops exactly the caller's granted request, succeeds exactly when there was one, and starts the shrinking phase; the order of the others, every upgrading flag and every other queue stay as they were |
| `LockModel.QueuesStayGood` | src/transaction/Lock_manager.cpp:69-218 | waiting or no-wait, over every interleaving with upgrades and aborts: one request per transaction in a queue, granted requests pairwise compatible |
| `LockRuns.RunsKeepInv` | src/transaction/Lock_manager.cpp:150-458 | over every run each granted lock is in the lock set of its mode and each blocked call has its request queued |
| `LockRuns.WakeKeepsInv` | src/transaction/Lock_manager.cpp:195-218 | a blocked call's request is still there when it wakes |
| `LockRuns.WaitEndsExactly` | src/transaction/Lock_manager.cpp:195-218 | after every run, a blocked call ends only with its own wake-up, and exactly when its transaction has been aborted, which refuses it, or the others' grants are compatible, which grants it |
| `LockGrowth.StepGrows` | src/transaction/Lock_manager.cpp:98-128 | in one step a request that stays keeps its mode or is legally upgraded |
| `LockGrowth.ConflictsNeverShrink` | src/transaction/Lock_manager.cpp:98-128 | over any run a standing request's conflict set never shrinks |
| `LockGrowth.AtMostThreeUpgrades` | src/transaction/Lock_manager.cpp:98-128 | and it is upgraded at most three times |
| `LockGrowth.FailedUpgradeDropsGrant` | src/transaction/Lock_manager.cpp:104-124 | when exactly a no-wait upgrade fails, and that it then loses its grant and leaves the upgrading flag set |
| `LockGrowth.UpgradingFlagSticks` | src/transaction/Lock_manager.cpp:107-125 | that flag, once set after some prefix of a no-wait run, is set after the whole run |
| `LockGrowth.NoUpgradeAfterFailure` | src/transaction/Lock_manager.cpp:98-101 | so every later change of mode in that queue aborts its caller |
| `TwoPhase.NoAccessAfterUnlock` | src/transaction/Lock_manager.cpp:153-159 | a surviving transaction gets no lock after its first unlock, by a call or by a wake-up |
| `TwoPhase.HeldUntilUnlock` | src/transaction/Lock_manager.cpp:104-218 | what a surviving transaction has accessed it keeps until it unlocks that id: granted and excluding at least as much, or an upgrade that waits |
| `TwoPhase.UnlockInBetween` | src/transaction/Lock_manager.cpp:104-218 | between conflicting accesses the first transaction unlocks the id, or else its upgrade is waiting when the second gets in |
| `TwoPhase.UpgradeWaitsOn` | src/transaction/Lock_manager.cpp:104-128 | a survivor's waiting upgrade is granted later or waits to the end of the run |
| `Serializability.ConflictsFollowKeys` | src/transaction/Lock_manager.cpp:104-218 | a conflict between survivors follows the order of first unlocks, or of the last wait for transactions left waiting for an upgrade, unless its first transaction was overtaken |
| `Serializability.ConflictSerializable` | src/transaction/Lock_manager.cpp:104-218 | every run, waiting or no-wait: one strict total order agrees with every conflict between non-aborted transactions whose first was not overtaken |
| `Serializability.SerializableExactly` | src/transaction/Lock_manager.cpp:104-218 | for every run and all its non-aborted transactions: a serial order exists if and only if the conflict graph has no cycle of any length, if and only if nobody was overtaken, that is, granted an id, passed there by a conflicting grant, and granted it again |
| `Serializability.SteadyNotOvertaken` | src/transaction/Lock_manager.cpp:104-128 | a survivor none of whose upgrades had to wait is not overtaken |
| `Serializability.NoWaitSerializable` | src/transaction/Lock_manager.cpp:153-218 | so every no-wait run is serializable over all its non-aborted transactions, in the order of first unlocks |
| `UpgradeGuard.OvertakenAtGrant` | src/transaction/Lock_manager.cpp:104-218 | overtaking as seen when granting: a survivor is overtaken if and only if some other survivor was granted an id in a mode that conflicts with one recorded for it while its upgrade waited there, and the upgrade was granted later |
| `UpgradeGuard.GuardedIsSerializable` | src/transaction/Lock_manager.cpp:140-148 | runs in which no grant passes over a waiting upgrade that way are serializable, waiting or not |
| `WaitingUpgrades.WaitingUpgradeCycle` | src/transaction/Lock_manager.cpp:104-128 | the code grants so: a run of three transactions in waiting mode after which a survivor was overtaken, the conflict graph has a cycle and no serial order exists |
| `Transactions.Transaction.AddLockSet` | include/transaction/Transaction.h:152-213 | the id joins the set of its type and mode, an intention mode on a row joins none |
| `Transactions.Transaction.GetLockSet` | include/transaction/Transaction.h:215-268 | selects the same set |
| `Transactions.Transaction.EraseLock` | src/transaction/Lock_manager.cpp:390-395 | the id leaves every set of its type and no other |
| `LockModes.SetsByName` | include/transaction/Transaction.h:152-213 | the twelve sets after an addition and after an erase, each by its name |
| `LockModes.SetForExactly` | include/transaction/Transaction.h:215-268 | the selected set by its name |
| `TransactionManagers.TransactionManager.ReleaseLocks` | src/transaction/transaction_manager.cpp:35-122 | terminates; all twelve lock sets empty; no granted request left; every other transaction's requests untouched; a transaction whose recorded locks are granted is not aborted |
| `TransactionManagers.ReleaseStep` | src/transaction/Lock_manager.cpp:384-458 | one unlock of a recorded id keeps all of that |
| `TransactionManagers.RunsAllowRelease` | src/transaction/transaction_manager.cpp:35-122 | after every run its preconditions hold, also for ids that upgrades put into several sets |
| `TransactionManagers.ReleasedAmongOthers` | src/transaction/transaction_manager.cpp:35-122 | with any calls of other transactions between its unlocks: a transaction that unlocks all it has recorded ends with empty lock sets and no granted request; its unlocks touch nobody else's requests; if its records were granted and it unlocks only what is recorded it is not aborted |
| `LogRecords.RecordRoundTrip` | include/recovery/log_record.h:63-110 | a record survives encoding and decoding, whatever follows it, if and only if its type is one the decoder rebuilds; the size field is its length |
| `LogRecords.PreparedIsForgotten` | include/recovery/log_record.h:103-107 | a PREPARED record comes back without its transaction |
| `LogRecords.HeaderFields` | include/recovery/log_record.h:20-26 | where each header field lies, whatever follows the header |
| `LogRecords.RowFields` | src/recovery/log_manager.cpp:18-29 | where lengths, key and value of an INSERT or DELETE record lie |
| `LogRecords.TypeField` | include/recovery/log_record.h:14-15 | the number of each record type, as four bytes |
| `Bytes.ByteWeights` | src/recovery/log_manager.cpp:15-27 | copied integers have their least significant byte first |
| `LogRecords.DeserializeFrom` | include/recovery/log_record.h:63-110 | the decoder as it runs, moving a cursor |
| `LogManagers.LogStorage.ReadLog` | include/storage/LogStorage.h:60-82 | a slice of the file padded with zeros, false at and past the end |
| `LogManagers.LogManager.AppendLogRecord` | src/recovery/log_manager.cpp:14-47 | the record's bytes, stamped with the next LSN, follow what the log buffer holds |
| `LogManagers.LogManager.SetNextLsn` | include/recovery/log_manager.h:50 | recovery sets the LSN counter and nothing else |
| `LogManagers.LogManager.RequestFlush` | src/recovery/log_manager.cpp:83-88 | asking the flush thread to start changes nothing else |
| `LogManagers.LogManager.SwapBuffer` | src/recovery/log_manager.cpp:58-63 | the two buffers change places and the last LSN handed out is remembered |
| `LogManagers.LogManager.WriteFlushBuffer` | src/recovery/log_manager.cpp:67-68 | the flush buffer's bytes are appended to the file |
| `LogManagers.LogManager.PublishLsn` | src/recovery/log_manager.cpp:69-70 | the remembered LSN becomes the persistent one |
| `LogModel.NothingLost` | src/recovery/log_manager.cpp:4-81 | under every interleaving, disk, in-flight buffer and log buffer together encode all appended records in LSN order, and neither buffer overflows |
| `LogModel.FlushedIsDurable` | src/recovery/log_manager.cpp:83-90 | Flush(lsn) returns only when every record up to lsn is on disk; the disk ends with a whole record |
| `LogModel.DiskOnlyGrows` | src/recovery/log_manager.cpp:50-81 | what is on disk stays there |
| `LogModel.FlushCanFinish` | src/recovery/log_manager.cpp:53-72 | from any state five flush-thread steps make everything appended durable |
| `LogModel.FlushAsked` | src/recovery/log_manager.cpp:9-70 | over any run the flush flag is set exactly when a flush was asked for after the last one that was published |
| `LogModel.SwapMakesRoom` | src/recovery/log_manager.cpp:9-13 | from any state the flush thread's next swap lets exactly the records shorter than the buffer in |
| `RecoveryManagers.Probe` | src/recovery/recovery_manager.cpp:21-28 | at any chunk boundary the size probe sees the end, a whole record, or one that continues past the buffer |
| `RecoveryManagers.RecoveryManager.ScanBuffer` | src/recovery/recovery_manager.cpp:19-38 | the inner loop redoes whole records in order and always makes progress |
| `RecoveryManagers.RecoveryManager.Redo` | src/recovery/recovery_manager.cpp:14-41 | the scan terminates and visits every record once, in order, whatever the chunk boundaries; active transactions, offsets and next LSN are those of the whole log, and the spilling store has received exactly its puts and dels |
| `RecoveryManagers.RecoveryManager.RedoLog` | src/recovery/recovery_manager.cpp:43-74 | one record's call on the spilling store and its effect on the active transactions |
| `RecoveryModel.ActiveIsLast` | src/recovery/recovery_manager.cpp:43-55 | a transaction is active exactly when its last record does not finish it, with that record's LSN |
| `RecoveryModel.MappingFindsAll` | src/recovery/recovery_manager.cpp:32 | with increasing LSNs every record is found at its offset with its size |
| `RecoveryModel.MaxLsnIsLast` | src/recovery/recovery_manager.cpp:30 | the maximum LSN is the last one |
| `RecoveryModel.FrontierSteps` | src/recovery/recovery_manager.cpp:93-97 | replacing the largest LSN of the undo list by its prev-LSN moves the list down past exactly one record |
| `RecoveryModel.LoserLsnsAre` | src/recovery/recovery_manager.cpp:76-98 | the visited LSNs strictly decrease and are those of unfinished transactions' records, each once |
| `RecoveryManagers.RecoveryManager.UndoChains` | src/recovery/recovery_manager.cpp:76-98 | the loop terminates, visits exactly those LSNs in that order and undoes those records, on the store and in the log |
| `RecoveryManagers.RecoveryManager.UndoLog` | src/recovery/recovery_manager.cpp:106-146 | the opposite call on the spilling store, its compensation record, and the new last LSN |
| `RecoveryManagers.RecoveryManager.Undo` | src/recovery/recovery_manager.cpp:76-104 | the same walk followed by one ABORT record for each active transaction |
| `RecoveryManagers.RecoveryManager.ARIES` | src/recovery/recovery_manager.cpp:4-8 | recovery as a whole, into whatever store the crash left: the store it ends with, the well-formed log without active transactions, what every get finds then, and, when its calls met their guards, exactly when those are the finished transactions' keys, and their values |
| `RecoveryCorrect.RecoveredKey` | src/recovery/recovery_manager.cpp:43-146 | on a plain map, for every log and key: untouched by unfinished transactions it is as the finished ones left it, otherwise the first unfinished write decides |
| `RecoveryCorrect.KeySetRecovered` | src/recovery/recovery_manager.cpp:43-146 | on a plain map recovery keeps exactly the finished transactions' keys if and only if, for each key, its first unfinished write is a delete exactly when its last finished write is an insert |
| `RecoveryCorrect.StoreRecovered` | src/recovery/recovery_manager.cpp:106-146 | on a plain map recovery restores everything if and only if, besides, keys deleted first had themselves as value |
| `RecoveryCorrect.DisciplinedRecovery` | src/recovery/recovery_manager.cpp:43-146 | on a plain map, unfinished inserts of absent keys, deletes of present ones, nobody else writing after them: same keys, equal values wherever nothing unfinished was deleted |
| `RecoveryCorrect.OverwriteIsLost` | src/recovery/recovery_manager.cpp:112-122 | undoing an insert that overwrote a committed value loses the key, on a plain map |
| `RecoveryCorrect.DeletedValueIsLost` | src/recovery/recovery_manager.cpp:128-130 | undoing a delete brings the key back with itself as value, on a plain map |
| `RecoveredStores.RecoveryShows` | src/recovery/recovery_manager.cpp:43-146 | the puts and dels of redo and undo build, on a map, what the recovered map shows, empty values being deletions |
| `RecoveredStores.RecoveredLookups` | src/recovery/recovery_manager.cpp:43-146 | on the spilling store, whatever it holds when recovery begins and for every log: redo and undo look like a map throughout if and only if each of their calls met its guard; then every get finds what the recovered map shows, and keys the log does not mention as before |
| `RecoveredStores.FoundInAnyCase` | src/recovery/recovery_manager.cpp:43-146 | after any recovery of any log into any store, guarded or not, per key: get finds what the recovered map shows if the key is still in the memtable, and else the first value of it that was written out; so it is right if and only if one of the two is |
| `RecoveredStores.FoundKeysExactly` | src/recovery/recovery_manager.cpp:43-146 | after a guarded recovery the finished transactions' visible keys, and those the log does not mention, and no others are found, if and only if, for each key, its first unfinished write is a delete, of a non-empty key, exactly when its last finished write left something visible |
| `RecoveredStores.FoundValuesExactly` | src/recovery/recovery_manager.cpp:106-146 | and they are found with their values if and only if, besides, visible keys deleted first had themselves as value |
| `RecoveredStores.DisciplinedLookupsRecovered` | src/recovery/recovery_manager.cpp:43-146 | the discipline stated on lookups: a guarded recovery finds the same keys, and equal values wherever nothing unfinished was deleted |
| `RecoveredStores.SmallLogsAreGuarded` | src/recovery/recovery_manager.cpp:14-146 | recovering a log of at most a third of the memtable's space into an empty store meets every guard: every get finds what the recovered map shows |
| `RecoveredStores.EmptyKeyIsLost` | src/recovery/recovery_manager.cpp:128-130 | undoing a delete of the empty key stores the empty value, which no get finds, although the map has its key back |
| `LargeLogs.SpillsResurrect` | src/recovery/recovery_manager.cpp:56-74 | a log of 108 records of one committed transaction, accepted by the scan: redo spills twice and every get finds a key that was deleted |
| `RecoveryAgain.CrashInUndo` | src/recovery/recovery_manager.cpp:106-146 | a crash anywhere in the undo walk: recovering again ends with the same map, for every log |
| `RecoveredStores.CrashInUndoFound` | src/recovery/recovery_manager.cpp:106-146 | and on the spilling store, whatever tables the crash left: if both recoveries are guarded, every get of a key of the log finds the same as without the crash |
| `RecoveryAgain.CrashInAborts` | src/recovery/recovery_manager.cpp:99-103 | on a plain map, a crash among the ABORT records does not change the keys of a disciplined log's recovery |
| `RecoveryAgain.SecondRecovery` | src/recovery/recovery_manager.cpp:76-104 | on a plain map, after a finished recovery nothing is left to undo, the keys are the same, and deleted keys get back their logged values |
| `RecoveryAgain.NothingActiveAfter` | src/recovery/recovery_manager.cpp:99-103 | its ABORT records finish every transaction |
| `RecoveryAgain.RecoveryKeepsLogs` | src/recovery/recovery_manager.cpp:116-141 | recovery extends a well-formed log to a well-formed log |
| `Compensations.UndoLogIs` | src/recovery/recovery_manager.cpp:99-146 | the records recovery appends, one by one: for every INSERT and DELETE of an unfinished transaction, last first, the opposite operation of the same transaction with the same key and value, then the ABORTs; consecutive LSNs, each chained to the transaction's record before |
| `Compensations.UndoCalls` | src/recovery/recovery_manager.cpp:112-130 | the calls undo makes on the store, against the same records |
| `LoggedStores.LoggedStore.Put` | include/storage/KVStore_new.h:18-32 | with logging on, one INSERT record with the key and value put and the old prev_lsn_, which moves to it; with write sets on, one write record of the key; the store makes the put |
| `LoggedStores.LoggedStore.Del` | include/storage/KVStore_new.h:35-73 | the same for del in its three branches: a DELETE record and a write record with the key and the value that is deleted, or nothing at all when there is none |
| `LoggedStores.TransactionTable.Begin` | src/transaction/transaction_manager.cpp:124-163 | a BEGIN record with the transaction's prev_lsn_, which moves to it |
| `TxnLogs.DeletedValueIsVisible` | include/storage/KVStore_new.h:37-55 | del finds something exactly when the memtable has an entry or a get finds the key; the value it logs is the one a get would have returned, unless a tombstone is dropped |
| `TxnLogs.ChainsAndWriteSets` | include/storage/KVStore_new.h:18-73 | after every run an open transaction's records are a prev-LSN chain from its BEGIN to prev_lsn_; its write set has one entry per INSERT and DELETE record, in order: the key inserted, or the key deleted with the value logged |
| `TxnLogs.RunsKeepLogs` | src/transaction/transaction_manager.cpp:131-135 | old and new log together stay well formed, with exactly the open transactions active |
| `TxnLogs.CallIsLogged` | include/storage/KVStore_new.h:18-73 | in any run a begin, and a put, successful del or finish of an open transaction, adds one record that says who did what, with a get's value for a delete; any other call changes nothing |
| `LogRebuilds.LogRebuildsStore` | include/storage/KVStore_new.h:18-73 | whatever transactions do, redoing the records they logged on the store they started from rebuilds the store they built, memtable and tables alike |
| `LogRebuilds.RecoveryRebuildsStore` | src/recovery/recovery_manager.cpp:56-74 | so if nobody is unfinished, recovering a run's log on an empty store ends with the run's store |
| `Durability.CrashLeavesLog` | src/recovery/log_manager.cpp:50-74 | every crash leaves a log of whole, well-formed records holding everything a returned Flush had promised |
| `Durability.CrashIsRecoverable` | src/recovery/recovery_manager.cpp:14-104 | what running transactions log, through any interleaving of the log manager, meets the conditions of redo and undo after every crash |
| `Timestamps.ExtractComposed` | meta_server/timestamp.h:130-136 | the physical part comes back exactly when the logical part is below 2^18, where it carries into the next physical time |
| `Timestamps.SaveTest` | meta_server/timestamp.h:100 | the 32-bit test saves exactly when the difference modulo 2^32 is at most 2^31 or is 2^32 - 1 |
| `Timestamps.UpdateNeverFalls` | meta_server/timestamp.h:87-107 | a clock update never lowers the physical time, even when the clock runs backwards |
| `Timestamps.SyncExactly` | meta_server/timestamp.h:71-85 | where a server starts, for every saved time and clock in range |
| `Timestamps.UpdateExactly` | meta_server/timestamp.h:87-107 | where a clock update moves to and what it saves, for every server and clock in range |
| `Timestamps.StartsAtClock` | meta_server/timestamp.h:71-85 | after any run that leaves it down, a server starts at its clock, or one past the saved time |
| `Timestamps.KeepsUpWithClock` | meta_server/timestamp.h:87-107 | over any interleaving of attempts and updates the server is never more than one behind a clock reading it has had |
| `Timestamps.CrashKeepsFile` | meta_server/timestamp.h:71-107 | a crash leaves the file and the tickets issued; dying between writing the file and moving the clock leaves what dying after the whole step does |
| `Timestamps.TimestampsIncrease` | meta_server/timestamp.h:87-132 | within one synced run successful timestamps strictly increase in critical-section order, for any clock readings and any interleaving |
| `Timestamps.RestartsAreSafe` | meta_server/timestamp.h:71-107 | and across any number of crashes at any step, if restarts read a clock not behind the file and each update stays in the window or below the saved time |
| `Timestamps.RestartExactly` | meta_server/timestamp.h:71-85 | for every server and clock, the first timestamp after a restart is larger than the last before if and only if the restart begins past the old physical time |
| `Timestamps.RestartsExactly` | meta_server/timestamp.h:71-85 | every restart on a clock not behind the file is larger if and only if the file is not behind the server |
| `Timestamps.UpdateSavesExactly` | meta_server/timestamp.h:100-105 | a clock update leaves the file not behind if and only if it stays in the window or the saved time was far enough already |
| `Timestamps.RunsAheadExactly` | meta_server/timestamp.h:71-132 | over runs whose restarts are not behind the file: tickets are in order and the file has kept up at every moment if and only if each clock update met that guard |
| `Timestamps.FallenBehind` | meta_server/timestamp.h:71-85 | after any run that leaves the file behind, a ticket, a crash, a restart at the saved time and another ticket go back in time |
| `Timestamps.WindowMatters` | meta_server/timestamp.h:100-103 | such a run: a first start at 1 and one update to 2^31 + 1 |
| `OracleServers.OracleServer.SyncTimestamp` | meta_server/timestamp.h:71-85 | the start-up on the object: it starts at the clock, one past the saved time if the clock reads just that, at logical 0, and saves one more |
| `OracleServers.OracleServer.UpdateTimestamp` | meta_server/timestamp.h:87-107 | the clock update on the object: to the clock if that is more than one ahead, else one on if more than half of the logical numbers are used, else nothing; what it saves |
| `OracleServers.OracleServer.TakeTicket` | meta_server/timestamp.h:111-114 | one attempt's critical section |
| `OracleServers.OracleServer.GetTimeStamp` | meta_server/timestamp.h:109-128 | a whole call, with any attempts and clock updates of others between its steps: the timestamp of its first accepted attempt, or 0 after a hundred refused ones, and the state it leaves |
| `Timestamps.AcceptedExactly` | meta_server/timestamp.h:109-128 | whatever others do, attempt n draws the next ticket of the run, and is accepted exactly when its logical part is at most 2^18 and the server is synced at the second look, which a server once synced stays |
| `Timestamps.CallIsFresh` | meta_server/timestamp.h:109-128 | whatever others do before and during it, a call returns a larger timestamp than any earlier attempt of anyone could have given |
| `Timestamps.RetrySucceeds` | meta_server/timestamp.h:95-123 | after an attempt that found no logical number left, one clock update makes the next 2^18 attempts, of whomever, find one |
| `Timestamps.UndisturbedAttempt` | meta_server/timestamp.h:109-128 | with nobody else about attempt n is accepted if and only if the server is synced and n numbers after the current one are left, and gets the n-th next |

## Left out

- Pointer arrays: `nexts_` and `prevs` are sequence values held by heap nodes, so aliasing of the arrays themselves is not captured; the nodes and their links are on the heap.
- Memory deallocation, and the random height generator: heights are arguments.
- Files and streams: contents are byte strings; directory, `meta` and `index` files, file names and I/O errors are not modelled. Lengths and offsets are assumed to fit 64 bits (`LevelZeros.Fits`).
- `BLOCK_COMPRESSED` switched off: `loadBlock` would then return an empty block (src/storage/SSTable.cpp:28-32); only the compressed path is modelled.
- Block cache and table cache: level 0 is built without them (src/storage/DiskStorage.cpp:7); only the null-cache path of `get` is modelled.
- KVStores.KVStore.Get: one atomic step on the object; the source releases the mutex before it searches the disk (src/storage/KVStore_beta.cpp:33). What other calls do in that gap is in `StoreSteps`, as sequences of critical sections.
- KVStores.KVStore.Del: the same; it drops the mutex and takes it again around the search (src/storage/KVStore_beta.cpp:49-52).
- StoreSteps.GetIsLinearizable: adding a table to level 0 is one step, as is the search; the two share no lock in the source, and a search that meets a table half added is not modelled.
- Blocks.BlockIterator.Seek: for non-empty blocks, as the assertion in `extract_keyvalue` demands (src/storage/Block.cpp:155).
- Liveness of locking: wake-ups are steps that may happen; that a blocked call is ever woken is not claimed. A transaction makes one call at a time.
- Parent-lock checks of `LockPartition` and `LockRow`: commented out in the source.
- TransactionManagers.TransactionManager.ReleaseLocks: each of the twelve loops takes the ids of its set in an arbitrary order, where the source follows the hash table, and nobody else's calls come in between; `ReleasedAmongOthers` states the result with them.
- LogModel.FlushedIsDurable: LSNs below 2^31 and records smaller than the log buffer, as `AppendLogRecord` would overflow or wait forever otherwise; writing the flush buffer is one step.
- Shutdown of the log manager: it stops the flush thread without draining the log buffer; the model has no shutdown step.
- RecoveryManagers.RecoveryManager.Redo: for logs below 2^31 bytes and LSNs below 2^31 - 1, as the source counts both in 32-bit ints (src/recovery/recovery_manager.cpp:16-38, include/recovery/recovery_manager.h:49); with the guard that the size probe has four bytes left in the buffer, which the source lacks (src/recovery/recovery_manager.cpp:22), and for complete records of the five supported types; a PREPARED record is not scanned.
- LogRecords.DeserializeFrom: without its last assertion, which reads past the record (include/recovery/log_record.h:108).
- RecoveryManagers.RecoveryManager.Undo: the log manager is seen as the sequence of records appended to it; waiting for buffer space is not repeated here.
- RecoveryManagers.RecoveryManager.ARIES: `kv_` is the store's value (memtable and tables); that the object on the heap computes it is the business of `KVStores`.
- RecoveryCorrect.RecoveredKey: about the plain map the log describes, without spills and hidden empty values; what gets find is in `RecoveredStores`.
- RecoveryCorrect.KeySetRecovered: the same; on lookups it is `RecoveredStores.FoundKeysExactly`.
- RecoveryCorrect.StoreRecovered: the same; on lookups it is `RecoveredStores.FoundValuesExactly`.
- RecoveryCorrect.DisciplinedRecovery: the same; on lookups it is `RecoveredStores.DisciplinedLookupsRecovered`.
- COMMIT and ABORT records of running transactions: the functions that should write them are stubs (src/transaction/transaction_manager.cpp:165-180); `TxnLogs.Finish` appends them the way their comments and `LogRecord`'s constructor say.
- OracleServers.OracleServer.GetTimeStamp: others' clock updates and attempts are interleaved, a server start during a call is not; the unlocked second look at the physical time reads one whole value.
- Two-phase commit, remote calls, the coordinator's backup and failover: stubs or network plumbing.
- Meta-server table registry, partition lookup, execution planner and AST: they would add only lookups.
