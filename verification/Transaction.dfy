// include/transaction/Transaction.h and the write records of include/transaction/txn.h.
module Transactions {
  import opened Options
  import opened Bytes
  import opened LockModes
  import LogRecords

  datatype WriteRecord = InsertTuple(key: Str) | DeleteTuple(key: Str, value: Str)

  class Transaction {
    const id: nat
    var state: TxnState
    var prevLsn: int
    var writeSet: seq<WriteRecord>

    var tableS: set<LockId>
    var tableX: set<LockId>
    var tableIS: set<LockId>
    var tableIX: set<LockId>
    var tableSIX: set<LockId>
    var partitionS: set<LockId>
    var partitionX: set<LockId>
    var partitionIS: set<LockId>
    var partitionIX: set<LockId>
    var partitionSIX: set<LockId>
    var rowS: set<LockId>
    var rowX: set<LockId>

    /** The twelve lock sets as one value. */
    function Sets(): LockSets
      reads this
    {
      LockSets(tableS, tableX, tableIS, tableIX, tableSIX,
               partitionS, partitionX, partitionIS, partitionIX, partitionSIX, rowS, rowX)
    }

    /** What the lock manager sees of the transaction. */
    function Locking(): Txn
      reads this
    {
      Txn(state, Sets())
    }

    constructor (id: nat)
      ensures this.id == id && Locking() == Txn(DefaultState, NO_LOCKS)
      ensures prevLsn == LogRecords.INVALID_LSN && writeSet == []
    {
      this.id := id;
      state := DefaultState;
      prevLsn, writeSet := LogRecords.INVALID_LSN, [];
      tableS, tableX, tableIS, tableIX, tableSIX := {}, {}, {}, {}, {};
      partitionS, partitionX, partitionIS, partitionIX, partitionSIX := {}, {}, {}, {}, {};
      rowS, rowX := {}, {};
    }

    method SetState(s: TxnState)
      modifies this`state
      ensures Locking() == old(Locking()).(state := s)
    {
      state := s;
    }

    method AddLockSet(mode: LockMode, id: LockId)
      modifies this
      ensures Sets() == AddTo(old(Sets()), mode, id)
      ensures state == old(state) && prevLsn == old(prevLsn) && writeSet == old(writeSet)
    {
      match id.kind {
        case TableLock =>
          match mode {
            case Shared => tableS := tableS + {id};
            case Exclusive => tableX := tableX + {id};
            case IntentionShared => tableIS := tableIS + {id};
            case IntentionExclusive => tableIX := tableIX + {id};
            case SharedIntentionExclusive => tableSIX := tableSIX + {id};
          }
        case PartitionLock =>
          match mode {
            case Shared => partitionS := partitionS + {id};
            case Exclusive => partitionX := partitionX + {id};
            case IntentionShared => partitionIS := partitionIS + {id};
            case IntentionExclusive => partitionIX := partitionIX + {id};
            case SharedIntentionExclusive => partitionSIX := partitionSIX + {id};
          }
        case RowLock =>
          match mode {
            case Shared => rowS := rowS + {id};
            case Exclusive => rowX := rowX + {id};
            case _ =>
          }
      }
    }

    /** get_lock_set(kind, mode); None is its null pointer. */
    method GetLockSet(kind: LockType, mode: LockMode) returns (r: Option<set<LockId>>)
      ensures r == SetFor(Sets(), kind, mode)
    {
      match kind {
        case TableLock =>
          match mode {
            case Shared => r := Some(tableS);
            case Exclusive => r := Some(tableX);
            case IntentionShared => r := Some(tableIS);
            case IntentionExclusive => r := Some(tableIX);
            case SharedIntentionExclusive => r := Some(tableSIX);
          }
        case PartitionLock =>
          match mode {
            case Shared => r := Some(partitionS);
            case Exclusive => r := Some(partitionX);
            case IntentionShared => r := Some(partitionIS);
            case IntentionExclusive => r := Some(partitionIX);
            case SharedIntentionExclusive => r := Some(partitionSIX);
          }
        case RowLock =>
          match mode {
            case Shared => r := Some(rowS);
            case Exclusive => r := Some(rowX);
            case _ => r := None;
          }
      }
    }

    /** The erases that end UnLockTable, UnLockPartition and UnLockRow. */
    method EraseLock(id: LockId)
      modifies this
      ensures Sets() == EraseFrom(old(Sets()), id)
      ensures state == old(state) && prevLsn == old(prevLsn) && writeSet == old(writeSet)
    {
      match id.kind {
        case TableLock =>
          tableS := tableS - {id};
          tableX := tableX - {id};
          tableIX := tableIX - {id};
          tableIS := tableIS - {id};
          tableSIX := tableSIX - {id};
        case PartitionLock =>
          partitionS := partitionS - {id};
          partitionX := partitionX - {id};
          partitionIX := partitionIX - {id};
          partitionIS := partitionIS - {id};
          partitionSIX := partitionSIX - {id};
        case RowLock =>
          rowS := rowS - {id};
          rowX := rowX - {id};
      }
    }
  }
}
