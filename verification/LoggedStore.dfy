// include/storage/KVStore_new.h, the store with a log, and the log part of
// TransactionManager::Begin.
module LoggedStores {
  import opened Options
  import opened Bytes
  import opened Entries
  import opened LogRecords
  import opened LevelZeros
  import opened Transactions
  import opened TxnLogs
  import KVStores
  import LockModes
  import StoreModel
  import TableFormat

  /** The log manager as its users see it: records in the order of the LSNs it hands out. */
  class LogHistory {
    var records: seq<LogRecord>
    var nextLsn: int

    constructor (nextLsn: int)
      ensures records == [] && this.nextLsn == nextLsn
    {
      records, this.nextLsn := [], nextLsn;
    }

    method AppendLogRecord(r: LogRecord) returns (lsn: int)
      modifies this
      ensures records == old(records) + [r.(lsn := old(nextLsn))]
      ensures lsn == old(nextLsn) && nextLsn == old(nextLsn) + 1
    {
      lsn := nextLsn;
      nextLsn := nextLsn + 1;
      records := records + [r.(lsn := lsn)];
    }
  }

  ghost function TrailFor(log: LogHistory, txn: Transaction): Trail
    reads log, txn
  {
    Trail(log.records, log.nextLsn, txn.prevLsn, txn.writeSet)
  }

  /** Write one record for the transaction and move its prev_lsn_ there. */
  method LogFor(log: LogHistory, txn: Transaction, kind: LogType, key: Str, value: Str)
    modifies log, txn`prevLsn
    ensures TrailFor(log, txn) == Logged(old(TrailFor(log, txn)), txn.id, kind, key, value)
  {
    var lsn := log.AppendLogRecord(LogRecord(INVALID_LSN, txn.id, txn.prevLsn, kind, key, value));
    txn.prevLsn := lsn;
  }

  class LoggedStore {
    const store: KVStores.KVStore
    const log: LogHistory
    const enableLogging: bool

    ghost predicate Valid()
      reads this, store, store.memtable, store.memtable.Repr, store.level0
    {
      store.Valid() && log !in store.memtable.Repr
    }

    /** The transaction object is no part of the store. */
    ghost predicate Apart(txn: Transaction)
      reads store.memtable
    {
      txn !in store.memtable.Repr
    }

    constructor (codec: TableFormat.Codec, log: LogHistory, enableLogging: bool)
      ensures Valid() && this.log == log && this.enableLogging == enableLogging
      ensures store.View() == StoreModel.Store([], [])
    {
      this.log := log;
      this.enableLogging := enableLogging;
      store := new KVStores.KVStore(codec);
    }

    /** The log record and the write record of one change. */
    method Note(txn: Transaction, addWriteSet: bool, kind: LogType, key: Str, value: Str)
      requires HasRow(kind) && Valid() && Apart(txn)
      modifies log, txn`prevLsn, txn`writeSet
      ensures Valid() && Apart(txn) && store.View() == old(store.View())
      ensures TrailFor(log, txn) == Noted(old(TrailFor(log, txn)), txn.id, enableLogging, addWriteSet, kind, key, value)
    {
      if enableLogging {
        LogFor(log, txn, kind, key, value);
      }
      if addWriteSet {
        txn.writeSet := txn.writeSet + [if kind == Insert then InsertTuple(key) else DeleteTuple(key, value)];
      }
    }

    method Put(key: Str, value: Str, txn: Transaction, addWriteSet: bool, heads: nat)
      requires Valid() && Apart(txn)
      requires Space(Entries.Insert(store.memtable.contents, key, value)) > StoreModel.SSTABLE_SPACE ==>
                 Fits(store.level0.codec, Entries.Insert(store.memtable.contents, key, value))
      modifies log, txn`prevLsn, txn`writeSet, store.memtable, store.memtable.Repr, store.level0
      ensures Valid() && Apart(txn)
      ensures store.View() == StoreModel.Put(old(store.View()), key, value)
      ensures TrailFor(log, txn) == Noted(old(TrailFor(log, txn)), txn.id, enableLogging, addWriteSet, LogType.Insert, key, value)
      ensures Extends(old(TrailFor(log, txn)), TrailFor(log, txn), enableLogging,
                      LogRecord(old(log.nextLsn), txn.id, old(txn.prevLsn), LogType.Insert, key, value),
                      if addWriteSet then [InsertTuple(key)] else [])
    {
      NotedExtends(TrailFor(log, txn), txn.id, enableLogging, addWriteSet, LogType.Insert, key, value);
      hide Noted, Extends;
      Note(txn, addWriteSet, LogType.Insert, key, value);
      store.Put(key, value, heads);
    }

    /** The memtable entry of key is dropped. */
    method DropEntry(key: Str)
      requires Valid() && Find(store.memtable.contents, key).Some?
      modifies store.memtable, store.memtable.Repr
      ensures Valid() && fresh(store.memtable.Repr - old(store.memtable.Repr))
      ensures store.View() == StoreModel.Del(old(store.View()), key)
    {
      var removed := store.memtable.Del(key);
    }

    /** An empty value is put over the spilled entry of key. */
    method CoverEntry(key: Str, heads: nat)
      requires Valid() && Find(store.memtable.contents, key) == None
      requires StoreModel.Visible(StoreModel.Search(store.level0.tables, key)).Some?
      modifies store.memtable, store.memtable.Repr
      ensures Valid() && fresh(store.memtable.Repr - old(store.memtable.Repr))
      ensures store.View() == StoreModel.Del(old(store.View()), key)
    {
      store.memtable.Put(key, [], heads);
    }

    /** What del finds: the value to log, and whether the memtable has it. */
    method Locate(key: Str) returns (value: Option<Str>, inMemory: bool)
      requires Valid()
      ensures value == DeletedValue(store.View(), key)
      ensures inMemory <==> Find(store.memtable.contents, key).Some?
    {
      FindIsToMap(store.memtable.contents, key);
      inMemory := store.memtable.Contains(key);
      if inMemory {
        value := store.memtable.Get(key);
        return;
      }
      value := store.level0.Lookup(key);
      if value.Some? && value.value == [] {
        value := None;
      }
    }

    method Del(key: Str, txn: Transaction, addWriteSet: bool, heads: nat) returns (deleted: bool)
      requires Valid() && Apart(txn)
      modifies log, txn`prevLsn, txn`writeSet, store.memtable, store.memtable.Repr
      ensures Valid() && Apart(txn)
      ensures store.View() == StoreModel.Del(old(store.View()), key)
      ensures var value := DeletedValue(old(store.View()), key);
              && deleted == value.Some?
              && TrailFor(log, txn) == if value == None then old(TrailFor(log, txn))
                   else Noted(old(TrailFor(log, txn)), txn.id, enableLogging, addWriteSet, LogType.Delete, key, value.value)
      ensures var value := DeletedValue(old(store.View()), key);
              value.Some? ==>
                Extends(old(TrailFor(log, txn)), TrailFor(log, txn), enableLogging,
                        LogRecord(old(log.nextLsn), txn.id, old(txn.prevLsn), LogType.Delete, key, value.value),
                        if addWriteSet then [DeleteTuple(key, value.value)] else [])
    {
      var value, inMemory := Locate(key);
      if value == None {
        return false;
      }
      NotedExtends(TrailFor(log, txn), txn.id, enableLogging, addWriteSet, LogType.Delete, key, value.value);
      hide Noted, Extends, DeletedValue;
      Note(txn, addWriteSet, LogType.Delete, key, value.value);
      if inMemory {
        DropEntry(key);
      } else {
        CoverEntry(key, heads);
      }
      return true;
    }
  }

  /** The transaction table, and Begin's part in the log. */
  class TransactionTable {
    var txnMap: map<nat, Transaction>
    const log: LogHistory
    const enableLogging: bool

    constructor (log: LogHistory, enableLogging: bool)
      ensures txnMap == map[] && this.log == log && this.enableLogging == enableLogging
    {
      txnMap := map[];
      this.log := log;
      this.enableLogging := enableLogging;
    }

    /** A null transaction is created; one that exists keeps its chain. */
    method Begin(given: Transaction?, id: nat) returns (txn: Transaction)
      modifies this`txnMap, log, given
      ensures if given == null then fresh(txn) && txn.id == id else txn == given
      ensures txnMap == old(txnMap)[txn.id := txn]
      ensures given == null ==> txn.Locking() == LockModes.Txn(LockModes.DefaultState, LockModes.NO_LOCKS)
      ensures var trail := if given == null then Trail(old(log.records), old(log.nextLsn), INVALID_LSN, [])
                           else old(TrailFor(log, given));
              && TrailFor(log, txn) == (if enableLogging then Logged(trail, txn.id, LogType.Begin, [], []) else trail)
              && Extends(trail, TrailFor(log, txn), enableLogging,
                         LogRecord(trail.nextLsn, txn.id, trail.prevLsn, LogType.Begin, [], []), [])
    {
      if given == null {
        txn := new Transaction(id);
      } else {
        txn := given;
      }
      if enableLogging {
        LogFor(log, txn, LogType.Begin, [], []);
      }
      txnMap := txnMap[txn.id := txn];
    }
  }
}
