// Lock modes, their compatibility and upgrade tables, lock ids and queues:
// include/transaction/txn.h and the tables of src/transaction/Lock_manager.cpp.
module LockModes {
  import opened Options

  datatype LockMode = Shared | Exclusive | IntentionShared | IntentionExclusive | SharedIntentionExclusive

  const ALL_MODES: set<LockMode> := {Shared, Exclusive, IntentionShared, IntentionExclusive, SharedIntentionExclusive}

  /** isLockCompatible: may target be granted beside a granted request in mode held? */
  predicate Compatible(held: LockMode, target: LockMode) {
    match target
    case IntentionShared => held != Exclusive
    case IntentionExclusive => held == IntentionShared || held == IntentionExclusive
    case Shared => held == IntentionShared || held == Shared
    case SharedIntentionExclusive => held == IntentionShared
    case Exclusive => false
  }

  /** isUpdateCompatible: may a request in mode held be upgraded to target? */
  predicate Upgradable(held: LockMode, target: LockMode) {
    match held
    case IntentionShared => target != IntentionShared
    case Shared => target == Exclusive || target == SharedIntentionExclusive
    case IntentionExclusive => target == Exclusive || target == SharedIntentionExclusive
    case SharedIntentionExclusive => target == Exclusive
    case Exclusive => false
  }

  /** The modes a request in this mode keeps others from getting. */
  function Conflicts(m: LockMode): set<LockMode> {
    set x | x in ALL_MODES && !Compatible(m, x)
  }

  /** What a mode claims of a data item: to read or write the whole of it, or parts of it under locks of their own. */
  datatype Claim = Nothing | Parts | Whole

  function Reading(m: LockMode): Claim {
    match m
    case Shared => Whole
    case Exclusive => Whole
    case IntentionShared => Parts
    case IntentionExclusive => Parts
    case SharedIntentionExclusive => Whole
  }

  function Writing(m: LockMode): Claim {
    match m
    case Shared => Nothing
    case Exclusive => Whole
    case IntentionShared => Nothing
    case IntentionExclusive => Parts
    case SharedIntentionExclusive => Parts
  }

  /** Claims clash when one is on the whole; two on parts are sorted out further down. */
  predicate Clash(a: Claim, b: Claim) {
    (a == Whole && b != Nothing) || (b == Whole && a != Nothing)
  }

  /** The compatibility table means: no write of the one clashes with a read or write of the other. */
  lemma {:induction false} CompatibleMeans(a: LockMode, b: LockMode)
    ensures Compatible(a, b) <==>
              !Clash(Writing(a), Reading(b)) && !Clash(Reading(a), Writing(b)) && !Clash(Writing(a), Writing(b))
  {
  }

  /** How many upgrades can lead to a mode. */
  function Level(m: LockMode): (n: nat)
    ensures n <= 3
  {
    match m
    case IntentionShared => 0
    case Shared => 1
    case IntentionExclusive => 1
    case SharedIntentionExclusive => 2
    case Exclusive => 3
  }

  lemma {:induction false} CompatibleIsSymmetric(a: LockMode, b: LockMode)
    ensures Compatible(a, b) <==> Compatible(b, a)
  {
  }

  /** An upgrade is allowed exactly when it strictly enlarges what the request excludes. */
  lemma {:induction false} UpgradeEnlarges(a: LockMode, b: LockMode)
    ensures Upgradable(a, b) <==> Conflicts(a) < Conflicts(b)
    ensures Upgradable(a, b) ==> Level(a) < Level(b)
  {
    assert Conflicts(IntentionShared) == {Exclusive};
    assert Conflicts(IntentionExclusive) == {Shared, SharedIntentionExclusive, Exclusive};
    assert Conflicts(Shared) == {IntentionExclusive, SharedIntentionExclusive, Exclusive};
    assert Conflicts(SharedIntentionExclusive) == {IntentionExclusive, Shared, SharedIntentionExclusive, Exclusive};
    assert Conflicts(Exclusive) == ALL_MODES;
    assert IntentionShared !in Conflicts(SharedIntentionExclusive);
    assert Shared !in Conflicts(Shared) && IntentionExclusive !in Conflicts(IntentionExclusive);
  }

  lemma {:induction false} ConflictsAreIncompatible(m: LockMode, x: LockMode)
    ensures x in Conflicts(m) <==> !Compatible(m, x)
  {
  }

  // ---- ids, requests, queues ----

  datatype LockType = TableLock | PartitionLock | RowLock

  /** Lock_data_id: the fields a lock of the given type does not use stay 0. */
  datatype LockId = LockId(kind: LockType, oid: int, pid: int, rid: int)

  function TableId(oid: int): LockId { LockId(TableLock, oid, 0, 0) }
  function PartitionId(oid: int, pid: int): LockId { LockId(PartitionLock, oid, pid, 0) }
  function RowId(oid: int, pid: int, rid: int): LockId { LockId(RowLock, oid, pid, rid) }

  datatype Request = Request(txn: nat, mode: LockMode, granted: bool)

  datatype Queue = Queue(requests: seq<Request>, upgrading: bool)

  type LockTable = map<LockId, Queue>

  function QueueOf(table: LockTable, id: LockId): Queue {
    if id in table then table[id] else Queue([], false)
  }

  /** Position of the transaction's first request, or the length. */
  function OwnIndex(rs: seq<Request>, txn: nat): (i: nat)
    ensures i <= |rs|
    ensures forall j :: 0 <= j < i ==> rs[j].txn != txn
    ensures i < |rs| ==> rs[i].txn == txn
  {
    if rs == [] || rs[0].txn == txn then 0 else 1 + OwnIndex(rs[1..], txn)
  }

  /** Position of the transaction's first granted request, or the length. */
  function GrantedIndex(rs: seq<Request>, txn: nat): (i: nat)
    ensures i <= |rs|
    ensures forall j :: 0 <= j < i ==> !(rs[j].txn == txn && rs[j].granted)
    ensures i < |rs| ==> rs[i].txn == txn && rs[i].granted
  {
    if rs == [] || (rs[0].txn == txn && rs[0].granted) then 0 else 1 + GrantedIndex(rs[1..], txn)
  }

  /** checkQueueCompatible: request i is compatible with every other granted request. */
  predicate QueueCompatible(rs: seq<Request>, i: nat)
    requires i < |rs|
  {
    forall j :: 0 <= j < |rs| && j != i && rs[j].granted ==> Compatible(rs[j].mode, rs[i].mode)
  }

  // ---- transactions ----

  datatype TxnState = DefaultState | Growing | Shrinking | Committed | Aborted | Prepared

  /** The twelve lock sets of a transaction. */
  datatype LockSets = LockSets(
    tableS: set<LockId>, tableX: set<LockId>, tableIS: set<LockId>, tableIX: set<LockId>, tableSIX: set<LockId>,
    partitionS: set<LockId>, partitionX: set<LockId>, partitionIS: set<LockId>, partitionIX: set<LockId>,
    partitionSIX: set<LockId>,
    rowS: set<LockId>, rowX: set<LockId>)

  const NO_LOCKS := LockSets({}, {}, {}, {}, {}, {}, {}, {}, {}, {}, {}, {})

  /** get_lock_set; there is no set for intention locks on rows. */
  function SetFor(sets: LockSets, kind: LockType, mode: LockMode): Option<set<LockId>> {
    match (kind, mode)
    case (TableLock, Shared) => Some(sets.tableS)
    case (TableLock, Exclusive) => Some(sets.tableX)
    case (TableLock, IntentionShared) => Some(sets.tableIS)
    case (TableLock, IntentionExclusive) => Some(sets.tableIX)
    case (TableLock, SharedIntentionExclusive) => Some(sets.tableSIX)
    case (PartitionLock, Shared) => Some(sets.partitionS)
    case (PartitionLock, Exclusive) => Some(sets.partitionX)
    case (PartitionLock, IntentionShared) => Some(sets.partitionIS)
    case (PartitionLock, IntentionExclusive) => Some(sets.partitionIX)
    case (PartitionLock, SharedIntentionExclusive) => Some(sets.partitionSIX)
    case (RowLock, Shared) => Some(sets.rowS)
    case (RowLock, Exclusive) => Some(sets.rowX)
    case (RowLock, _) => None
  }

  /** add_lock_set */
  function AddTo(sets: LockSets, mode: LockMode, id: LockId): LockSets {
    match (id.kind, mode)
    case (TableLock, Shared) => sets.(tableS := sets.tableS + {id})
    case (TableLock, Exclusive) => sets.(tableX := sets.tableX + {id})
    case (TableLock, IntentionShared) => sets.(tableIS := sets.tableIS + {id})
    case (TableLock, IntentionExclusive) => sets.(tableIX := sets.tableIX + {id})
    case (TableLock, SharedIntentionExclusive) => sets.(tableSIX := sets.tableSIX + {id})
    case (PartitionLock, Shared) => sets.(partitionS := sets.partitionS + {id})
    case (PartitionLock, Exclusive) => sets.(partitionX := sets.partitionX + {id})
    case (PartitionLock, IntentionShared) => sets.(partitionIS := sets.partitionIS + {id})
    case (PartitionLock, IntentionExclusive) => sets.(partitionIX := sets.partitionIX + {id})
    case (PartitionLock, SharedIntentionExclusive) => sets.(partitionSIX := sets.partitionSIX + {id})
    case (RowLock, Shared) => sets.(rowS := sets.rowS + {id})
    case (RowLock, Exclusive) => sets.(rowX := sets.rowX + {id})
    case (RowLock, _) => sets
  }

  /** The erases at the end of UnLockTable, UnLockPartition and UnLockRow: every set of the id's type. */
  function EraseFrom(sets: LockSets, id: LockId): LockSets {
    match id.kind
    case TableLock =>
      sets.(tableS := sets.tableS - {id}, tableX := sets.tableX - {id}, tableIS := sets.tableIS - {id},
            tableIX := sets.tableIX - {id}, tableSIX := sets.tableSIX - {id})
    case PartitionLock =>
      sets.(partitionS := sets.partitionS - {id}, partitionX := sets.partitionX - {id},
            partitionIS := sets.partitionIS - {id}, partitionIX := sets.partitionIX - {id},
            partitionSIX := sets.partitionSIX - {id})
    case RowLock =>
      sets.(rowS := sets.rowS - {id}, rowX := sets.rowX - {id})
  }

  /** The id, if it is of this type and asked for in this mode. */
  function Only(id: LockId, mode: LockMode, kind: LockType, m: LockMode): set<LockId> {
    if id.kind == kind && mode == m then {id} else {}
  }

  /** Set by set: a lock is added to the one set of its type and mode, and erased from every set of its type. */
  lemma {:induction false} SetsByName(sets: LockSets, mode: LockMode, id: LockId)
    ensures AddTo(sets, mode, id) ==
              LockSets(sets.tableS + Only(id, mode, TableLock, Shared),
                       sets.tableX + Only(id, mode, TableLock, Exclusive),
                       sets.tableIS + Only(id, mode, TableLock, IntentionShared),
                       sets.tableIX + Only(id, mode, TableLock, IntentionExclusive),
                       sets.tableSIX + Only(id, mode, TableLock, SharedIntentionExclusive),
                       sets.partitionS + Only(id, mode, PartitionLock, Shared),
                       sets.partitionX + Only(id, mode, PartitionLock, Exclusive),
                       sets.partitionIS + Only(id, mode, PartitionLock, IntentionShared),
                       sets.partitionIX + Only(id, mode, PartitionLock, IntentionExclusive),
                       sets.partitionSIX + Only(id, mode, PartitionLock, SharedIntentionExclusive),
                       sets.rowS + Only(id, mode, RowLock, Shared),
                       sets.rowX + Only(id, mode, RowLock, Exclusive))
    ensures EraseFrom(sets, id) ==
              LockSets(sets.tableS - Only(id, Shared, TableLock, Shared),
                       sets.tableX - Only(id, Exclusive, TableLock, Exclusive),
                       sets.tableIS - Only(id, IntentionShared, TableLock, IntentionShared),
                       sets.tableIX - Only(id, IntentionExclusive, TableLock, IntentionExclusive),
                       sets.tableSIX - Only(id, SharedIntentionExclusive, TableLock, SharedIntentionExclusive),
                       sets.partitionS - Only(id, Shared, PartitionLock, Shared),
                       sets.partitionX - Only(id, Exclusive, PartitionLock, Exclusive),
                       sets.partitionIS - Only(id, IntentionShared, PartitionLock, IntentionShared),
                       sets.partitionIX - Only(id, IntentionExclusive, PartitionLock, IntentionExclusive),
                       sets.partitionSIX - Only(id, SharedIntentionExclusive, PartitionLock, SharedIntentionExclusive),
                       sets.rowS - Only(id, Shared, RowLock, Shared),
                       sets.rowX - Only(id, Exclusive, RowLock, Exclusive))
  {
  }

  /** The set of a type and mode, and none for the intention modes of rows. */
  lemma {:induction false} SetForExactly(sets: LockSets, kind: LockType, mode: LockMode)
    ensures SetFor(sets, kind, mode) == None <==> kind == RowLock && mode != Shared && mode != Exclusive
    ensures SetFor(sets, TableLock, Shared) == Some(sets.tableS)
    ensures SetFor(sets, TableLock, Exclusive) == Some(sets.tableX)
    ensures SetFor(sets, TableLock, IntentionShared) == Some(sets.tableIS)
    ensures SetFor(sets, TableLock, IntentionExclusive) == Some(sets.tableIX)
    ensures SetFor(sets, TableLock, SharedIntentionExclusive) == Some(sets.tableSIX)
    ensures SetFor(sets, PartitionLock, Shared) == Some(sets.partitionS)
    ensures SetFor(sets, PartitionLock, Exclusive) == Some(sets.partitionX)
    ensures SetFor(sets, PartitionLock, IntentionShared) == Some(sets.partitionIS)
    ensures SetFor(sets, PartitionLock, IntentionExclusive) == Some(sets.partitionIX)
    ensures SetFor(sets, PartitionLock, SharedIntentionExclusive) == Some(sets.partitionSIX)
    ensures SetFor(sets, RowLock, Shared) == Some(sets.rowS)
    ensures SetFor(sets, RowLock, Exclusive) == Some(sets.rowX)
  {
  }

  /** The part of a transaction the lock manager uses. */
  datatype Txn = Txn(state: TxnState, sets: LockSets)
}
