// TransactionManager::ReleaseLocks, src/transaction/transaction_manager.cpp:35-122.
module TransactionManagers {
  import opened Options
  import opened LockModes
  import opened LockModel
  import opened LockEffects
  import opened LockRuns
  import opened Transactions
  import opened LockManagers

  /** Every lock the transaction has been granted is in the lock set of its mode. */
  ghost predicate CoversGrants(table: LockTable, sets: LockSets, t: nat) {
    forall id {:trigger RequestOf(table, id, t)} ::
      var r := RequestOf(table, id, t);
      r.Some? && r.value.granted ==> Recorded(sets, id, r.value.mode)
  }

  /** Every recorded lock is one the transaction has been granted, perhaps in a later mode. */
  ghost predicate OnlyGrants(table: LockTable, sets: LockSets, t: nat) {
    forall id, mode {:trigger Recorded(sets, id, mode)} :: Recorded(sets, id, mode) ==>
      var r := RequestOf(table, id, t);
      r.Some? && r.value.granted
  }

  predicate ProperId(id: LockId, kind: LockType) {
    id == match kind
          case TableLock => TableId(id.oid)
          case PartitionLock => PartitionId(id.oid, id.pid)
          case RowLock => RowId(id.oid, id.pid, id.rid)
  }

  /** Each lock set holds ids of its own type only. */
  ghost predicate ProperSets(sets: LockSets) {
    forall kind, mode, id :: SetFor(sets, kind, mode).Some? && id in SetFor(sets, kind, mode).value ==> ProperId(id, kind)
  }

  ghost predicate Shrinks(before: LockSets, after: LockSets) {
    forall kind, mode {:trigger SetFor(after, kind, mode)} :: SetFor(after, kind, mode).Some? ==>
      SetFor(after, kind, mode).value <= SetFor(before, kind, mode).value
  }

  ghost predicate OthersUntouched(table: LockTable, table': LockTable, t: nat) {
    forall id, u {:trigger RequestOf(table', id, u)} :: u != t ==> RequestOf(table', id, u) == RequestOf(table, id, u)
  }

  /** What unlocking keeps, step after step, from an earlier state (before, t) on. */
  ghost predicate Releasing(before: View, v: View, t: nat) {
    && GoodTable(v.table)
    && ProperSets(v.txn.sets)
    && OthersUntouched(before.table, v.table, t)
    && CoversGrants(v.table, v.txn.sets, t)
    && (before.txn.state != Aborted && OnlyGrants(before.table, before.txn.sets, t) ==>
          v.txn.state != Aborted && OnlyGrants(v.table, v.txn.sets, t))
  }

  lemma {:induction false} EraseShrinks(sets: LockSets, id: LockId)
    ensures Shrinks(sets, EraseFrom(sets, id))
    ensures ProperSets(sets) ==> ProperSets(EraseFrom(sets, id))
  {
  }

  /** One unlock call on a recorded id. */
  lemma {:induction false} ReleaseStep(before: View, v: View, t: nat, id: LockId, mode: LockMode)
    requires Releasing(before, v, t) && Recorded(v.txn.sets, id, mode)
    ensures Releasing(before, Release(v, t, id).0, t)
  {
    var v' := Release(v, t, id).0;
    ReleaseKeepsGood(v, t, id);
    ReleaseEffect(v, t, id);
    EraseKeepsOthers(v.txn.sets, id);
    EraseShrinks(v.txn.sets, id);
    forall i, u | u != t ensures RequestOf(v'.table, i, u) == RequestOf(before.table, i, u) {
      assert RequestOf(v'.table, i, u) == RequestOf(v.table, i, u);
    }
    forall i ensures var r := RequestOf(v'.table, i, t); r.Some? && r.value.granted ==> Recorded(v'.txn.sets, i, r.value.mode) {
      if i != id { assert RequestOf(v'.table, i, t) == RequestOf(v.table, i, t); }
    }
    if before.txn.state != Aborted && OnlyGrants(before.table, before.txn.sets, t) {
      assert Release(v, t, id).1;
      forall i, m | Recorded(v'.txn.sets, i, m) ensures RequestOf(v'.table, i, t).Some? && RequestOf(v'.table, i, t).value.granted {
        assert Recorded(v.txn.sets, i, m);
        assert RequestOf(v'.table, i, t) == RequestOf(v.table, i, t);
      }
    }
  }

  /** The order in which ReleaseLocks goes through the lock sets. */
  function ReleaseOrder(n: nat): (LockType, LockMode)
    requires n < 12
  {
    if n == 0 then (RowLock, Shared)
    else if n == 1 then (RowLock, Exclusive)
    else if n < 7 then (PartitionLock, ModeOrder(n - 2))
    else (TableLock, ModeOrder(n - 7))
  }

  function ModeOrder(n: nat): LockMode
    requires n < 5
  {
    if n == 0 then Shared
    else if n == 1 then IntentionShared
    else if n == 2 then IntentionExclusive
    else if n == 3 then SharedIntentionExclusive
    else Exclusive
  }

  /** The first n of them are empty. */
  ghost predicate EmptyUpTo(sets: LockSets, n: nat) {
    forall k {:trigger ReleaseOrder(k)} :: 0 <= k < n && k < 12 ==>
      SetFor(sets, ReleaseOrder(k).0, ReleaseOrder(k).1) == Some({})
  }

  lemma {:induction false} EmptyStays(before: LockSets, after: LockSets, n: nat)
    requires Shrinks(before, after) && EmptyUpTo(before, n)
    ensures EmptyUpTo(after, n)
  {
    forall k | 0 <= k < n && k < 12
      ensures SetFor(after, ReleaseOrder(k).0, ReleaseOrder(k).1) == Some({})
    {
      var (kind, mode) := ReleaseOrder(k);
      assert SetFor(before, kind, mode) == Some({});
      assert SetFor(after, kind, mode).Some?;
      assert SetFor(after, kind, mode).value == {};
    }
  }

  lemma {:induction false} AllEmpty(sets: LockSets)
    requires EmptyUpTo(sets, 12)
    ensures sets == NO_LOCKS
  {
    assert ReleaseOrder(0) == (RowLock, Shared) && ReleaseOrder(1) == (RowLock, Exclusive);
    assert ReleaseOrder(2) == (PartitionLock, Shared) && ReleaseOrder(3) == (PartitionLock, IntentionShared);
    assert ReleaseOrder(4) == (PartitionLock, IntentionExclusive);
    assert ReleaseOrder(5) == (PartitionLock, SharedIntentionExclusive) && ReleaseOrder(6) == (PartitionLock, Exclusive);
    assert ReleaseOrder(7) == (TableLock, Shared) && ReleaseOrder(8) == (TableLock, IntentionShared);
    assert ReleaseOrder(9) == (TableLock, IntentionExclusive);
    assert ReleaseOrder(10) == (TableLock, SharedIntentionExclusive) && ReleaseOrder(11) == (TableLock, Exclusive);
  }

  /** With every lock set empty, nothing the transaction has in a queue is granted. */
  lemma {:induction false} NothingGranted(table: LockTable, t: nat)
    requires CoversGrants(table, NO_LOCKS, t)
    ensures forall id {:trigger RequestOf(table, id, t)} ::
              var r := RequestOf(table, id, t); r.Some? ==> !r.value.granted
  {
  }

  class TransactionManager {
    const lockManager: LockManager

    constructor (lockManager: LockManager)
      ensures this.lockManager == lockManager
    {
      this.lockManager := lockManager;
    }

    /** The unlock call for one id of a lock set. */
    method ReleaseOne(txn: Transaction, id: LockId, kind: LockType, mode: LockMode, ghost before: View)
      requires SetFor(txn.Sets(), kind, mode).Some? && id in SetFor(txn.Sets(), kind, mode).value
      requires Releasing(before, lockManager.ViewFor(txn), txn.id)
      modifies lockManager, txn
      ensures Releasing(before, lockManager.ViewFor(txn), txn.id)
      ensures Shrinks(old(txn.Sets()), txn.Sets())
      ensures SetFor(txn.Sets(), kind, mode) == Some(SetFor(old(txn.Sets()), kind, mode).value - {id})
      ensures txn.prevLsn == old(txn.prevLsn) && txn.writeSet == old(txn.writeSet)
    {
      assert ProperId(id, kind) && Recorded(txn.Sets(), id, mode);
      EraseShrinks(txn.Sets(), id);
      ReleaseStep(before, lockManager.ViewFor(txn), txn.id, id, mode);
      match kind {
        case TableLock => lockManager.UnLockTable(txn, id.oid);
        case PartitionLock => lockManager.UnLockPartition(txn, id.oid, id.pid);
        case RowLock => lockManager.UnLockRow(txn, id.oid, id.pid, id.rid);
      }
    }

    /** One of the twelve loops: unlock every id of a lock set, in any order. */
    method ReleaseSet(txn: Transaction, kind: LockType, mode: LockMode, ghost before: View, ghost n: nat)
      requires n < 12 && ReleaseOrder(n) == (kind, mode)
      requires Releasing(before, lockManager.ViewFor(txn), txn.id) && EmptyUpTo(txn.Sets(), n)
      modifies lockManager, txn
      ensures Releasing(before, lockManager.ViewFor(txn), txn.id) && EmptyUpTo(txn.Sets(), n + 1)
      ensures txn.prevLsn == old(txn.prevLsn) && txn.writeSet == old(txn.writeSet)
    {
      var found := txn.GetLockSet(kind, mode);
      assert found.Some?;
      var ids := found.value;
      while ids != {}
        invariant Releasing(before, lockManager.ViewFor(txn), txn.id) && EmptyUpTo(txn.Sets(), n)
        invariant SetFor(txn.Sets(), kind, mode) == Some(ids)
        invariant txn.prevLsn == old(txn.prevLsn) && txn.writeSet == old(txn.writeSet)
        decreases |ids|
      {
        var id :| id in ids;
        ghost var sets := txn.Sets();
        ReleaseOne(txn, id, kind, mode, before);
        EmptyStays(sets, txn.Sets(), n);
        ids := ids - {id};
      }
    }

    /** Lines 37-52. */
    method ReleaseRows(txn: Transaction, ghost before: View)
      requires Releasing(before, lockManager.ViewFor(txn), txn.id) && EmptyUpTo(txn.Sets(), 0)
      modifies lockManager, txn
      ensures Releasing(before, lockManager.ViewFor(txn), txn.id) && EmptyUpTo(txn.Sets(), 2)
      ensures txn.prevLsn == old(txn.prevLsn) && txn.writeSet == old(txn.writeSet)
    {
      ReleaseSet(txn, RowLock, Shared, before, 0);
      ReleaseSet(txn, RowLock, Exclusive, before, 1);
    }

    /** Lines 54-88. */
    method ReleasePartitions(txn: Transaction, ghost before: View)
      requires Releasing(before, lockManager.ViewFor(txn), txn.id) && EmptyUpTo(txn.Sets(), 2)
      modifies lockManager, txn
      ensures Releasing(before, lockManager.ViewFor(txn), txn.id) && EmptyUpTo(txn.Sets(), 7)
      ensures txn.prevLsn == old(txn.prevLsn) && txn.writeSet == old(txn.writeSet)
    {
      ReleaseSet(txn, PartitionLock, Shared, before, 2);
      ReleaseSet(txn, PartitionLock, IntentionShared, before, 3);
      ReleaseSet(txn, PartitionLock, IntentionExclusive, before, 4);
      ReleaseSet(txn, PartitionLock, SharedIntentionExclusive, before, 5);
      ReleaseSet(txn, PartitionLock, Exclusive, before, 6);
    }

    /** Lines 90-119. */
    method ReleaseTables(txn: Transaction, ghost before: View)
      requires Releasing(before, lockManager.ViewFor(txn), txn.id) && EmptyUpTo(txn.Sets(), 7)
      modifies lockManager, txn
      ensures Releasing(before, lockManager.ViewFor(txn), txn.id) && EmptyUpTo(txn.Sets(), 12)
      ensures txn.prevLsn == old(txn.prevLsn) && txn.writeSet == old(txn.writeSet)
    {
      ReleaseSet(txn, TableLock, Shared, before, 7);
      ReleaseSet(txn, TableLock, IntentionShared, before, 8);
      ReleaseSet(txn, TableLock, IntentionExclusive, before, 9);
      ReleaseSet(txn, TableLock, SharedIntentionExclusive, before, 10);
      ReleaseSet(txn, TableLock, Exclusive, before, 11);
    }

    method ReleaseLocks(txn: Transaction)
      requires GoodTable(lockManager.lockMap) && ProperSets(txn.Sets())
      requires CoversGrants(lockManager.lockMap, txn.Sets(), txn.id)
      modifies lockManager, txn
      ensures txn.Sets() == NO_LOCKS
      ensures forall id {:trigger RequestOf(lockManager.lockMap, id, txn.id)} ::
                var r := RequestOf(lockManager.lockMap, id, txn.id); r.Some? ==> !r.value.granted
      ensures OthersUntouched(old(lockManager.lockMap), lockManager.lockMap, txn.id)
      ensures GoodTable(lockManager.lockMap)
      ensures old(txn.state) != Aborted && OnlyGrants(old(lockManager.lockMap), old(txn.Sets()), txn.id) ==>
                txn.state != Aborted
      ensures txn.prevLsn == old(txn.prevLsn) && txn.writeSet == old(txn.writeSet)
    {
      ghost var v := lockManager.ViewFor(txn);
      ReleaseRows(txn, v);
      ReleasePartitions(txn, v);
      ReleaseTables(txn, v);
      AllEmpty(txn.Sets());
      NothingGranted(lockManager.lockMap, txn.id);
    }
  }

  // ---- every run leaves a state ReleaseLocks can start from ----

  /** What a transaction that is not aborted has recorded it has been granted, or is waiting to upgrade. */
  ghost predicate HeldOrUpgrading(s: System) {
    forall id, t, mode {:trigger Recorded(TxnOf(s, t).sets, id, mode)} ::
      TxnOf(s, t).state != Aborted && Recorded(TxnOf(s, t).sets, id, mode) ==>
        var r := RequestOf(s.table, id, t);
        r.Some? && (r.value.granted || (t in s.waiting && s.waiting[t].id == id))
  }

  ghost predicate AllProper(s: System) {
    forall t :: ProperSets(TxnOf(s, t).sets)
  }

  lemma {:induction false} AddToProper(sets: LockSets, mode: LockMode, id: LockId)
    requires ProperSets(sets) && ProperId(id, id.kind)
    ensures ProperSets(AddTo(sets, mode, id))
    ensures forall i, m {:trigger Recorded(AddTo(sets, mode, id), i, m)} ::
              Recorded(AddTo(sets, mode, id), i, m) ==> i == id || Recorded(sets, i, m)
  {
    var after := AddTo(sets, mode, id);
    forall kind, m, i | SetFor(after, kind, m).Some? && i in SetFor(after, kind, m).value ensures ProperId(i, kind) {
      assert SetFor(sets, kind, m).Some?;
      if i !in SetFor(sets, kind, m).value { assert i == id && kind == id.kind; }
    }
  }

  /** A step of t that, on id, ends granted, aborted or waiting, and leaves its other ids alone. */
  lemma {:induction false} HeldAfter(s: System, t: nat, id: LockId, s': System)
    requires HeldOrUpgrading(s) && OnlyTouches(s.table, s'.table, id, t)
    requires forall u :: u != t ==> TxnOf(s', u) == TxnOf(s, u) && (u in s.waiting <==> u in s'.waiting)
    requires forall u :: u != t && u in s.waiting ==> s'.waiting[u] == s.waiting[u]
    requires t in s.waiting ==> s.waiting[t].id == id
    requires TxnOf(s', t).state != Aborted ==> TxnOf(s, t).state != Aborted
    requires forall i, m {:trigger Recorded(TxnOf(s', t).sets, i, m)} ::
               Recorded(TxnOf(s', t).sets, i, m) && i != id ==> Recorded(TxnOf(s, t).sets, i, m)
    requires TxnOf(s', t).state != Aborted ==>
               forall m {:trigger Recorded(TxnOf(s', t).sets, id, m)} :: Recorded(TxnOf(s', t).sets, id, m) ==>
                 var r := RequestOf(s'.table, id, t);
                 r.Some? && (r.value.granted || (t in s'.waiting && s'.waiting[t].id == id))
    ensures HeldOrUpgrading(s')
  {
  }

  /** A lock call or wake-up keeps both. */
  lemma {:induction false} StepHeld(noWait: bool, s: System, t: nat, id: LockId, mode: LockMode, step: Step)
    requires HeldOrUpgrading(s) && AllProper(s) && ProperId(id, id.kind)
    requires OnlyTouches(s.table, step.view.table, id, t)
    requires t in s.waiting ==> s.waiting[t].id == id
    requires step.outcome == Granted ==>
               && Holds(step.view.table, id, t, mode) && TxnOf(s, t).state != Aborted
               && step.view.txn.sets == AddTo(TxnOf(s, t).sets, mode, id)
    requires step.outcome != Granted ==> step.view.txn.sets == TxnOf(s, t).sets
    requires step.outcome == Refused ==> step.view.txn.state == Aborted
    requires step.outcome == Blocked ==> RequestOf(step.view.table, id, t).Some? && TxnOf(s, t).state != Aborted
    ensures HeldOrUpgrading(AfterStep(s, t, id, mode, step)) && AllProper(AfterStep(s, t, id, mode, step))
  {
    AddToProper(TxnOf(s, t).sets, mode, id);
    HeldAfter(s, t, id, AfterStep(s, t, id, mode, step));
  }

  lemma {:induction false} LockHeld(noWait: bool, s: System, t: nat, id: LockId, mode: LockMode)
    requires SystemInv(noWait, s) && HeldOrUpgrading(s) && AllProper(s) && ProperId(id, id.kind)
    ensures var s' := Next(noWait, s, Lock(t, id, mode)); HeldOrUpgrading(s') && AllProper(s')
  {
    if t !in s.waiting {
      AcquireEffect(noWait, ViewOf(s, t), t, id, mode);
      StepHeld(noWait, s, t, id, mode, Acquire(noWait, ViewOf(s, t), t, id, mode));
    }
  }

  lemma {:induction false} UnlockHeld(noWait: bool, s: System, t: nat, id: LockId)
    requires SystemInv(noWait, s) && HeldOrUpgrading(s) && AllProper(s)
    ensures var s' := Next(noWait, s, Unlock(t, id)); HeldOrUpgrading(s') && AllProper(s')
  {
    if t !in s.waiting {
      var v := ViewOf(s, t);
      ReleaseEffect(v, t, id);
      EraseKeepsOthers(v.txn.sets, id);
      EraseShrinks(v.txn.sets, id);
      HeldAfter(s, t, id, Next(noWait, s, Unlock(t, id)));
    }
  }

  lemma {:induction false} WakeHeld(noWait: bool, s: System, t: nat)
    requires SystemInv(noWait, s) && HeldOrUpgrading(s) && AllProper(s)
    requires t in s.waiting ==> ProperId(s.waiting[t].id, s.waiting[t].id.kind)
    ensures var s' := Next(noWait, s, Wake(t)); HeldOrUpgrading(s') && AllProper(s')
  {
    if CanWake(s, t) {
      var w := s.waiting[t];
      var q := QueueOf(s.table, w.id);
      var i := OwnIndex(q.requests, t);
      assert RequestOf(s.table, w.id, t).Some?;
      assert GoodQueue(q);
      SettleEffect(noWait, ViewOf(s, t), w.id, q, i, w.kind);
      StepHeld(noWait, s, t, w.id, w.mode, Settle(noWait, ViewOf(s, t), w.id, q, i, w.kind));
    }
  }

  /** Lock calls name tables, partitions and rows the way the three lock functions do. */
  ghost predicate ProperCalls(calls: seq<Call>) {
    forall k :: 0 <= k < |calls| && calls[k].Lock? ==> ProperId(calls[k].id, calls[k].id.kind)
  }

  lemma {:induction false} HeldAfterAbort(noWait: bool, s: System, t: nat)
    requires HeldOrUpgrading(s) && AllProper(s)
    ensures var s' := Next(noWait, s, Abort(t)); HeldOrUpgrading(s') && AllProper(s')
  {
    var s' := Next(noWait, s, Abort(t));
    assert forall u :: TxnOf(s', u).sets == TxnOf(s, u).sets;
    forall i, u, m | TxnOf(s', u).state != Aborted && Recorded(TxnOf(s', u).sets, i, m)
      ensures var r := RequestOf(s'.table, i, u); r.Some? && (r.value.granted || (u in s'.waiting && s'.waiting[u].id == i))
    {
      assert Recorded(TxnOf(s, u).sets, i, m);
    }
  }

  ghost predicate ProperWaits(s: System) {
    forall t :: t in s.waiting ==> ProperId(s.waiting[t].id, s.waiting[t].id.kind)
  }

  lemma {:induction false} NextHeld(noWait: bool, s: System, call: Call)
    requires SystemInv(noWait, s) && HeldOrUpgrading(s) && AllProper(s) && ProperWaits(s)
    requires call.Lock? ==> ProperId(call.id, call.id.kind)
    ensures var s' := Next(noWait, s, call); HeldOrUpgrading(s') && AllProper(s') && ProperWaits(s')
  {
    match call
    case Lock(t, id, mode) => LockHeld(noWait, s, t, id, mode);
    case Unlock(t, id) => UnlockHeld(noWait, s, t, id);
    case Wake(t) => WakeHeld(noWait, s, t);
    case Abort(t) => HeldAfterAbort(noWait, s, t);
  }

  lemma {:induction false} RunsStayHeld(noWait: bool, calls: seq<Call>)
    requires ProperCalls(calls)
    ensures var s := Exec(noWait, calls);
            SystemInv(noWait, s) && HeldOrUpgrading(s) && AllProper(s) && ProperWaits(s)
  {
    RunsKeepInv(noWait, calls);
    if calls != [] {
      var front, call := calls[..|calls| - 1], calls[|calls| - 1];
      RunsStayHeld(noWait, front);
      NextHeld(noWait, Exec(noWait, front), call);
    }
  }

  /** After every run ReleaseLocks may be called for any transaction that is not blocked,
      and it will not abort one that has survived so far. */
  lemma {:induction false} RunsAllowRelease(noWait: bool, calls: seq<Call>, t: nat)
    requires ProperCalls(calls)
    ensures var s := Exec(noWait, calls);
            && GoodTable(s.table) && ProperSets(TxnOf(s, t).sets) && CoversGrants(s.table, TxnOf(s, t).sets, t)
            && (TxnOf(s, t).state != Aborted && t !in s.waiting ==> OnlyGrants(s.table, TxnOf(s, t).sets, t))
  {
    RunsStayHeld(noWait, calls);
  }

  // ---- releasing while others run ----

  ghost predicate LocksNothing(calls: seq<Call>, n: nat, t: nat) {
    forall k {:trigger calls[k]} :: n <= k < |calls| ==> !(calls[k].Lock? && calls[k].txn == t)
  }

  /** One call of anyone, when t is not locking: t's records stay, but for the id it unlocks. */
  lemma {:induction false} OthersLeaveRecords(noWait: bool, s: System, call: Call, t: nat, id: LockId, mode: LockMode)
    requires t !in s.waiting && (call.Lock? ==> call.txn != t)
    ensures t !in Next(noWait, s, call).waiting
    ensures Recorded(TxnOf(Next(noWait, s, call), t).sets, id, mode) <==>
              call != Unlock(t, id) && Recorded(TxnOf(s, t).sets, id, mode)
  {
    if call.Unlock? && call.txn == t { EraseKeepsOthers(TxnOf(s, t).sets, call.id); }
  }

  /** While t does not lock, what it has recorded only shrinks. */
  lemma {:induction false} RecordsShrink(noWait: bool, calls: seq<Call>, n: nat, t: nat, id: LockId, mode: LockMode)
    requires n <= |calls| && t !in Exec(noWait, calls[..n]).waiting && LocksNothing(calls, n, t)
    ensures t !in Exec(noWait, calls).waiting
    ensures Recorded(TxnOf(Exec(noWait, calls), t).sets, id, mode) ==> Recorded(TxnOf(Exec(noWait, calls[..n]), t).sets, id, mode)
  {
    if n == |calls| {
      assert calls[..n] == calls;
    } else {
      var front, call := calls[..|calls| - 1], calls[|calls| - 1];
      assert front[..n] == calls[..n];
      assert LocksNothing(front, n, t) by {
        forall k | n <= k < |front| ensures !(front[k].Lock? && front[k].txn == t) { assert front[k] == calls[k]; }
      }
      RecordsShrink(noWait, front, n, t, id, mode);
      OthersLeaveRecords(noWait, Exec(noWait, front), call, t, id, mode);
    }
  }

  lemma {:induction false} UnlockedStaysOut(noWait: bool, calls: seq<Call>, n: nat, k: nat, t: nat, id: LockId, mode: LockMode)
    requires n <= k < |calls| && t !in Exec(noWait, calls[..n]).waiting && LocksNothing(calls, n, t)
    requires calls[k] == Unlock(t, id)
    ensures !Recorded(TxnOf(Exec(noWait, calls), t).sets, id, mode)
  {
    hide Exec, Recorded;
    ExecStep(noWait, calls, k);
    assert calls[..k][..n] == calls[..n] && calls[..k + 1][..n] == calls[..n];
    assert LocksNothing(calls[..k], n, t) by {
      forall j | n <= j < k ensures !(calls[..k][j].Lock? && calls[..k][j].txn == t) { assert calls[..k][j] == calls[j]; }
    }
    RecordsShrink(noWait, calls[..k], n, t, id, mode);
    OthersLeaveRecords(noWait, Exec(noWait, calls[..k]), calls[k], t, id, mode);
    RecordsShrink(noWait, calls, k + 1, t, id, mode);
  }

  /** From call n on t makes no lock call, and it unlocks every id it has recorded. */
  ghost predicate Releases(noWait: bool, calls: seq<Call>, n: nat, t: nat)
    requires n <= |calls|
  {
    var s := Exec(noWait, calls[..n]);
    && t !in s.waiting && LocksNothing(calls, n, t)
    && forall id, mode {:trigger Recorded(TxnOf(s, t).sets, id, mode)} ::
         Recorded(TxnOf(s, t).sets, id, mode) ==> exists k :: n <= k < |calls| && calls[k] == Unlock(t, id)
  }

  /** Its unlock calls are for ids it has recorded at that time, and nobody sets it aborted. */
  ghost predicate Orderly(noWait: bool, calls: seq<Call>, n: nat, t: nat) {
    forall k {:trigger calls[k]} :: n <= k < |calls| ==>
      && calls[k] != Abort(t)
      && (calls[k].Unlock? && calls[k].txn == t ==>
            exists mode :: Recorded(TxnOf(Exec(noWait, calls[..k]), t).sets, calls[k].id, mode))
  }

  ghost predicate Unharmed(s: System, t: nat) {
    TxnOf(s, t).state != Aborted && OnlyGrants(s.table, TxnOf(s, t).sets, t)
  }

  lemma {:induction false} OthersDoNoHarm(noWait: bool, s: System, call: Call, t: nat)
    requires SystemInv(noWait, s) && t !in s.waiting && Unharmed(s, t) && call.txn != t
    ensures Unharmed(Next(noWait, s, call), t)
  {
    match call
    case Lock(u, i, m) => AcquireEffect(noWait, ViewOf(s, u), u, i, m);
    case Unlock(u, i) => ReleaseEffect(ViewOf(s, u), u, i);
    case Wake(u) => if CanWake(s, u) { WakeTouches(noWait, s, u); }
    case Abort(u) =>
  }

  lemma {:induction false} WakeTouches(noWait: bool, s: System, u: nat)
    requires SystemInv(noWait, s) && CanWake(s, u)
    ensures OnlyTouches(s.table, Next(noWait, s, Wake(u)).table, s.waiting[u].id, u)
  {
    var w := s.waiting[u];
    var q := QueueOf(s.table, w.id);
    assert GoodQueue(q);
    SettleEffect(noWait, ViewOf(s, u), w.id, q, OwnIndex(q.requests, u), w.kind);
  }

  lemma {:induction false} OwnUnlockDoesNoHarm(noWait: bool, s: System, t: nat, id: LockId, mode: LockMode)
    requires SystemInv(noWait, s) && t !in s.waiting && Unharmed(s, t) && Recorded(TxnOf(s, t).sets, id, mode)
    ensures Unharmed(Next(noWait, s, Unlock(t, id)), t)
  {
    ReleaseEffect(ViewOf(s, t), t, id);
    EraseKeepsOthers(TxnOf(s, t).sets, id);
  }

  /** An orderly release never aborts a transaction whose recorded locks are granted. */
  lemma {:induction false} StaysUnharmed(noWait: bool, calls: seq<Call>, n: nat, t: nat)
    requires n <= |calls| && t !in Exec(noWait, calls[..n]).waiting && LocksNothing(calls, n, t)
    requires Orderly(noWait, calls, n, t) && Unharmed(Exec(noWait, calls[..n]), t)
    ensures Unharmed(Exec(noWait, calls), t) && t !in Exec(noWait, calls).waiting
  {
    if n == |calls| {
      assert calls[..n] == calls;
    } else {
      var front, call := calls[..|calls| - 1], calls[|calls| - 1];
      FrontReleases(noWait, calls, n, t);
      StaysUnharmed(noWait, front, n, t);
      RunsKeepInv(noWait, front);
      OrderlyStep(noWait, Exec(noWait, front), call, t);
    }
  }

  lemma {:induction false} FrontReleases(noWait: bool, calls: seq<Call>, n: nat, t: nat)
    requires n < |calls| && LocksNothing(calls, n, t) && Orderly(noWait, calls, n, t)
    ensures var front := calls[..|calls| - 1];
            front[..n] == calls[..n] && LocksNothing(front, n, t) && Orderly(noWait, front, n, t)
  {
    hide Exec;
    var front := calls[..|calls| - 1];
    forall k | n <= k < |front| ensures front[k] == calls[k] && front[..k] == calls[..k] {}
  }

  lemma {:induction false} OrderlyStep(noWait: bool, s: System, call: Call, t: nat)
    requires SystemInv(noWait, s) && t !in s.waiting && Unharmed(s, t)
    requires call != Abort(t) && !(call.Lock? && call.txn == t)
    requires call.Unlock? && call.txn == t ==> exists mode :: Recorded(TxnOf(s, t).sets, call.id, mode)
    ensures Unharmed(Next(noWait, s, call), t) && t !in Next(noWait, s, call).waiting
  {
    if call.txn != t {
      OthersDoNoHarm(noWait, s, call, t);
    } else if call.Unlock? {
      var mode :| Recorded(TxnOf(s, t).sets, call.id, mode);
      OwnUnlockDoesNoHarm(noWait, s, t, call.id, mode);
    }
  }

  /** Nor does any unlock of t, whenever it comes, touch another transaction's request. */
  lemma {:induction false} UnlockTouchesNobody(noWait: bool, calls: seq<Call>, k: nat, t: nat)
    requires k < |calls| && calls[k].Unlock? && calls[k].txn == t
    ensures OthersUntouched(Exec(noWait, calls[..k]).table, Exec(noWait, calls[..k + 1]).table, t)
  {
    assert calls[..k + 1][..k] == calls[..k];
    RunsKeepInv(noWait, calls[..k]);
    ReleaseEffect(ViewOf(Exec(noWait, calls[..k]), t), t, calls[k].id);
  }

  /** Whatever other transactions do between its unlock calls, a transaction that unlocks everything it has recorded,
      and locks nothing more, ends with empty records and without a granted request in any queue; its unlocks touch
      nobody else's requests; and it is not aborted if its records were granted and it unlocks only what is recorded. */
  lemma {:induction false} ReleasedAmongOthers(noWait: bool, calls: seq<Call>, n: nat, t: nat)
    requires n <= |calls| && Releases(noWait, calls, n, t)
    ensures forall id, mode :: !Recorded(TxnOf(Exec(noWait, calls), t).sets, id, mode)
    ensures forall id {:trigger RequestOf(Exec(noWait, calls).table, id, t)} ::
              var r := RequestOf(Exec(noWait, calls).table, id, t); r.Some? ==> !r.value.granted
    ensures forall k {:trigger calls[k]} :: n <= k < |calls| && calls[k].Unlock? && calls[k].txn == t ==>
              OthersUntouched(Exec(noWait, calls[..k]).table, Exec(noWait, calls[..k + 1]).table, t)
    ensures Orderly(noWait, calls, n, t) && Unharmed(Exec(noWait, calls[..n]), t) ==>
              TxnOf(Exec(noWait, calls), t).state != Aborted
  {
    if Orderly(noWait, calls, n, t) && Unharmed(Exec(noWait, calls[..n]), t) { StaysUnharmed(noWait, calls, n, t); }
    RecordsEmptied(noWait, calls, n, t);
    forall k | n <= k < |calls| && calls[k].Unlock? && calls[k].txn == t
      ensures OthersUntouched(Exec(noWait, calls[..k]).table, Exec(noWait, calls[..k + 1]).table, t)
    {
      UnlockTouchesNobody(noWait, calls, k, t);
    }
    RunsKeepInv(noWait, calls);
  }

  lemma {:induction false} RecordsEmptied(noWait: bool, calls: seq<Call>, n: nat, t: nat)
    requires n <= |calls| && Releases(noWait, calls, n, t)
    ensures forall id, mode :: !Recorded(TxnOf(Exec(noWait, calls), t).sets, id, mode)
  {
    var s, end := Exec(noWait, calls[..n]), Exec(noWait, calls);
    forall id, mode ensures !Recorded(TxnOf(end, t).sets, id, mode) {
      RecordsShrink(noWait, calls, n, t, id, mode);
      if Recorded(TxnOf(s, t).sets, id, mode) {
        var k :| n <= k < |calls| && calls[k] == Unlock(t, id);
        UnlockedStaysOut(noWait, calls, n, k, t, id, mode);
      }
    }
  }
}
