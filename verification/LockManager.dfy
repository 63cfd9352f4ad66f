// src/transaction/Lock_manager.cpp as an object. Each method is one critical
// section; it takes the lock table and the caller's transaction exactly where
// the functions of LockModel take them.
module LockManagers {
  import opened LockModes
  import opened LockModel
  import opened LockEffects
  import opened Transactions

  /** checkQueueCompatible */
  method CheckQueueCompatible(rs: seq<Request>, i: nat) returns (ok: bool)
    requires i < |rs|
    ensures ok <==> forall j :: 0 <= j < |rs| && j != i && rs[j].granted ==> Compatible(rs[j].mode, rs[i].mode)
  {
    var j := 0;
    while j < |rs|
      invariant j <= |rs|
      invariant forall k :: 0 <= k < j && k != i && rs[k].granted ==> Compatible(rs[k].mode, rs[i].mode)
    {
      if j != i && rs[j].granted && !Compatible(rs[j].mode, rs[i].mode) {
        return false;
      }
      j := j + 1;
    }
    return true;
  }

  class LockManager {
    const noWait: bool
    var lockMap: LockTable

    constructor (noWait: bool)
      ensures this.noWait == noWait && lockMap == map[]
    {
      this.noWait := noWait;
      lockMap := map[];
    }

    ghost function ViewFor(txn: Transaction): View
      reads this, txn
    {
      View(lockMap, txn.Locking())
    }

    /** lock_map_[id], which creates an empty queue for a new id. */
    method FetchQueue(id: LockId) returns (q: Queue)
      modifies this
      ensures q == QueueOf(old(lockMap), id)
      ensures lockMap == old(lockMap)[id := q]
    {
      if id !in lockMap {
        lockMap := lockMap[id := Queue([], false)];
      }
      q := lockMap[id];
    }

    /** The wait on request i, evaluated once, and the grant that follows it. */
    method Await(txn: Transaction, id: LockId, i: nat, kind: WaitKind) returns (outcome: Outcome)
      requires id in lockMap && i < |lockMap[id].requests|
      modifies this, txn`state
      ensures var step := Settle(noWait, old(ViewFor(txn)), id, old(lockMap[id]), i, kind);
              outcome == step.outcome && lockMap == step.view.table && txn.state == step.view.txn.state
    {
      var q := lockMap[id];
      assert lockMap[id := q] == lockMap;
      var compatible := CheckQueueCompatible(q.requests, i);
      if noWait && !compatible {
        txn.SetState(Aborted);
      }
      if txn.state == Aborted {
        return Refused;
      }
      if !compatible {
        return Blocked;
      }
      if kind == Upgrade {
        q := q.(upgrading := false);
      }
      lockMap := lockMap[id := q.(requests := q.requests[i := q.requests[i].(granted := true)])];
      return Granted;
    }

    /** checkSameTxnLockRequest: whether the transaction already has a request here, and what becomes of it. */
    method CheckSameTxnLockRequest(txn: Transaction, id: LockId, mode: LockMode)
      returns (found: bool, outcome: Outcome)
      requires id in lockMap && txn.state == Growing
      requires id.kind == RowLock ==> mode == Shared || mode == Exclusive
      modifies this, txn`state
      ensures found <==> OwnIndex(old(lockMap[id]).requests, txn.id) < |old(lockMap[id]).requests|
      ensures var step := Acquire(noWait, old(ViewFor(txn)), txn.id, id, mode);
              found ==> outcome == step.outcome && lockMap == step.view.table && txn.state == step.view.txn.state
      ensures !found ==> lockMap == old(lockMap) && txn.state == old(txn.state)
    {
      ghost var v := ViewFor(txn);
      var q := lockMap[id];
      assert lockMap[id := q] == lockMap;
      var i := 0;
      while i < |q.requests| && q.requests[i].txn != txn.id
        invariant i <= OwnIndex(q.requests, txn.id)
      {
        i := i + 1;
      }
      if i == |q.requests| {
        return false, Refused;
      }
      var r := q.requests[i];
      if r.mode == mode && r.granted {
        return true, Granted;
      } else if r.mode == mode {
        outcome := Await(txn, id, i, Repeat);
        return true, outcome;
      } else if q.upgrading || !Upgradable(r.mode, mode) {
        txn.SetState(Aborted);
        return true, Refused;
      }
      lockMap := lockMap[id := Queue(q.requests[i := Request(txn.id, mode, false)], true)];
      SettleOverwrites(noWait, v, ViewFor(txn), id, lockMap[id], i, Upgrade);
      outcome := Await(txn, id, i, Upgrade);
      return true, outcome;
    }

    /** The common part of LockTable, LockPartition and LockRow after their checks. */
    method LockData(txn: Transaction, mode: LockMode, id: LockId) returns (outcome: Outcome)
      requires txn.state == Growing
      requires id.kind == RowLock ==> mode == Shared || mode == Exclusive
      modifies this, txn
      ensures var step := Acquire(noWait, old(ViewFor(txn)), txn.id, id, mode);
              ViewFor(txn) == step.view && outcome == step.outcome
      ensures txn.prevLsn == old(txn.prevLsn) && txn.writeSet == old(txn.writeSet)
    {
      ghost var v := ViewFor(txn);
      var q := FetchQueue(id);
      AcquireFetches(noWait, v, txn.id, id, mode);
      AcquireRecords(noWait, v, txn.id, id, mode);
      ghost var v1 := ViewFor(txn);
      assert v1 == v.(table := SetQueue(v.table, id, q));
      var found, settled := CheckSameTxnLockRequest(txn, id, mode);
      outcome := settled;
      if !found {
        var longer := q.(requests := q.requests + [Request(txn.id, mode, false)]);
        AcquireAppends(noWait, v1, txn.id, id, mode);
        lockMap := lockMap[id := longer];
        SettleOverwrites(noWait, v1, ViewFor(txn), id, longer, |q.requests|, Fresh);
        outcome := Await(txn, id, |q.requests|, Fresh);
      }
      if outcome == Granted {
        txn.AddLockSet(mode, id);
      }
    }

    method LockTable(txn: Transaction, mode: LockMode, oid: int) returns (outcome: Outcome)
      modifies this, txn
      ensures var step := Acquire(noWait, old(ViewFor(txn)), txn.id, TableId(oid), mode);
              ViewFor(txn) == step.view && outcome == step.outcome
      ensures old(GoodTable(lockMap)) ==>
                LockedAs(noWait, old(ViewFor(txn)), txn.id, TableId(oid), mode, ViewFor(txn), outcome)
      ensures txn.prevLsn == old(txn.prevLsn) && txn.writeSet == old(txn.writeSet)
    {
      AcquireStarts(noWait, ViewFor(txn), txn.id, TableId(oid), mode);
      if GoodTable(lockMap) { AcquireExactly(noWait, ViewFor(txn), txn.id, TableId(oid), mode); }
      if txn.state == DefaultState {
        txn.SetState(Growing);
      }
      if txn.state != Growing {
        txn.SetState(Aborted);
        return Refused;
      }
      outcome := LockData(txn, mode, TableId(oid));
    }

    method LockPartition(txn: Transaction, mode: LockMode, oid: int, pid: int) returns (outcome: Outcome)
      modifies this, txn
      ensures var step := Acquire(noWait, old(ViewFor(txn)), txn.id, PartitionId(oid, pid), mode);
              ViewFor(txn) == step.view && outcome == step.outcome
      ensures old(GoodTable(lockMap)) ==>
                LockedAs(noWait, old(ViewFor(txn)), txn.id, PartitionId(oid, pid), mode, ViewFor(txn), outcome)
      ensures txn.prevLsn == old(txn.prevLsn) && txn.writeSet == old(txn.writeSet)
    {
      AcquireStarts(noWait, ViewFor(txn), txn.id, PartitionId(oid, pid), mode);
      if GoodTable(lockMap) { AcquireExactly(noWait, ViewFor(txn), txn.id, PartitionId(oid, pid), mode); }
      if txn.state == DefaultState {
        txn.SetState(Growing);
      }
      if txn.state != Growing {
        txn.SetState(Aborted);
        return Refused;
      }
      outcome := LockData(txn, mode, PartitionId(oid, pid));
    }

    method LockRow(txn: Transaction, mode: LockMode, oid: int, pid: int, rid: int) returns (outcome: Outcome)
      modifies this, txn
      ensures var step := Acquire(noWait, old(ViewFor(txn)), txn.id, RowId(oid, pid, rid), mode);
              ViewFor(txn) == step.view && outcome == step.outcome
      ensures old(GoodTable(lockMap)) ==>
                LockedAs(noWait, old(ViewFor(txn)), txn.id, RowId(oid, pid, rid), mode, ViewFor(txn), outcome)
      ensures txn.prevLsn == old(txn.prevLsn) && txn.writeSet == old(txn.writeSet)
    {
      AcquireStarts(noWait, ViewFor(txn), txn.id, RowId(oid, pid, rid), mode);
      if GoodTable(lockMap) { AcquireExactly(noWait, ViewFor(txn), txn.id, RowId(oid, pid, rid), mode); }
      if txn.state == DefaultState {
        txn.SetState(Growing);
      }
      if txn.state != Growing {
        txn.SetState(Aborted);
        return Refused;
      }
      if mode != Shared && mode != Exclusive {
        txn.SetState(Aborted);
        return Refused;
      }
      outcome := LockData(txn, mode, RowId(oid, pid, rid));
    }

    /** A blocked call woken up: the rest of the lock call it belongs to. */
    method Wake(txn: Transaction, w: Wait) returns (outcome: Outcome)
      requires w.id in lockMap
      requires var rs := lockMap[w.id].requests; var i := OwnIndex(rs, txn.id); i < |rs| && rs[i].mode == w.mode
      modifies this, txn
      ensures var q := old(lockMap[w.id]);
              var step := Settle(noWait, old(ViewFor(txn)), w.id, q, OwnIndex(q.requests, txn.id), w.kind);
              ViewFor(txn) == step.view && outcome == step.outcome
      ensures old(GoodTable(lockMap)) ==>
                var q := old(lockMap[w.id]);
                SettledAs(noWait, old(ViewFor(txn)), w.id, q, OwnIndex(q.requests, txn.id), w.kind, ViewFor(txn), outcome)
      ensures txn.prevLsn == old(txn.prevLsn) && txn.writeSet == old(txn.writeSet)
    {
      if GoodTable(lockMap) {
        SettleExactly(noWait, ViewFor(txn), w.id, lockMap[w.id], OwnIndex(lockMap[w.id].requests, txn.id), w.kind);
      }
      outcome := Await(txn, w.id, OwnIndex(lockMap[w.id].requests, txn.id), w.kind);
      if outcome == Granted {
        txn.AddLockSet(w.mode, w.id);
      }
    }

    /** Unlock: drop the transaction's first granted request, or abort it when there is none. */
    method Unlock(txn: Transaction, id: LockId) returns (ok: bool)
      modifies this, txn`state
      ensures var (v, done) := Release(old(ViewFor(txn)), txn.id, id);
              lockMap == v.table && txn.state == v.txn.state && ok == done
    {
      var q := FetchQueue(id);
      if txn.state == Growing {
        txn.SetState(Shrinking);
      }
      var i := 0;
      while i < |q.requests| && !(q.requests[i].txn == txn.id && q.requests[i].granted)
        invariant i <= GrantedIndex(q.requests, txn.id)
      {
        i := i + 1;
      }
      if i == |q.requests| {
        txn.SetState(Aborted);
        return false;
      }
      lockMap := lockMap[id := q.(requests := q.requests[..i] + q.requests[i + 1..])];
      return true;
    }

    method UnlockData(txn: Transaction, id: LockId)
      modifies this, txn
      ensures ViewFor(txn) == Release(old(ViewFor(txn)), txn.id, id).0
      ensures txn.prevLsn == old(txn.prevLsn) && txn.writeSet == old(txn.writeSet)
    {
      var ok := Unlock(txn, id);
      txn.EraseLock(id);
    }

    method UnLockTable(txn: Transaction, oid: int)
      modifies this, txn
      ensures ViewFor(txn) == Release(old(ViewFor(txn)), txn.id, TableId(oid)).0
      ensures txn.prevLsn == old(txn.prevLsn) && txn.writeSet == old(txn.writeSet)
    {
      UnlockData(txn, TableId(oid));
    }

    method UnLockPartition(txn: Transaction, oid: int, pid: int)
      modifies this, txn
      ensures ViewFor(txn) == Release(old(ViewFor(txn)), txn.id, PartitionId(oid, pid)).0
      ensures txn.prevLsn == old(txn.prevLsn) && txn.writeSet == old(txn.writeSet)
    {
      UnlockData(txn, PartitionId(oid, pid));
    }

    method UnLockRow(txn: Transaction, oid: int, pid: int, rid: int)
      modifies this, txn
      ensures ViewFor(txn) == Release(old(ViewFor(txn)), txn.id, RowId(oid, pid, rid)).0
      ensures txn.prevLsn == old(txn.prevLsn) && txn.writeSet == old(txn.writeSet)
    {
      UnlockData(txn, RowId(oid, pid, rid));
    }
  }

  /** What a wait makes of the table does not depend on the queue it replaces. */
  lemma {:induction false} SettleOverwrites(noWait: bool, v: View, v': View, id: LockId, q: Queue, i: nat, kind: WaitKind)
    requires i < |q.requests| && v'.txn == v.txn && v'.table == SetQueue(v.table, id, q)
    ensures Settle(noWait, v', id, q, i, kind) == Settle(noWait, v, id, q, i, kind)
  {
  }

  /** Creating the queue first makes no difference. */
  lemma {:induction false} AcquireFetches(noWait: bool, v: View, t: nat, id: LockId, mode: LockMode)
    requires v.txn.state == Growing && (id.kind == RowLock ==> mode == Shared || mode == Exclusive)
    ensures Acquire(noWait, v.(table := SetQueue(v.table, id, QueueOf(v.table, id))), t, id, mode)
            == Acquire(noWait, v, t, id, mode)
  {
    var q := QueueOf(v.table, id);
    var v' := v.(table := SetQueue(v.table, id, q));
    var i := OwnIndex(q.requests, t);
    assert QueueOf(v'.table, id) == q && v'.table[id := q] == v.table[id := q];
    if i < |q.requests| {
      SettleFetches(noWait, v, id, q, i, Repeat);
      SettleFetches(noWait, v, id, Queue(q.requests[i := Request(t, mode, false)], true), i, Upgrade);
    } else {
      SettleFetches(noWait, v, id, q.(requests := q.requests + [Request(t, mode, false)]), i, Fresh);
    }
    hide Settle;
  }

  lemma {:induction false} SettleFetches(noWait: bool, v: View, id: LockId, q: Queue, i: nat, kind: WaitKind)
    requires i < |q.requests|
    ensures Settle(noWait, v.(table := SetQueue(v.table, id, QueueOf(v.table, id))), id, q, i, kind)
            == Settle(noWait, v, id, q, i, kind)
  {
    var table := SetQueue(v.table, id, QueueOf(v.table, id));
    assert forall p :: SetQueue(table, id, p) == SetQueue(v.table, id, p);
  }

  lemma {:induction false} AcquireAppends(noWait: bool, v: View, t: nat, id: LockId, mode: LockMode)
    requires v.txn.state == Growing && (id.kind == RowLock ==> mode == Shared || mode == Exclusive)
    requires var rs := QueueOf(v.table, id).requests; OwnIndex(rs, t) == |rs|
    ensures var q := QueueOf(v.table, id);
            Acquire(noWait, v, t, id, mode)
            == Settle(noWait, v, id, q.(requests := q.requests + [Request(t, mode, false)]), |q.requests|, Fresh)
  {
  }

  /** The lock set of the mode is extended exactly when the lock is granted. */
  lemma {:induction false} AcquireRecords(noWait: bool, v: View, t: nat, id: LockId, mode: LockMode)
    ensures var step := Acquire(noWait, v, t, id, mode);
            step.view.txn.sets == if step.outcome == Granted then AddTo(v.txn.sets, mode, id) else v.txn.sets
  {
  }

  /** The checks before the queue is touched. */
  lemma {:induction false} AcquireStarts(noWait: bool, v: View, t: nat, id: LockId, mode: LockMode)
    ensures v.txn.state == DefaultState ==>
              Acquire(noWait, v, t, id, mode) == Acquire(noWait, v.(txn := v.txn.(state := Growing)), t, id, mode)
    ensures v.txn.state != DefaultState && v.txn.state != Growing ==>
              Acquire(noWait, v, t, id, mode) == Step(v.(txn := v.txn.(state := Aborted)), Refused, Fresh)
    ensures id.kind == RowLock && mode != Shared && mode != Exclusive ==>
              Acquire(noWait, v, t, id, mode) == Step(v.(txn := v.txn.(state := Aborted)), Refused, Fresh)
  {
  }
}
