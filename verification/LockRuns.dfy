// Invariants over whole runs of the lock manager, and how a request grows.
module LockRuns {
  import opened Options
  import opened LockModes
  import opened LockModel
  import opened LockEffects

  predicate Recorded(sets: LockSets, id: LockId, mode: LockMode) {
    var held := SetFor(sets, id.kind, mode);
    held.Some? && id in held.value
  }

  lemma {:induction false} AddToRecords(sets: LockSets, mode: LockMode, id: LockId)
    requires id.kind == RowLock ==> mode == Shared || mode == Exclusive
    ensures Recorded(AddTo(sets, mode, id), id, mode)
    ensures forall i, m :: Recorded(sets, i, m) ==> Recorded(AddTo(sets, mode, id), i, m)
  {
  }

  lemma {:induction false} EraseKeepsOthers(sets: LockSets, id: LockId)
    ensures forall i, m :: Recorded(EraseFrom(sets, id), i, m) <==> i != id && Recorded(sets, i, m)
  {
  }

  /** Every granted lock is in the lock set of its mode, and its owner has left the default state. */
  ghost predicate Covered(s: System) {
    forall id, t {:trigger RequestOf(s.table, id, t)} ::
      var r := RequestOf(s.table, id, t);
      r.Some? && r.value.granted ==> TxnOf(s, t).state != DefaultState && Recorded(TxnOf(s, t).sets, id, r.value.mode)
  }

  /** Every blocked call has its request queued, ungranted, in the mode it asked for. */
  ghost predicate WaitersQueued(s: System) {
    forall t :: t in s.waiting ==>
      var w := s.waiting[t];
      && RequestOf(s.table, w.id, t) == Some(Request(t, w.mode, false))
      && (TxnOf(s, t).state == Growing || TxnOf(s, t).state == Aborted)
      && (w.id.kind == RowLock ==> w.mode == Shared || w.mode == Exclusive)
  }

  ghost predicate SystemInv(noWait: bool, s: System) {
    && GoodTable(s.table)
    && Covered(s)
    && WaitersQueued(s)
    && (noWait ==> s.waiting == map[])
  }

  /** A step of t on id keeps the lock sets covering, if it does so for t on id. */
  lemma {:induction false} CoveredAfter(s: System, t: nat, id: LockId, v: View)
    requires Covered(s) && OnlyTouches(s.table, v.table, id, t)
    requires TxnOf(s, t).state != DefaultState ==> v.txn.state != DefaultState
    requires forall i, m :: i != id && Recorded(TxnOf(s, t).sets, i, m) ==> Recorded(v.txn.sets, i, m)
    requires var r := RequestOf(v.table, id, t);
             r.Some? && r.value.granted ==> v.txn.state != DefaultState && Recorded(v.txn.sets, id, r.value.mode)
    ensures Covered(WithView(s, t, v))
  {
  }

  /** A step of t does not disturb the other blocked calls. */
  lemma {:induction false} WaitersAfter(s: System, t: nat, id: LockId, v: View)
    requires WaitersQueued(s) && OnlyTouches(s.table, v.table, id, t)
    ensures WaitersQueued(WithView(s, t, v).(waiting := s.waiting - {t}))
  {
  }

  /** The outcome of a lock call or wake-up, whatever computed it. */
  lemma {:induction false} AfterKeepsInv(noWait: bool, s: System, t: nat, id: LockId, mode: LockMode, step: Step)
    requires SystemInv(noWait, s) && GoodTable(step.view.table) && OnlyTouches(s.table, step.view.table, id, t)
    requires TxnOf(s, t).state != DefaultState || step.view.txn.state != DefaultState
    requires step.view.txn.state != DefaultState
    requires id.kind == RowLock ==> mode == Shared || mode == Exclusive || step.outcome == Refused
    requires step.outcome == Granted ==>
               Holds(step.view.table, id, t, mode) && step.view.txn.sets == AddTo(TxnOf(s, t).sets, mode, id)
    requires step.outcome != Granted ==> step.view.txn.sets == TxnOf(s, t).sets
    requires step.outcome != Granted ==>
               var r := RequestOf(step.view.table, id, t);
               r == RequestOf(s.table, id, t) || (r.Some? && !r.value.granted)
    requires step.outcome == Blocked ==>
               !noWait && RequestOf(step.view.table, id, t) == Some(Request(t, mode, false)) && step.view.txn.state == Growing
    ensures SystemInv(noWait, AfterStep(s, t, id, mode, step))
  {
    assert Covered(WithView(s, t, step.view)) by {
      if step.outcome == Granted { AddToRecords(TxnOf(s, t).sets, mode, id); }
      CoveredAfter(s, t, id, step.view);
    }
    hide AddTo, GoodTable, Covered;
    WaitersAfter(s, t, id, step.view);
    var s1 := WithView(s, t, step.view).(waiting := s.waiting - {t});
    if step.outcome == Blocked { WaitersPlus(s1, t, Wait(id, mode, step.kind)); }
    assert s1.waiting[t := Wait(id, mode, step.kind)] == s.waiting[t := Wait(id, mode, step.kind)];
    assert noWait ==> s.waiting - {t} == map[];
  }

  lemma {:induction false} WaitersPlus(s: System, t: nat, w: Wait)
    requires WaitersQueued(s)
    requires RequestOf(s.table, w.id, t) == Some(Request(t, w.mode, false)) && TxnOf(s, t).state == Growing
    requires w.id.kind == RowLock ==> w.mode == Shared || w.mode == Exclusive
    ensures WaitersQueued(s.(waiting := s.waiting[t := w]))
  {
  }

  lemma {:induction false} LockKeepsInv(noWait: bool, s: System, t: nat, id: LockId, mode: LockMode)
    requires SystemInv(noWait, s) && t !in s.waiting
    ensures SystemInv(noWait, Next(noWait, s, Lock(t, id, mode)))
  {
    AcquireKeepsGood(noWait, ViewOf(s, t), t, id, mode);
    AcquireEffect(noWait, ViewOf(s, t), t, id, mode);
    AfterKeepsInv(noWait, s, t, id, mode, Acquire(noWait, ViewOf(s, t), t, id, mode));
  }

  lemma {:induction false} UnlockKeepsInv(noWait: bool, s: System, t: nat, id: LockId)
    requires SystemInv(noWait, s) && t !in s.waiting
    ensures SystemInv(noWait, Next(noWait, s, Unlock(t, id)))
  {
    var v := ViewOf(s, t);
    ReleaseKeepsGood(v, t, id);
    ReleaseEffect(v, t, id);
    EraseKeepsOthers(v.txn.sets, id);
    var v' := Release(v, t, id).0;
    CoveredAfter(s, t, id, v');
    WaitersAfter(s, t, id, v');
    assert s.waiting - {t} == s.waiting;
  }

  lemma {:induction false} WakeKeepsInv(noWait: bool, s: System, t: nat)
    requires SystemInv(noWait, s) && t in s.waiting
    ensures CanWake(s, t)
    ensures SystemInv(noWait, Next(noWait, s, Wake(t)))
  {
    var v, w := ViewOf(s, t), s.waiting[t];
    var q := QueueOf(s.table, w.id);
    var i := OwnIndex(q.requests, t);
    assert RequestOf(s.table, w.id, t).Some?;
    assert GoodQueue(q);
    var step := Settle(noWait, v, w.id, q, i, w.kind);
    SettleKeepsGood(noWait, v, w.id, q, i, w.kind);
    SettleEffect(noWait, v, w.id, q, i, w.kind);
    AfterKeepsInv(noWait, s, t, w.id, w.mode, step);
  }

  /** After every interleaving of lock, unlock, wake-up and abort steps. */
  lemma {:induction false} RunsKeepInv(noWait: bool, calls: seq<Call>)
    ensures SystemInv(noWait, Exec(noWait, calls))
  {
    if calls != [] {
      var s := Exec(noWait, calls[..|calls| - 1]);
      RunsKeepInv(noWait, calls[..|calls| - 1]);
      match calls[|calls| - 1]
      case Lock(t, id, mode) => if t !in s.waiting { LockKeepsInv(noWait, s, t, id, mode); }
      case Unlock(t, id) => if t !in s.waiting { UnlockKeepsInv(noWait, s, t, id); }
      case Wake(t) => if t in s.waiting { WakeKeepsInv(noWait, s, t); }
      case Abort(t) =>
    }
  }

  /** A blocked call ends only when it is woken up itself: refused if its transaction has been aborted, granted if the
      locks of the others are compatible by then. */
  lemma {:induction false} WaitEndsExactly(noWait: bool, calls: seq<Call>, t: nat, call: Call)
    requires t in Exec(noWait, calls).waiting
    ensures var s, s' := Exec(noWait, calls), Exec(noWait, calls + [call]); var w := s.waiting[t];
            && (t !in s'.waiting <==>
                  call == Wake(t) && (TxnOf(s, t).state == Aborted || Free(QueueOf(s.table, w.id), t, w.mode)))
            && (t in s'.waiting ==> s'.waiting[t] == w)
            && (t !in s'.waiting && TxnOf(s, t).state != Aborted ==> Holds(s'.table, w.id, t, w.mode))
  {
    var s := Exec(noWait, calls);
    RunsKeepInv(noWait, calls);
    assert (calls + [call])[..|calls|] == calls;
    if call == Wake(t) { WakeExactly(noWait, s, t); }
    hide Exec, Acquire, Settle, Release, Free;
  }

  lemma {:induction false} WakeExactly(noWait: bool, s: System, t: nat)
    requires SystemInv(noWait, s) && t in s.waiting
    ensures var s', w := Next(noWait, s, Wake(t)), s.waiting[t];
            && (t !in s'.waiting <==> TxnOf(s, t).state == Aborted || Free(QueueOf(s.table, w.id), t, w.mode))
            && (t in s'.waiting ==> s'.waiting[t] == w)
            && (t !in s'.waiting && TxnOf(s, t).state != Aborted ==> Holds(s'.table, w.id, t, w.mode))
  {
    WakeKeepsInv(noWait, s, t);
    var v, w := ViewOf(s, t), s.waiting[t];
    var q := QueueOf(s.table, w.id);
    var i := OwnIndex(q.requests, t);
    assert RequestOf(s.table, w.id, t) == Some(Request(t, w.mode, false));
    assert GoodQueue(q);
    SettleExactly(noWait, v, w.id, q, i, w.kind);
    SettleEffect(noWait, v, w.id, q, i, w.kind);
    hide Settle, Free, SystemInv, OnlyTouches;
  }
}
