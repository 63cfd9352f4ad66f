// Two-phase locking, waiting or not: what a surviving transaction has accessed it
// keeps until it unlocks it, but for the time an upgrade of it has to wait.
module TwoPhase {
  import opened LockModes
  import opened LockModel
  import opened LockEffects
  import opened LockRuns

  function StateAt(noWait: bool, calls: seq<Call>, n: nat): System
    requires n <= |calls|
  {
    Exec(noWait, calls[..n])
  }

  /** What re-evaluating t's wait leads to. */
  function WakeStep(noWait: bool, s: System, t: nat): Step
    requires CanWake(s, t)
  {
    var w := s.waiting[t];
    var q := QueueOf(s.table, w.id);
    Settle(noWait, ViewOf(s, t), w.id, q, OwnIndex(q.requests, t), w.kind)
  }

  /** Call n gets t its lock on id: a lock call that returns true, or the wake-up of one that had to wait. */
  predicate Accesses(noWait: bool, calls: seq<Call>, n: nat, t: nat, id: LockId, mode: LockMode) {
    n < |calls| &&
    var s := StateAt(noWait, calls, n);
    match calls[n]
    case Lock(u, i, m) =>
      u == t && i == id && m == mode && t !in s.waiting && Acquire(noWait, ViewOf(s, t), t, id, mode).outcome == Granted
    case Wake(u) =>
      u == t && CanWake(s, t) && s.waiting[t].id == id && s.waiting[t].mode == mode && WakeStep(noWait, s, t).outcome == Granted
    case _ => false
  }

  lemma {:induction false} OneAtATime(noWait: bool, calls: seq<Call>, n: nat, a: nat, b: nat,
                                      id: LockId, id': LockId, m: LockMode, m': LockMode)
    requires Accesses(noWait, calls, n, a, id, m) && Accesses(noWait, calls, n, b, id', m')
    ensures a == b
  {
  }

  /** Call n is an unlock call of t; a blocked transaction makes none. */
  predicate Unlocks(noWait: bool, calls: seq<Call>, n: nat, t: nat) {
    n < |calls| && calls[n].Unlock? && calls[n].txn == t && t !in StateAt(noWait, calls, n).waiting
  }

  predicate UnlocksId(noWait: bool, calls: seq<Call>, n: nat, t: nat, id: LockId) {
    Unlocks(noWait, calls, n, t) && calls[n].id == id
  }

  predicate Survives(noWait: bool, calls: seq<Call>, t: nat) {
    TxnOf(Exec(noWait, calls), t).state != Aborted
  }

  predicate Upgrading(s: System, t: nat) {
    t in s.waiting && s.waiting[t].kind == Upgrade
  }

  lemma {:induction false} OneMore(noWait: bool, calls: seq<Call>, n: nat)
    requires n < |calls|
    ensures StateAt(noWait, calls, n + 1) == Next(noWait, StateAt(noWait, calls, n), calls[n])
    ensures SystemInv(noWait, StateAt(noWait, calls, n)) && SystemInv(noWait, StateAt(noWait, calls, n + 1))
  {
    assert calls[..n + 1][..n] == calls[..n];
    RunsKeepInv(noWait, calls[..n]);
    RunsKeepInv(noWait, calls[..n + 1]);
  }

  // ---- no way back ----

  /** t has left its growing phase and is not in a call. */
  predicate Past(s: System, t: nat) {
    TxnOf(s, t).state != DefaultState && TxnOf(s, t).state != Growing && t !in s.waiting
  }

  lemma {:induction false} WakeEffect(noWait: bool, s: System, t: nat)
    requires SystemInv(noWait, s) && CanWake(s, t)
    ensures var w, step := s.waiting[t], WakeStep(noWait, s, t);
            && Next(noWait, s, Wake(t)) == AfterStep(s, t, w.id, w.mode, step)
            && OnlyTouches(s.table, step.view.table, w.id, t)
            && (step.outcome == Granted ==> Holds(step.view.table, w.id, t, w.mode) && TxnOf(s, t).state != Aborted)
            && (TxnOf(s, t).state == Aborted ==> step.view.txn.state == Aborted)
            && (step.outcome == Refused ==> step.view.txn.state == Aborted)
            && (step.outcome != Granted ==> RequestOf(step.view.table, w.id, t) == RequestOf(s.table, w.id, t))
            && step.kind == w.kind
            && step.view.txn.sets == (if step.outcome == Granted then AddTo(TxnOf(s, t).sets, w.mode, w.id) else TxnOf(s, t).sets)
  {
    var w := s.waiting[t];
    var q := QueueOf(s.table, w.id);
    assert GoodQueue(q);
    SettleEffect(noWait, ViewOf(s, t), w.id, q, OwnIndex(q.requests, t), w.kind);
  }

  /** Neither out of the aborted state nor back into the growing phase. */
  predicate NoWayBack(s: System, s': System, t: nat) {
    && (TxnOf(s, t).state == Aborted ==> TxnOf(s', t).state == Aborted)
    && (Past(s, t) ==> Past(s', t))
  }

  lemma {:induction false} LockNeverGrowsBack(noWait: bool, s: System, u: nat, id: LockId, mode: LockMode, t: nat)
    requires SystemInv(noWait, s)
    ensures NoWayBack(s, Next(noWait, s, Lock(u, id, mode)), t)
  {
    AcquireEffect(noWait, ViewOf(s, u), u, id, mode);
  }

  lemma {:induction false} StepNeverGrowsBack(noWait: bool, s: System, call: Call, t: nat)
    requires SystemInv(noWait, s)
    ensures NoWayBack(s, Next(noWait, s, call), t)
  {
    hide Acquire, Release, Settle;
    match call
    case Lock(u, i, mode) => LockNeverGrowsBack(noWait, s, u, i, mode, t);
    case Unlock(u, i) => ReleaseEffect(ViewOf(s, u), u, i);
    case Wake(u) => if CanWake(s, u) { WakeEffect(noWait, s, u); }
    case Abort(u) =>
  }

  lemma {:induction false} NeverGrowsBack(noWait: bool, calls: seq<Call>, n: nat, m: nat, t: nat)
    requires n <= m <= |calls|
    ensures NoWayBack(StateAt(noWait, calls, n), StateAt(noWait, calls, m), t)
    decreases m
  {
    hide Exec, Next;
    if n < m {
      NeverGrowsBack(noWait, calls, n, m - 1, t);
      OneMore(noWait, calls, m - 1);
      StepNeverGrowsBack(noWait, StateAt(noWait, calls, m - 1), calls[m - 1], t);
    }
  }

  lemma {:induction false} SurvivesThroughout(noWait: bool, calls: seq<Call>, n: nat, t: nat)
    requires n <= |calls| && Survives(noWait, calls, t)
    ensures TxnOf(StateAt(noWait, calls, n), t).state != Aborted
  {
    NeverGrowsBack(noWait, calls, n, |calls|, t);
    assert calls[..|calls|] == calls;
  }

  lemma {:induction false} PastAfterUnlock(noWait: bool, calls: seq<Call>, k: nat, t: nat)
    requires Unlocks(noWait, calls, k, t) && Survives(noWait, calls, t)
    ensures Past(StateAt(noWait, calls, k + 1), t)
  {
    OneMore(noWait, calls, k);
    SurvivesThroughout(noWait, calls, k + 1, t);
    ReleaseEffect(ViewOf(StateAt(noWait, calls, k), t), t, calls[k].id);
  }

  /** Two-phase: a surviving transaction gets no lock after its first unlock. */
  lemma {:induction false} NoAccessAfterUnlock(noWait: bool, calls: seq<Call>, k: nat, j: nat, t: nat,
                                               id: LockId, mode: LockMode)
    requires Unlocks(noWait, calls, k, t) && Survives(noWait, calls, t)
    requires Accesses(noWait, calls, j, t, id, mode)
    ensures j < k
  {
    if k < j {
      PastAfterUnlock(noWait, calls, k, t);
      NeverGrowsBack(noWait, calls, k + 1, j, t);
      OneMore(noWait, calls, j);
      AcquireEffect(noWait, ViewOf(StateAt(noWait, calls, j), t), t, id, mode);
    }
  }

  // ---- holding on ----

  predicate UpgradingOn(s: System, t: nat, id: LockId) {
    Upgrading(s, t) && s.waiting[t].id == id
  }

  /** t's request on id excludes everything mode excludes; it is granted, or an upgrade that waits. */
  ghost predicate Keeps(s: System, id: LockId, t: nat, mode: LockMode) {
    var r := RequestOf(s.table, id, t);
    r.Some? && Conflicts(mode) <= Conflicts(r.value.mode) && (r.value.granted || UpgradingOn(s, t, id))
  }

  /** Only an upgrade makes a transaction wait on an id it holds. */
  lemma {:induction false} HolderWaitsForUpgrade(noWait: bool, v: View, t: nat, id: LockId, mode: LockMode)
    requires var r := RequestOf(v.table, id, t); r.Some? && r.value.granted
    requires Acquire(noWait, v, t, id, mode).outcome == Blocked
    ensures Acquire(noWait, v, t, id, mode).kind == Upgrade
  {
  }

  lemma {:induction false} OwnLockKeeps(noWait: bool, s: System, t: nat, id: LockId, m: LockMode, mode: LockMode)
    requires SystemInv(noWait, s) && Keeps(s, id, t, mode) && t !in s.waiting
    requires TxnOf(Next(noWait, s, Lock(t, id, m)), t).state != Aborted
    ensures Keeps(Next(noWait, s, Lock(t, id, m)), id, t, mode)
  {
    hide Acquire;
    var step := Acquire(noWait, ViewOf(s, t), t, id, m);
    AcquireEffect(noWait, ViewOf(s, t), t, id, m);
    if step.outcome == Blocked { HolderWaitsForUpgrade(noWait, ViewOf(s, t), t, id, m); }
    UpgradeEnlarges(RequestOf(s.table, id, t).value.mode, m);
  }

  lemma {:induction false} LockKeeps(noWait: bool, s: System, u: nat, i: LockId, m: LockMode, id: LockId, t: nat, mode: LockMode)
    requires SystemInv(noWait, s) && Keeps(s, id, t, mode) && u !in s.waiting && (u != t || i != id)
    ensures Keeps(Next(noWait, s, Lock(u, i, m)), id, t, mode)
  {
    hide Acquire, Conflicts;
    AcquireEffect(noWait, ViewOf(s, u), u, i, m);
  }

  lemma {:induction false} OwnWakeKeeps(noWait: bool, s: System, id: LockId, t: nat, mode: LockMode)
    requires SystemInv(noWait, s) && Keeps(s, id, t, mode) && CanWake(s, t)
    requires TxnOf(Next(noWait, s, Wake(t)), t).state != Aborted
    ensures Keeps(Next(noWait, s, Wake(t)), id, t, mode)
  {
    hide WakeStep, Settle, Conflicts;
    WakeEffect(noWait, s, t);
  }

  lemma {:induction false} WakeKeeps(noWait: bool, s: System, u: nat, id: LockId, t: nat, mode: LockMode)
    requires SystemInv(noWait, s) && Keeps(s, id, t, mode) && CanWake(s, u) && u != t
    ensures Keeps(Next(noWait, s, Wake(u)), id, t, mode)
  {
    hide WakeStep, Settle, Conflicts;
    WakeEffect(noWait, s, u);
  }

  lemma {:induction false} UnlockKeeps(noWait: bool, s: System, u: nat, i: LockId, id: LockId, t: nat, mode: LockMode)
    requires SystemInv(noWait, s) && Keeps(s, id, t, mode)
    requires u == t && i == id ==> t in s.waiting
    ensures Keeps(Next(noWait, s, Unlock(u, i)), id, t, mode)
  {
    ReleaseEffect(ViewOf(s, u), u, i);
    hide Release, Conflicts, QueueOf;
  }

  lemma {:induction false} StepKeeps(noWait: bool, s: System, call: Call, id: LockId, t: nat, mode: LockMode)
    requires SystemInv(noWait, s) && Keeps(s, id, t, mode)
    requires call == Unlock(t, id) ==> t in s.waiting
    requires TxnOf(Next(noWait, s, call), t).state != Aborted
    ensures Keeps(Next(noWait, s, call), id, t, mode)
  {
    hide Acquire, Release, Settle, Conflicts;
    match call
    case Lock(u, i, m) =>
      if u !in s.waiting {
        if u == t && i == id { OwnLockKeeps(noWait, s, t, id, m, mode); } else { LockKeeps(noWait, s, u, i, m, id, t, mode); }
      }
    case Unlock(u, i) => UnlockKeeps(noWait, s, u, i, id, t, mode);
    case Wake(u) =>
      if CanWake(s, u) {
        if u == t { OwnWakeKeeps(noWait, s, id, t, mode); } else { WakeKeeps(noWait, s, u, id, t, mode); }
      }
    case Abort(u) =>
  }

  lemma {:induction false} AccessEffect(noWait: bool, calls: seq<Call>, n: nat, t: nat, id: LockId, mode: LockMode)
    requires Accesses(noWait, calls, n, t, id, mode)
    ensures Holds(StateAt(noWait, calls, n + 1).table, id, t, mode)
    ensures t !in StateAt(noWait, calls, n + 1).waiting
    ensures OnlyTouches(StateAt(noWait, calls, n).table, StateAt(noWait, calls, n + 1).table, id, t)
  {
    OneMore(noWait, calls, n);
    var s := StateAt(noWait, calls, n);
    if calls[n].Lock? {
      AcquireEffect(noWait, ViewOf(s, t), t, id, mode);
    } else {
      WakeEffect(noWait, s, t);
    }
  }

  /** What a surviving transaction has accessed it keeps until it unlocks that id. */
  lemma {:induction false} HeldUntilUnlock(noWait: bool, calls: seq<Call>, i: nat, j: nat, t: nat, id: LockId, mode: LockMode)
    requires Accesses(noWait, calls, i, t, id, mode) && Survives(noWait, calls, t)
    requires i < j <= |calls| && forall k :: i < k < j ==> !UnlocksId(noWait, calls, k, t, id)
    ensures Keeps(StateAt(noWait, calls, j), id, t, mode)
    decreases j
  {
    hide Exec, Next, Conflicts;
    if j == i + 1 {
      AccessEffect(noWait, calls, i, t, id, mode);
    } else {
      HeldUntilUnlock(noWait, calls, i, j - 1, t, id, mode);
      OneMore(noWait, calls, j - 1);
      SurvivesThroughout(noWait, calls, j, t);
      assert !UnlocksId(noWait, calls, j - 1, t, id);
      StepKeeps(noWait, StateAt(noWait, calls, j - 1), calls[j - 1], id, t, mode);
    }
  }

  lemma {:induction false} BothGranted(rs: seq<Request>, a: nat, b: nat)
    requires GrantedCompatible(rs) && a != b
    requires var ra, rb := RequestIn(rs, a), RequestIn(rs, b);
             ra.Some? && rb.Some? && ra.value.granted && rb.value.granted
    ensures Compatible(RequestIn(rs, a).value.mode, RequestIn(rs, b).value.mode)
  {
  }

  /** If a accesses id before b does, in conflicting modes, then in between a unlocks it, or else its upgrade is waiting. */
  lemma {:induction false} UnlockInBetween(noWait: bool, calls: seq<Call>, i: nat, j: nat, a: nat, b: nat,
                                           id: LockId, m: LockMode, n: LockMode)
    requires Accesses(noWait, calls, i, a, id, m) && Accesses(noWait, calls, j, b, id, n)
    requires i < j && a != b && !Compatible(m, n) && Survives(noWait, calls, a)
    ensures (exists k :: i < k < j && UnlocksId(noWait, calls, k, a, id)) || UpgradingOn(StateAt(noWait, calls, j), a, id)
  {
    hide Exec, Next, Acquire, Settle;
    var s := StateAt(noWait, calls, j);
    if (forall k :: i < k < j ==> !UnlocksId(noWait, calls, k, a, id)) && !UpgradingOn(s, a, id) {
      HeldUntilUnlock(noWait, calls, i, j, a, id, m);
      OneMore(noWait, calls, j);
      AccessEffect(noWait, calls, j, b, id, n);
      var s' := StateAt(noWait, calls, j + 1);
      var held := RequestOf(s.table, id, a).value.mode;
      assert RequestOf(s'.table, id, a) == RequestOf(s.table, id, a);
      ConflictsAreIncompatible(m, n);
      ConflictsAreIncompatible(held, n);
      BothGranted(QueueOf(s'.table, id).requests, a, b);
    }
  }

  // ---- waiting on ----

  predicate NoAccessIn(noWait: bool, calls: seq<Call>, j: nat, k: nat, t: nat, id: LockId) {
    forall p: nat, m :: j <= p < k ==> !Accesses(noWait, calls, p, t, id, m)
  }

  /** An upgrade that waits is granted later, or waits to the end. */
  lemma {:induction false} UpgradeWaitsOn(noWait: bool, calls: seq<Call>, j: nat, k: nat, t: nat, id: LockId)
    requires j <= k <= |calls| && Survives(noWait, calls, t) && UpgradingOn(StateAt(noWait, calls, j), t, id)
    requires NoAccessIn(noWait, calls, j, k, t, id)
    ensures UpgradingOn(StateAt(noWait, calls, k), t, id)
    decreases k
  {
    hide Exec, Next, Accesses;
    if j < k {
      UpgradeWaitsOn(noWait, calls, j, k - 1, t, id);
      WaitsOneMore(noWait, calls, k - 1, t, id);
    }
  }

  lemma {:induction false} WaitsOneMore(noWait: bool, calls: seq<Call>, p: nat, t: nat, id: LockId)
    requires p < |calls| && Survives(noWait, calls, t) && UpgradingOn(StateAt(noWait, calls, p), t, id)
    requires NoAccessIn(noWait, calls, p, p + 1, t, id)
    ensures UpgradingOn(StateAt(noWait, calls, p + 1), t, id)
  {
    OneMore(noWait, calls, p);
    SurvivesThroughout(noWait, calls, p + 1, t);
    var s := StateAt(noWait, calls, p);
    assert !Accesses(noWait, calls, p, t, id, s.waiting[t].mode);
    StillUpgrading(noWait, s, calls[p], t, id);
  }

  lemma {:induction false} StillUpgrading(noWait: bool, s: System, call: Call, t: nat, id: LockId)
    requires SystemInv(noWait, s) && UpgradingOn(s, t, id) && TxnOf(Next(noWait, s, call), t).state != Aborted
    requires call == Wake(t) && CanWake(s, t) ==> WakeStep(noWait, s, t).outcome != Granted
    ensures UpgradingOn(Next(noWait, s, call), t, id)
  {
    hide Acquire, Release, Settle;
    if call == Wake(t) && CanWake(s, t) { WakeEffect(noWait, s, t); }
  }
}
