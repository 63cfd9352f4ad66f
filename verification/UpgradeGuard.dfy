// Overtaking as a scheduler can see it when it grants a lock: in the queue and
// in the lock sets, where a mode given up for a waiting upgrade is still recorded.
module UpgradeGuard {
  import opened LockModes
  import opened LockModel
  import opened LockEffects
  import opened LockRuns
  import opened TwoPhase
  import opened Serializability

  // ---- lock sets over a run ----

  lemma {:induction false} LockKeepsRecord(noWait: bool, s: System, u: nat, i: LockId, mode: LockMode,
                                           t: nat, id: LockId, m: LockMode)
    requires SystemInv(noWait, s) && Recorded(TxnOf(s, t).sets, id, m)
    ensures Recorded(TxnOf(Next(noWait, s, Lock(u, i, mode)), t).sets, id, m)
  {
    hide Acquire, Recorded;
    AcquireEffect(noWait, ViewOf(s, u), u, i, mode);
    if i.kind == RowLock ==> mode == Shared || mode == Exclusive { AddToRecords(TxnOf(s, u).sets, mode, i); }
  }

  lemma {:induction false} WakeKeepsRecord(noWait: bool, s: System, u: nat, t: nat, id: LockId, m: LockMode)
    requires SystemInv(noWait, s) && Recorded(TxnOf(s, t).sets, id, m) && CanWake(s, u)
    ensures Recorded(TxnOf(Next(noWait, s, Wake(u)), t).sets, id, m)
  {
    hide WakeStep, Settle, Recorded;
    WakeEffect(noWait, s, u);
    AddToRecords(TxnOf(s, u).sets, s.waiting[u].mode, s.waiting[u].id);
  }

  lemma {:induction false} StepKeepsRecord(noWait: bool, s: System, call: Call, t: nat, id: LockId, m: LockMode)
    requires SystemInv(noWait, s) && Recorded(TxnOf(s, t).sets, id, m)
    requires call == Unlock(t, id) ==> t in s.waiting
    ensures Recorded(TxnOf(Next(noWait, s, call), t).sets, id, m)
  {
    hide Acquire, Settle, Recorded;
    match call
    case Lock(u, i, mode) => LockKeepsRecord(noWait, s, u, i, mode, t, id, m);
    case Unlock(u, i) => EraseKeepsOthers(TxnOf(s, u).sets, i);
    case Wake(u) => if CanWake(s, u) { WakeKeepsRecord(noWait, s, u, t, id, m); }
    case Abort(u) =>
  }

  /** A granted mode is recorded until the id is unlocked, also while an upgrade from it waits. */
  lemma {:induction false} RecordedUntilUnlock(noWait: bool, calls: seq<Call>, i: nat, j: nat, t: nat, id: LockId, m: LockMode)
    requires Accesses(noWait, calls, i, t, id, m) && i < j <= |calls|
    requires forall k :: i < k < j ==> !UnlocksId(noWait, calls, k, t, id)
    ensures Recorded(TxnOf(StateAt(noWait, calls, j), t).sets, id, m)
    decreases j
  {
    hide Exec, Next, Accesses;
    OneMore(noWait, calls, j - 1);
    if j == i + 1 {
      AccessEffect(noWait, calls, i, t, id, m);
    } else {
      RecordedUntilUnlock(noWait, calls, i, j - 1, t, id, m);
      assert !UnlocksId(noWait, calls, j - 1, t, id);
      StepKeepsRecord(noWait, StateAt(noWait, calls, j - 1), calls[j - 1], t, id, m);
    }
  }

  lemma {:induction false} AddToAdds(sets: LockSets, mode: LockMode, i: LockId, id: LockId, m: LockMode)
    requires Recorded(AddTo(sets, mode, i), id, m)
    ensures Recorded(sets, id, m) || (id == i && m == mode)
  {
  }

  /** What a call records it has granted. */
  lemma {:induction false} StepRecords(noWait: bool, calls: seq<Call>, n: nat, t: nat, id: LockId, m: LockMode)
    requires n < |calls| && Recorded(TxnOf(StateAt(noWait, calls, n + 1), t).sets, id, m)
    ensures Recorded(TxnOf(StateAt(noWait, calls, n), t).sets, id, m) || Accesses(noWait, calls, n, t, id, m)
  {
    hide Exec, Acquire;
    var s := StateAt(noWait, calls, n);
    OneMore(noWait, calls, n);
    match calls[n]
    case Lock(u, i, mode) =>
      AcquireEffect(noWait, ViewOf(s, u), u, i, mode);
      if u == t && u !in s.waiting && Acquire(noWait, ViewOf(s, u), u, i, mode).outcome == Granted {
        AddToAdds(TxnOf(s, t).sets, mode, i, id, m);
      }
    case Unlock(u, i) =>
      EraseKeepsOthers(TxnOf(s, u).sets, i);
    case Wake(u) =>
      if CanWake(s, u) {
        WakeEffect(noWait, s, u);
        if u == t && WakeStep(noWait, s, u).outcome == Granted {
          AddToAdds(TxnOf(s, t).sets, s.waiting[t].mode, s.waiting[t].id, id, m);
        }
      }
    case Abort(u) =>
  }

  lemma {:induction false} RecordedWasGranted(noWait: bool, calls: seq<Call>, n: nat, t: nat, id: LockId, m: LockMode)
    returns (i: nat)
    requires n <= |calls| && Recorded(TxnOf(StateAt(noWait, calls, n), t).sets, id, m)
    ensures i < n && Accesses(noWait, calls, i, t, id, m)
  {
    StepRecords(noWait, calls, n - 1, t, id, m);
    if Accesses(noWait, calls, n - 1, t, id, m) {
      i := n - 1;
    } else {
      i := RecordedWasGranted(noWait, calls, n - 1, t, id, m);
    }
  }

  // ---- the guard ----

  /** b would get id in mode n, while an upgrade of a from mode m waits there that n conflicts with. */
  predicate PassesOver(s: System, b: nat, id: LockId, n: LockMode, a: nat, m: LockMode) {
    a != b && UpgradingOn(s, a, id) && Recorded(TxnOf(s, a).sets, id, m) && !Compatible(m, n)
  }

  /** Call j does that, and a's upgrade is granted later, at call k. */
  datatype Grant = Grant(b: nat, id: LockId, j: nat, n: LockMode, m: LockMode, k: nat, again: LockMode)

  predicate GrantOver(noWait: bool, calls: seq<Call>, a: nat, g: Grant) {
    && Survives(noWait, calls, g.b) && Accesses(noWait, calls, g.j, g.b, g.id, g.n)
    && PassesOver(StateAt(noWait, calls, g.j), g.b, g.id, g.n, a, g.m)
    && g.j < g.k && Accesses(noWait, calls, g.k, a, g.id, g.again)
  }

  lemma {:induction false} OvertakingIsSeen(noWait: bool, calls: seq<Call>, a: nat, o: Overtaking)
    requires Survives(noWait, calls, a) && Overtakes(noWait, calls, a, o)
    ensures GrantOver(noWait, calls, a, Grant(o.b, o.c.id, o.c.j, o.c.n, o.c.m, o.k, o.again))
  {
    hide Exec, Next;
    OvertakenWhileUpgrading(noWait, calls, a, o);
    KeptUntilLastAccess(noWait, calls, o.c.i, o.c.j, o.k, a, o.c.id, o.c.m, o.again);
    RecordedUntilUnlock(noWait, calls, o.c.i, o.c.j, a, o.c.id, o.c.m);
  }

  /** A survivor is overtaken if and only if some grant to another survivor passed over its waiting upgrade,
      and the upgrade was granted after all. */
  lemma {:induction false} OvertakenAtGrant(noWait: bool, calls: seq<Call>, a: nat)
    requires Survives(noWait, calls, a)
    ensures Overtaken(noWait, calls, a) <==> exists g :: GrantOver(noWait, calls, a, g)
  {
    hide Exec, Next;
    if Overtaken(noWait, calls, a) {
      var o :| Overtakes(noWait, calls, a, o);
      OvertakingIsSeen(noWait, calls, a, o);
    }
    if g :| GrantOver(noWait, calls, a, g) {
      var i := RecordedWasGranted(noWait, calls, g.j, a, g.id, g.m);
      assert Overtakes(noWait, calls, a, Overtaking(g.b, Conflict(g.id, i, g.m, g.j, g.n), g.k, g.again));
    }
  }

  /** No lock is granted over a waiting upgrade. */
  ghost predicate GuardsUpgrades(noWait: bool, calls: seq<Call>) {
    forall j: nat, b, id, n, a, m ::
      Accesses(noWait, calls, j, b, id, n) ==> !PassesOver(StateAt(noWait, calls, j), b, id, n, a, m)
  }

  /** A lock manager that checks this when it grants is serializable in waiting mode, too. */
  lemma {:induction false} GuardedIsSerializable(noWait: bool, calls: seq<Call>)
    requires GuardsUpgrades(noWait, calls)
    ensures Serializable(noWait, calls) && Acyclic(noWait, calls)
  {
    forall a | Survives(noWait, calls, a) ensures !Overtaken(noWait, calls, a) {
      OvertakenAtGrant(noWait, calls, a);
    }
    SerializableExactly(noWait, calls);
  }
}
