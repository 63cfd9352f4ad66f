// Why serializability needs that no upgrade waits: a run of the lock manager in
// waiting mode whose conflict graph has a cycle of transactions that survive.
module WaitingUpgrades {
  import opened LockModes
  import opened LockModel
  import opened TwoPhase
  import opened Serializability

  /** 3 holds a table in mode IS and 1 in mode S. 1 asks for X, gives up S and waits for 3. Now 2 gets IX, which S
      would have kept out, and unlocks; 3 unlocks; 1 is woken and gets X. */
  function Calls(x: LockId): seq<Call> {
    [Lock(3, x, IntentionShared), Lock(1, x, Shared), Lock(1, x, Exclusive), Lock(2, x, IntentionExclusive),
     Unlock(2, x), Unlock(3, x), Wake(1)]
  }

  function Holding(state: TxnState, x: LockId, mode: LockMode): Txn {
    Txn(state, AddTo(NO_LOCKS, mode, x))
  }

  /** The state after the first n calls. */
  function After(x: LockId, n: nat): System {
    var r3, r2 := Request(3, IntentionShared, true), Request(2, IntentionExclusive, true);
    var t3, t2, t1 := Holding(Growing, x, IntentionShared), Holding(Growing, x, IntentionExclusive), Holding(Growing, x, Shared);
    var gone := Txn(Shrinking, NO_LOCKS);
    var w := map[1 := Wait(x, Exclusive, Upgrade)];
    if n == 0 then INITIAL
    else if n == 1 then System(map[x := Queue([r3], false)], map[3 := t3], map[])
    else if n == 2 then System(map[x := Queue([r3, Request(1, Shared, true)], false)], map[3 := t3, 1 := t1], map[])
    else if n == 3 then System(map[x := Queue([r3, Request(1, Exclusive, false)], true)], map[3 := t3, 1 := t1], w)
    else if n == 4 then
      System(map[x := Queue([r3, Request(1, Exclusive, false), r2], true)], map[3 := t3, 1 := t1, 2 := t2], w)
    else if n == 5 then
      System(map[x := Queue([r3, Request(1, Exclusive, false)], true)], map[3 := t3, 1 := t1, 2 := gone], w)
    else if n == 6 then
      System(map[x := Queue([Request(1, Exclusive, false)], true)], map[3 := gone, 1 := t1, 2 := gone], w)
    else
      System(map[x := Queue([Request(1, Exclusive, true)], false)],
             map[3 := gone, 1 := Txn(Growing, AddTo(t1.sets, Exclusive, x)), 2 := gone], map[])
  }

  /** A first request that nothing granted excludes. */
  lemma {:induction false} LockFresh(s: System, x: LockId, t: nat, mode: LockMode)
    requires x.kind == TableLock && t !in s.waiting
    requires TxnOf(s, t).state == DefaultState || TxnOf(s, t).state == Growing
    requires var rs := QueueOf(s.table, x).requests;
             OwnIndex(rs, t) == |rs| && forall j :: 0 <= j < |rs| && rs[j].granted ==> Compatible(rs[j].mode, mode)
    ensures var q := QueueOf(s.table, x);
            Next(false, s, Lock(t, x, mode)) ==
              System(s.table[x := Queue(q.requests + [Request(t, mode, true)], q.upgrading)],
                     s.txns[t := Txn(Growing, AddTo(TxnOf(s, t).sets, mode, x))], s.waiting)
    ensures Acquire(false, ViewOf(s, t), t, x, mode).outcome == Granted
  {
    var q := QueueOf(s.table, x);
    var rs := q.requests + [Request(t, mode, false)];
    assert QueueCompatible(rs, |q.requests|);
    assert rs[|q.requests| := rs[|q.requests|].(granted := true)] == q.requests + [Request(t, mode, true)];
    assert s.waiting - {t} == s.waiting;
  }

  /** An unlock of the i-th request. */
  lemma {:induction false} UnlockAt(s: System, x: LockId, t: nat, i: nat)
    requires x in s.table && t !in s.waiting && TxnOf(s, t).state == Growing
    requires i < |s.table[x].requests| && GrantedIndex(s.table[x].requests, t) == i
    ensures var q := s.table[x];
            Next(false, s, Unlock(t, x)) ==
              System(s.table[x := q.(requests := q.requests[..i] + q.requests[i + 1..])],
                     s.txns[t := Txn(Shrinking, EraseFrom(TxnOf(s, t).sets, x))], s.waiting)
  {
  }

  lemma {:induction false} Step0(x: LockId)
    requires x.kind == TableLock
    ensures Next(false, After(x, 0), Calls(x)[0]) == After(x, 1)
  {
    LockFresh(INITIAL, x, 3, IntentionShared);
    assert [] + [Request(3, IntentionShared, true)] == [Request(3, IntentionShared, true)];
  }

  lemma {:induction false} Step1(x: LockId)
    requires x.kind == TableLock
    ensures Next(false, After(x, 1), Calls(x)[1]) == After(x, 2)
    ensures Acquire(false, ViewOf(After(x, 1), 1), 1, x, Shared).outcome == Granted
  {
    var rs := [Request(3, IntentionShared, true)];
    assert rs[1..] == [] && OwnIndex(rs, 1) == 1;
    LockFresh(After(x, 1), x, 1, Shared);
    assert rs + [Request(1, Shared, true)] == [Request(3, IntentionShared, true), Request(1, Shared, true)];
  }

  lemma {:induction false} Step2(x: LockId)
    requires x.kind == TableLock
    ensures Next(false, After(x, 2), Calls(x)[2]) == After(x, 3)
  {
    var s := After(x, 2);
    var q := s.table[x];
    assert OwnIndex(q.requests[1..], 1) == 0 && OwnIndex(q.requests, 1) == 1;
    var rs := q.requests[1 := Request(1, Exclusive, false)];
    assert rs == [Request(3, IntentionShared, true), Request(1, Exclusive, false)];
    assert !QueueCompatible(rs, 1) by { assert rs[0].granted && !Compatible(rs[0].mode, rs[1].mode); }
    var step := Acquire(false, ViewOf(s, 1), 1, x, Exclusive);
    assert step == Step(View(s.table[x := Queue(rs, true)], TxnOf(s, 1)), Blocked, Upgrade);
    assert s.txns[1 := s.txns[1]] == s.txns;
  }

  lemma {:induction false} Step3(x: LockId)
    requires x.kind == TableLock
    ensures Next(false, After(x, 3), Calls(x)[3]) == After(x, 4)
    ensures Acquire(false, ViewOf(After(x, 3), 2), 2, x, IntentionExclusive).outcome == Granted
  {
    var rs := After(x, 3).table[x].requests;
    assert rs[1..][1..] == [] && OwnIndex(rs[1..], 2) == 1 && OwnIndex(rs, 2) == 2;
    LockFresh(After(x, 3), x, 2, IntentionExclusive);
    assert rs + [Request(2, IntentionExclusive, true)] == After(x, 4).table[x].requests;
  }

  lemma {:induction false} Step4(x: LockId)
    requires x.kind == TableLock
    ensures Next(false, After(x, 4), Calls(x)[4]) == After(x, 5)
  {
    var rs := After(x, 4).table[x].requests;
    assert GrantedIndex(rs[1..][1..], 2) == 0 && GrantedIndex(rs[1..], 2) == 1 && GrantedIndex(rs, 2) == 2;
    UnlockAt(After(x, 4), x, 2, 2);
    assert rs[..2] + rs[3..] == After(x, 5).table[x].requests;
    assert EraseFrom(AddTo(NO_LOCKS, IntentionExclusive, x), x) == NO_LOCKS;
  }

  lemma {:induction false} Step5(x: LockId)
    requires x.kind == TableLock
    ensures Next(false, After(x, 5), Calls(x)[5]) == After(x, 6)
  {
    var rs := After(x, 5).table[x].requests;
    assert GrantedIndex(rs, 3) == 0;
    UnlockAt(After(x, 5), x, 3, 0);
    assert rs[..0] + rs[1..] == After(x, 6).table[x].requests;
    assert EraseFrom(AddTo(NO_LOCKS, IntentionShared, x), x) == NO_LOCKS;
  }

  lemma {:induction false} Step6(x: LockId)
    requires x.kind == TableLock
    ensures CanWake(After(x, 6), 1) && WakeStep(false, After(x, 6), 1).outcome == Granted
    ensures Next(false, After(x, 6), Calls(x)[6]) == After(x, 7)
  {
    var s := After(x, 6);
    var q := s.table[x];
    assert OwnIndex(q.requests, 1) == 0 && QueueCompatible(q.requests, 0);
    assert q.requests[0 := q.requests[0].(granted := true)] == [Request(1, Exclusive, true)];
    var step := WakeStep(false, s, 1);
    assert step.view == View(s.table[x := Queue([Request(1, Exclusive, true)], false)],
                             Txn(Growing, AddTo(TxnOf(s, 1).sets, Exclusive, x)));
    assert s.waiting - {1} == map[];
  }

  lemma {:induction false} OneStep(x: LockId, n: nat)
    requires x.kind == TableLock && n < 7
    ensures Next(false, After(x, n), Calls(x)[n]) == After(x, n + 1)
  {
    if n == 0 { Step0(x); } else if n == 1 { Step1(x); } else if n == 2 { Step2(x); } else if n == 3 { Step3(x); }
    else if n == 4 { Step4(x); } else if n == 5 { Step5(x); } else { Step6(x); }
  }

  lemma {:induction false} RunIs(x: LockId, n: nat)
    requires x.kind == TableLock && n <= 7
    ensures StateAt(false, Calls(x), n) == After(x, n)
  {
    if n > 0 {
      RunIs(x, n - 1);
      assert Calls(x)[..n][..n - 1] == Calls(x)[..n - 1];
      OneStep(x, n - 1);
    }
  }

  lemma {:induction false} AllAccess(x: LockId)
    requires x.kind == TableLock
    ensures Accesses(false, Calls(x), 1, 1, x, Shared)
    ensures Accesses(false, Calls(x), 3, 2, x, IntentionExclusive)
    ensures Accesses(false, Calls(x), 6, 1, x, Exclusive)
  {
    RunIs(x, 1);
    Step1(x);
    RunIs(x, 3);
    Step3(x);
    RunIs(x, 6);
    Step6(x);
  }

  lemma {:induction false} AllSurvive(x: LockId)
    requires x.kind == TableLock
    ensures Survives(false, Calls(x), 1) && Survives(false, Calls(x), 2) && !Steady(false, Calls(x), 1)
  {
    RunIs(x, 7);
    RunIs(x, 3);
    hide Exec, Next;
    assert Calls(x)[..7] == Calls(x);
    assert Upgrading(StateAt(false, Calls(x), 3), 1);
  }

  /** Both survive, and each must come before the other: 1's S before 2's IX before 1's X. */
  lemma {:induction false} WaitingUpgradeCycle(x: LockId)
    requires x.kind == TableLock
    ensures Survives(false, Calls(x), 1) && Survives(false, Calls(x), 2) && !Steady(false, Calls(x), 1)
    ensures Precedes(false, Calls(x), 1, 2) && Precedes(false, Calls(x), 2, 1)
    ensures Overtaken(false, Calls(x), 1) && !Acyclic(false, Calls(x)) && !Serializable(false, Calls(x))
  {
    AllSurvive(x);
    AllAccess(x);
    BothWays(Calls(x), x);
    TwoCycle(false, Calls(x), 1, 2);
    SerializableExactly(false, Calls(x));
  }

  lemma {:induction false} BothWays(calls: seq<Call>, x: LockId)
    requires Accesses(false, calls, 1, 1, x, Shared)
    requires Accesses(false, calls, 3, 2, x, IntentionExclusive)
    requires Accesses(false, calls, 6, 1, x, Exclusive) && Survives(false, calls, 2)
    ensures Precedes(false, calls, 1, 2) && Precedes(false, calls, 2, 1) && Overtaken(false, calls, 1)
  {
    hide Accesses, Survives;
    assert ConflictAt(false, calls, 1, 2, Conflict(x, 1, Shared, 3, IntentionExclusive));
    assert ConflictAt(false, calls, 2, 1, Conflict(x, 3, IntentionExclusive, 6, Exclusive));
    assert Overtakes(false, calls, 1, Overtaking(2, Conflict(x, 1, Shared, 3, IntentionExclusive), 6, Exclusive));
  }
}
