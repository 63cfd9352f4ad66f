// Which runs, waiting or not, are conflict-serializable over the transactions
// they do not abort.
module Serializability {
  import opened LockModes
  import opened LockModel
  import opened LockRuns
  import opened TwoPhase

  // ---- the conflict graph ----

  /** One transaction gets id at call i in mode m, another gets it at the later call j in mode n. */
  datatype Conflict = Conflict(id: LockId, i: nat, m: LockMode, j: nat, n: LockMode)

  predicate ConflictAt(noWait: bool, calls: seq<Call>, a: nat, b: nat, c: Conflict) {
    && c.i < c.j && !Compatible(c.m, c.n)
    && Accesses(noWait, calls, c.i, a, c.id, c.m) && Accesses(noWait, calls, c.j, b, c.id, c.n)
  }

  /** a must come before b in every equivalent serial order. */
  ghost predicate Precedes(noWait: bool, calls: seq<Call>, a: nat, b: nat) {
    a != b && exists c :: ConflictAt(noWait, calls, a, b, c)
  }

  /** A path of conflicts through transactions that survive. */
  ghost predicate ConflictPath(noWait: bool, calls: seq<Call>, path: seq<nat>) {
    && (forall i :: 0 <= i < |path| ==> Survives(noWait, calls, path[i]))
    && (forall i :: 0 <= i < |path| - 1 ==> Precedes(noWait, calls, path[i], path[i + 1]))
  }

  ghost predicate Acyclic(noWait: bool, calls: seq<Call>) {
    forall path {:trigger ConflictPath(noWait, calls, path)} ::
      |path| >= 2 && ConflictPath(noWait, calls, path) ==> path[0] != path[|path| - 1]
  }

  /** Such a rank is a serial order (ties never conflict). */
  ghost predicate Respects(noWait: bool, calls: seq<Call>, rank: nat -> nat) {
    forall a, b :: Survives(noWait, calls, a) && Survives(noWait, calls, b) && Precedes(noWait, calls, a, b) ==> rank(a) < rank(b)
  }

  ghost predicate Serializable(noWait: bool, calls: seq<Call>) {
    exists rank: nat -> nat :: Respects(noWait, calls, rank)
  }

  // ---- overtaking a waiting upgrade ----

  /** a gets an id, b gets it in a conflicting mode, and a gets it again at call k: a's upgrade was granted after b got in. */
  datatype Overtaking = Overtaking(b: nat, c: Conflict, k: nat, again: LockMode)

  predicate Overtakes(noWait: bool, calls: seq<Call>, a: nat, o: Overtaking) {
    && o.b != a && Survives(noWait, calls, o.b)
    && ConflictAt(noWait, calls, a, o.b, o.c)
    && o.c.j < o.k && Accesses(noWait, calls, o.k, a, o.c.id, o.again)
  }

  ghost predicate Overtaken(noWait: bool, calls: seq<Call>, a: nat) {
    exists o :: Overtakes(noWait, calls, a, o)
  }

  ghost predicate NoneOvertaken(noWait: bool, calls: seq<Call>) {
    forall a :: Survives(noWait, calls, a) ==> !Overtaken(noWait, calls, a)
  }

  /** Until its last access to an id a survivor does not unlock it. */
  lemma {:induction false} KeptUntilLastAccess(noWait: bool, calls: seq<Call>, i: nat, j: nat, k: nat, t: nat,
                                               id: LockId, m: LockMode, again: LockMode)
    requires Survives(noWait, calls, t) && Accesses(noWait, calls, i, t, id, m) && Accesses(noWait, calls, k, t, id, again)
    requires i < j <= k + 1
    ensures Keeps(StateAt(noWait, calls, j), id, t, m)
    ensures forall p :: 0 <= p < k ==> !Unlocks(noWait, calls, p, t)
  {
    hide Exec, Next;
    forall p: nat | p < k ensures !Unlocks(noWait, calls, p, t) {
      if Unlocks(noWait, calls, p, t) { NoAccessAfterUnlock(noWait, calls, p, k, t, id, again); }
    }
    HeldUntilUnlock(noWait, calls, i, j, t, id, m);
  }

  /** At the moment b gets in, a's upgrade is waiting. */
  lemma {:induction false} OvertakenWhileUpgrading(noWait: bool, calls: seq<Call>, a: nat, o: Overtaking)
    requires Survives(noWait, calls, a) && Overtakes(noWait, calls, a, o)
    ensures UpgradingOn(StateAt(noWait, calls, o.c.j), a, o.c.id)
  {
    KeptUntilLastAccess(noWait, calls, o.c.i, o.c.j, o.k, a, o.c.id, o.c.m, o.again);
    UnlockInBetween(noWait, calls, o.c.i, o.c.j, a, o.b, o.c.id, o.c.m, o.c.n);
  }

  /** Overtaking makes each of the two come before the other. */
  lemma {:induction false} OvertakingIsCycle(noWait: bool, calls: seq<Call>, a: nat, o: Overtaking)
    requires Survives(noWait, calls, a) && Overtakes(noWait, calls, a, o)
    ensures Precedes(noWait, calls, a, o.b) && Precedes(noWait, calls, o.b, a)
  {
    var c := o.c;
    StillConflicts(noWait, calls, c.i, o.k, a, c.id, c.m, o.again, c.n);
    assert ConflictAt(noWait, calls, o.b, a, Conflict(c.id, c.j, c.n, o.k, o.again));
  }

  /** What a mode kept others from getting, the mode of a later access keeps them from getting, too. */
  lemma {:induction false} StillConflicts(noWait: bool, calls: seq<Call>, i: nat, k: nat, t: nat, id: LockId,
                                          m: LockMode, again: LockMode, n: LockMode)
    requires Survives(noWait, calls, t) && i < k && !Compatible(m, n)
    requires Accesses(noWait, calls, i, t, id, m) && Accesses(noWait, calls, k, t, id, again)
    ensures !Compatible(n, again)
  {
    hide Accesses, Survives, Exec;
    KeptUntilLastAccess(noWait, calls, i, k + 1, k, t, id, m, again);
    AccessEffect(noWait, calls, k, t, id, again);
    ConflictsAreIncompatible(m, n);
    ConflictsAreIncompatible(again, n);
    CompatibleIsSymmetric(again, n);
  }

  // ---- the serial order ----

  /** The position of t's first unlock call from n on, or the length of the run. */
  function UnlockFrom(noWait: bool, calls: seq<Call>, t: nat, n: nat): (k: nat)
    requires n <= |calls|
    ensures n <= k <= |calls|
    ensures forall j :: n <= j < k ==> !Unlocks(noWait, calls, j, t)
    ensures k < |calls| ==> Unlocks(noWait, calls, k, t)
    decreases |calls| - n
  {
    if n == |calls| || Unlocks(noWait, calls, n, t) then n else UnlockFrom(noWait, calls, t, n + 1)
  }

  function FirstUnlock(noWait: bool, calls: seq<Call>, t: nat): nat {
    UnlockFrom(noWait, calls, t, 0)
  }

  /** The start of the streak of waiting for an upgrade that ends with state n. */
  function WaitStart(noWait: bool, calls: seq<Call>, t: nat, n: nat): (k: nat)
    requires n <= |calls|
    ensures k <= n
    ensures forall p :: k <= p < n ==> Upgrading(StateAt(noWait, calls, p), t)
    ensures k > 0 ==> !Upgrading(StateAt(noWait, calls, k - 1), t)
  {
    if n > 0 && Upgrading(StateAt(noWait, calls, n - 1), t) then WaitStart(noWait, calls, t, n - 1) else n
  }

  /** Where a transaction comes in the serial order: at its first unlock, or, if it is left waiting for an upgrade,
      where that wait began. */
  function Key(noWait: bool, calls: seq<Call>, t: nat): nat {
    if Upgrading(Exec(noWait, calls), t) then WaitStart(noWait, calls, t, |calls|) else FirstUnlock(noWait, calls, t)
  }

  lemma {:induction false} KeyAfterAccess(noWait: bool, calls: seq<Call>, j: nat, t: nat, id: LockId, m: LockMode)
    requires Survives(noWait, calls, t) && Accesses(noWait, calls, j, t, id, m)
    ensures j < Key(noWait, calls, t)
  {
    hide Next;
    assert calls[..|calls|] == calls;
    if Upgrading(Exec(noWait, calls), t) {
      AccessEffect(noWait, calls, j, t, id, m);
    } else if FirstUnlock(noWait, calls, t) < |calls| {
      NoAccessAfterUnlock(noWait, calls, FirstUnlock(noWait, calls, t), j, t, id, m);
    }
  }

  lemma {:induction false} KeyBeforeUnlock(noWait: bool, calls: seq<Call>, k: nat, t: nat)
    requires Survives(noWait, calls, t) && Unlocks(noWait, calls, k, t)
    ensures Key(noWait, calls, t) <= k
  {
    assert calls[..|calls|] == calls;
    PastAfterUnlock(noWait, calls, k, t);
    NeverGrowsBack(noWait, calls, k + 1, |calls|, t);
  }

  lemma {:induction false} KeyBeforeWait(noWait: bool, calls: seq<Call>, j: nat, t: nat, id: LockId)
    requires j <= |calls| && Survives(noWait, calls, t) && UpgradingOn(StateAt(noWait, calls, j), t, id)
    requires NoAccessIn(noWait, calls, j, |calls|, t, id)
    ensures Key(noWait, calls, t) <= j
  {
    hide Next, Accesses;
    assert calls[..|calls|] == calls;
    var k := WaitStart(noWait, calls, t, |calls|);
    UpgradeWaitsOn(noWait, calls, j, |calls|, t, id);
    if k > j { WaitsBetween(noWait, calls, j, k - 1, t, id); }
  }

  lemma {:induction false} WaitsBetween(noWait: bool, calls: seq<Call>, j: nat, k: nat, t: nat, id: LockId)
    requires j <= k <= |calls| && Survives(noWait, calls, t) && UpgradingOn(StateAt(noWait, calls, j), t, id)
    requires NoAccessIn(noWait, calls, j, |calls|, t, id)
    ensures Upgrading(StateAt(noWait, calls, k), t)
  {
    UpgradeWaitsOn(noWait, calls, j, k, t, id);
  }

  /** A conflict follows the keys, unless its first transaction was overtaken. */
  lemma {:induction false} ConflictsFollowKeys(noWait: bool, calls: seq<Call>, a: nat, b: nat)
    requires Precedes(noWait, calls, a, b) && Survives(noWait, calls, a) && Survives(noWait, calls, b)
    requires !Overtaken(noWait, calls, a)
    ensures Key(noWait, calls, a) < Key(noWait, calls, b)
  {
    var c :| ConflictAt(noWait, calls, a, b, c);
    KeyAfterAccess(noWait, calls, c.j, b, c.id, c.n);
    UnlockInBetween(noWait, calls, c.i, c.j, a, b, c.id, c.m, c.n);
    if UpgradingOn(StateAt(noWait, calls, c.j), a, c.id) {
      NotAgain(noWait, calls, a, b, c);
      KeyBeforeWait(noWait, calls, c.j, a, c.id);
    } else {
      var k :| c.i < k < c.j && UnlocksId(noWait, calls, k, a, c.id);
      KeyBeforeUnlock(noWait, calls, k, a);
    }
  }

  lemma {:induction false} NotAgain(noWait: bool, calls: seq<Call>, a: nat, b: nat, c: Conflict)
    requires ConflictAt(noWait, calls, a, b, c) && a != b && Survives(noWait, calls, b)
    requires !Overtaken(noWait, calls, a)
    ensures NoAccessIn(noWait, calls, c.j, |calls|, a, c.id)
  {
    forall p: nat, again | c.j <= p < |calls| ensures !Accesses(noWait, calls, p, a, c.id, again) {
      NotAgainAt(noWait, calls, a, b, c, p, again);
    }
  }

  lemma {:induction false} NotAgainAt(noWait: bool, calls: seq<Call>, a: nat, b: nat, c: Conflict, p: nat, again: LockMode)
    requires ConflictAt(noWait, calls, a, b, c) && a != b && Survives(noWait, calls, b)
    requires !Overtaken(noWait, calls, a) && c.j <= p < |calls|
    ensures !Accesses(noWait, calls, p, a, c.id, again)
  {
    if p == c.j && Accesses(noWait, calls, p, a, c.id, again) {
      OneAtATime(noWait, calls, p, a, b, c.id, c.id, again, c.n);
    }
    hide Accesses, Survives;
    if p > c.j { assert !Overtakes(noWait, calls, a, Overtaking(b, c, p, again)); }
  }

  /** By key, ties (which never conflict) by transaction id. */
  predicate SerialBefore(noWait: bool, calls: seq<Call>, a: nat, b: nat) {
    var x, y := Key(noWait, calls, a), Key(noWait, calls, b);
    x < y || (x == y && a < b)
  }

  /** Conflict-serializability, waiting or not: one strict total order of the transactions agrees with every conflict
      between transactions that survived and were not overtaken. */
  lemma {:induction false} ConflictSerializable(noWait: bool, calls: seq<Call>)
    ensures forall a, b :: Survives(noWait, calls, a) && Survives(noWait, calls, b) && !Overtaken(noWait, calls, a)
                && Precedes(noWait, calls, a, b)
              ==> SerialBefore(noWait, calls, a, b)
    ensures forall a :: !SerialBefore(noWait, calls, a, a)
    ensures forall a, b :: a == b || SerialBefore(noWait, calls, a, b) || SerialBefore(noWait, calls, b, a)
    ensures forall a, b, c :: SerialBefore(noWait, calls, a, b) && SerialBefore(noWait, calls, b, c)
              ==> SerialBefore(noWait, calls, a, c)
  {
    forall a, b | Survives(noWait, calls, a) && Survives(noWait, calls, b) && !Overtaken(noWait, calls, a)
                  && Precedes(noWait, calls, a, b)
      ensures SerialBefore(noWait, calls, a, b)
    {
      ConflictsFollowKeys(noWait, calls, a, b);
    }
  }

  // ---- exactly ----

  /** A rank that follows the edges strictly grows along a path. */
  lemma {:induction false} RanksGrow(noWait: bool, calls: seq<Call>, rank: nat -> nat, path: seq<nat>)
    requires |path| >= 2 && ConflictPath(noWait, calls, path) && Respects(noWait, calls, rank)
    ensures rank(path[0]) < rank(path[|path| - 1])
    decreases |path|
  {
    var n := |path| - 1;
    assert Precedes(noWait, calls, path[n - 1], path[n - 1 + 1]);
    if n > 1 {
      assert ConflictPath(noWait, calls, path[..n]);
      RanksGrow(noWait, calls, rank, path[..n]);
    }
  }

  lemma {:induction false} SerializableIsAcyclic(noWait: bool, calls: seq<Call>)
    requires Serializable(noWait, calls)
    ensures Acyclic(noWait, calls)
  {
    var rank: nat -> nat :| Respects(noWait, calls, rank);
    forall path | |path| >= 2 && ConflictPath(noWait, calls, path) ensures path[0] != path[|path| - 1] {
      RanksGrow(noWait, calls, rank, path);
    }
  }

  lemma {:induction false} TwoCycle(noWait: bool, calls: seq<Call>, a: nat, b: nat)
    requires Survives(noWait, calls, a) && Survives(noWait, calls, b)
    requires Precedes(noWait, calls, a, b) && Precedes(noWait, calls, b, a)
    ensures !Acyclic(noWait, calls)
  {
    hide Survives, Precedes;
    assert ConflictPath(noWait, calls, [a, b, a]);
  }

  lemma {:induction false} OvertakenIsCyclic(noWait: bool, calls: seq<Call>)
    requires !NoneOvertaken(noWait, calls)
    ensures !Acyclic(noWait, calls)
  {
    var a: nat :| Survives(noWait, calls, a) && Overtaken(noWait, calls, a);
    var o :| Overtakes(noWait, calls, a, o);
    OvertakingIsCycle(noWait, calls, a, o);
    TwoCycle(noWait, calls, a, o.b);
  }

  lemma {:induction false} NotOvertakenIsSerializable(noWait: bool, calls: seq<Call>)
    requires NoneOvertaken(noWait, calls)
    ensures Serializable(noWait, calls)
  {
    var rank := (t: nat) => Key(noWait, calls, t);
    forall a: nat, b: nat | Survives(noWait, calls, a) && Survives(noWait, calls, b) && Precedes(noWait, calls, a, b)
      ensures rank(a) < rank(b)
    {
      ConflictsFollowKeys(noWait, calls, a, b);
    }
    assert Respects(noWait, calls, rank);
  }

  /** Over the transactions a run does not abort, waiting or not: there is a serial order that agrees with every conflict
      if and only if no conflict cycle, of any length, if and only if no waiting upgrade was overtaken. */
  lemma {:induction false} SerializableExactly(noWait: bool, calls: seq<Call>)
    ensures Serializable(noWait, calls) <==> NoneOvertaken(noWait, calls)
    ensures Acyclic(noWait, calls) <==> NoneOvertaken(noWait, calls)
  {
    if NoneOvertaken(noWait, calls) {
      NotOvertakenIsSerializable(noWait, calls);
    }
    if Serializable(noWait, calls) {
      SerializableIsAcyclic(noWait, calls);
    }
    if !NoneOvertaken(noWait, calls) {
      OvertakenIsCyclic(noWait, calls);
    }
  }

  // ---- when nothing can be overtaken ----

  /** No upgrade of t ever had to wait. */
  predicate Steady(noWait: bool, calls: seq<Call>, t: nat) {
    forall n :: 0 <= n <= |calls| ==> !Upgrading(StateAt(noWait, calls, n), t)
  }

  /** A survivor whose upgrades never waited is not overtaken. */
  lemma {:induction false} SteadyNotOvertaken(noWait: bool, calls: seq<Call>, t: nat)
    requires Survives(noWait, calls, t) && Steady(noWait, calls, t)
    ensures !Overtaken(noWait, calls, t)
  {
    forall o ensures !Overtakes(noWait, calls, t, o) {
      if Overtakes(noWait, calls, t, o) { OvertakenWhileUpgrading(noWait, calls, t, o); }
    }
  }

  lemma {:induction false} NoWaitIsSteady(calls: seq<Call>, t: nat)
    ensures Steady(true, calls, t)
  {
    forall n | 0 <= n <= |calls| ensures !Upgrading(StateAt(true, calls, n), t) {
      RunsKeepInv(true, calls[..n]);
    }
  }

  /** In no-wait mode nothing ever waits: every run is serializable, in the order of first unlocks. */
  lemma {:induction false} NoWaitSerializable(calls: seq<Call>)
    ensures Serializable(true, calls) && Acyclic(true, calls)
    ensures Respects(true, calls, (t: nat) => FirstUnlock(true, calls, t))
  {
    forall t | Survives(true, calls, t) ensures !Overtaken(true, calls, t) {
      NoWaitIsSteady(calls, t);
      SteadyNotOvertaken(true, calls, t);
    }
    SerializableExactly(true, calls);
    forall a, b | Survives(true, calls, a) && Survives(true, calls, b) && Precedes(true, calls, a, b)
      ensures FirstUnlock(true, calls, a) < FirstUnlock(true, calls, b)
    {
      RunsKeepInv(true, calls);
      ConflictsFollowKeys(true, calls, a, b);
    }
  }
}
