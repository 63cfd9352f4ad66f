// How a request changes over a run: conflict sets never shrink, at most three
// upgrades, and what a failed upgrade leaves behind.
module LockGrowth {
  import opened Options
  import opened LockModes
  import opened LockModel
  import opened LockEffects
  import opened LockRuns

  /** In one step a request that stays keeps its mode or is upgraded. */
  lemma {:induction false} StepGrows(noWait: bool, s: System, call: Call, id: LockId, t: nat)
    requires SystemInv(noWait, s)
    ensures var r, r' := RequestOf(s.table, id, t), RequestOf(Next(noWait, s, call).table, id, t);
            r.Some? && r'.Some? ==> r.value.mode == r'.value.mode || Upgradable(r.value.mode, r'.value.mode)
  {
    match call
    case Lock(u, i, mode) =>
      AcquireEffect(noWait, ViewOf(s, u), u, i, mode);
    case Unlock(u, i) =>
      ReleaseEffect(ViewOf(s, u), u, i);
    case Wake(u) =>
      if CanWake(s, u) {
        var w := s.waiting[u];
        var q := QueueOf(s.table, w.id);
        assert GoodQueue(q);
        SettleEffect(noWait, ViewOf(s, u), w.id, q, OwnIndex(q.requests, u), w.kind);
      }
    case Abort(u) =>
  }

  /** t has a request on id after each of the last k calls and before them. */
  ghost predicate PresentFor(noWait: bool, calls: seq<Call>, k: nat, id: LockId, t: nat)
    requires k <= |calls|
  {
    RequestOf(Exec(noWait, calls).table, id, t).Some? &&
    (k > 0 ==> PresentFor(noWait, calls[..|calls| - 1], k - 1, id, t))
  }

  /** While a request stays in its queue, what it excludes never shrinks. */
  lemma {:induction false} ConflictsNeverShrink(noWait: bool, calls: seq<Call>, k: nat, id: LockId, t: nat)
    requires k <= |calls| && PresentFor(noWait, calls, k, id, t)
    ensures RequestOf(Exec(noWait, calls[..|calls| - k]).table, id, t).Some?
    ensures Conflicts(RequestOf(Exec(noWait, calls[..|calls| - k]).table, id, t).value.mode)
            <= Conflicts(RequestOf(Exec(noWait, calls).table, id, t).value.mode)
  {
    hide Conflicts, RequestOf;
    if k == 0 {
      assert calls[..|calls|] == calls;
    } else {
      var front := calls[..|calls| - 1];
      ConflictsNeverShrink(noWait, front, k - 1, id, t);
      assert front[..|front| - (k - 1)] == calls[..|calls| - k];
      RunsKeepInv(noWait, front);
      StepGrows(noWait, Exec(noWait, front), calls[|calls| - 1], id, t);
      UpgradeEnlarges(RequestOf(Exec(noWait, front).table, id, t).value.mode,
                      RequestOf(Exec(noWait, calls).table, id, t).value.mode);
    }
  }

  /** Mode changes of t's current request on id since it was queued. */
  function UpgradeCount(noWait: bool, calls: seq<Call>, id: LockId, t: nat): nat {
    if calls == [] then 0 else
      var front := calls[..|calls| - 1];
      var r, r' := RequestOf(Exec(noWait, front).table, id, t), RequestOf(Exec(noWait, calls).table, id, t);
      if r == None || r' == None then 0
      else UpgradeCount(noWait, front, id, t) + if r.value.mode == r'.value.mode then 0 else 1
  }

  /** A request is upgraded at most three times. */
  lemma {:induction false} AtMostThreeUpgrades(noWait: bool, calls: seq<Call>, id: LockId, t: nat)
    ensures UpgradeCount(noWait, calls, id, t) <= 3
    ensures var r := RequestOf(Exec(noWait, calls).table, id, t);
            r.Some? ==> UpgradeCount(noWait, calls, id, t) <= Level(r.value.mode)
  {
    if calls != [] {
      var front := calls[..|calls| - 1];
      var s := Exec(noWait, front);
      AtMostThreeUpgrades(noWait, front, id, t);
      RunsKeepInv(noWait, front);
      StepGrows(noWait, s, calls[|calls| - 1], id, t);
      var r, r' := RequestOf(s.table, id, t), RequestOf(Exec(noWait, calls).table, id, t);
      if r.Some? && r'.Some? { UpgradeEnlarges(r.value.mode, r'.value.mode); }
    }
  }

  // ---- a failed upgrade in no-wait mode ----

  lemma {:induction false} StepKeepsFlag(s: System, call: Call, id: LockId)
    requires s.waiting == map[] && QueueOf(s.table, id).upgrading
    ensures QueueOf(Next(true, s, call).table, id).upgrading
  {
  }

  /** The upgrading flag of a queue, once set between calls in no-wait mode, is never cleared. */
  lemma {:induction false} UpgradingFlagSticks(calls: seq<Call>, n: nat, id: LockId)
    requires n <= |calls| && QueueOf(Exec(true, calls[..n]).table, id).upgrading
    ensures QueueOf(Exec(true, calls).table, id).upgrading
  {
    if n == |calls| {
      assert calls[..n] == calls;
    } else {
      var front := calls[..|calls| - 1];
      assert front[..n] == calls[..n];
      UpgradingFlagSticks(front, n, id);
      RunsKeepInv(true, front);
      StepKeepsFlag(Exec(true, front), calls[|calls| - 1], id);
    }
  }

  /** From then on every attempt to change the mode of a request in that queue is refused. */
  lemma {:induction false} NoUpgradeAfterFailure(s: System, t: nat, id: LockId, mode: LockMode)
    requires GoodTable(s.table) && QueueOf(s.table, id).upgrading
    requires RequestOf(s.table, id, t).Some? && RequestOf(s.table, id, t).value.mode != mode
    ensures Acquire(true, ViewOf(s, t), t, id, mode).outcome == Refused
    ensures Acquire(true, ViewOf(s, t), t, id, mode).view.txn.state == Aborted
  {
  }

  lemma {:induction false} UpgradeSettles(v: View, t: nat, id: LockId, held: LockMode, mode: LockMode)
    requires v.txn.state == Growing
    requires Holds(v.table, id, t, held) && Upgradable(held, mode) && !QueueOf(v.table, id).upgrading
    requires id.kind == RowLock ==> mode == Shared || mode == Exclusive
    ensures var q := QueueOf(v.table, id);
            var i := OwnIndex(q.requests, t);
            i < |q.requests| &&
            Acquire(true, v, t, id, mode) ==
              Settle(true, v, id, Queue(q.requests[i := Request(t, mode, false)], true), i, Upgrade)
  {
    UpgradeEnlarges(held, mode);
  }

  /** A growing transaction's legal upgrade fails exactly when another granted request excludes the new mode;
      it then loses the grant it had, keeps an ungranted request, and leaves the flag set. */
  lemma {:induction false} FailedUpgradeDropsGrant(v: View, t: nat, id: LockId, held: LockMode, mode: LockMode)
    requires GoodTable(v.table) && v.txn.state == Growing
    requires Holds(v.table, id, t, held) && Upgradable(held, mode) && !QueueOf(v.table, id).upgrading
    requires id.kind == RowLock ==> mode == Shared || mode == Exclusive
    ensures var step := Acquire(true, v, t, id, mode);
            var blocked := exists r :: r in QueueOf(v.table, id).requests && r.txn != t && r.granted && !Compatible(r.mode, mode);
            && (step.outcome == Refused <==> blocked)
            && (blocked ==>
                  && RequestOf(step.view.table, id, t) == Some(Request(t, mode, false))
                  && QueueOf(step.view.table, id).upgrading && step.view.txn.state == Aborted)
            && (!blocked ==> Holds(step.view.table, id, t, mode) && !QueueOf(step.view.table, id).upgrading)
  {
    var q := QueueOf(v.table, id);
    var i := OwnIndex(q.requests, t);
    assert GoodQueue(q);
    var rs := q.requests[i := Request(t, mode, false)];
    UpgradeSettles(v, t, id, held, mode);
    hide Acquire, Upgradable, Compatible;
    ReplaceKeepsOthers(q.requests, i, Request(t, mode, false));
    ReplaceKeepsOthers(q.requests, i, Request(t, mode, true));
    assert rs[i := rs[i].(granted := true)] == q.requests[i := Request(t, mode, true)];
    RequestAt(rs, i);
    if !QueueCompatible(rs, i) {
      var j :| 0 <= j < |rs| && j != i && rs[j].granted && !Compatible(rs[j].mode, rs[i].mode);
      assert q.requests[j] in q.requests && q.requests[j].txn != t;
    } else {
      forall r | r in q.requests && r.txn != t && r.granted ensures Compatible(r.mode, mode) {
        var j :| 0 <= j < |q.requests| && q.requests[j] == r;
        assert rs[j] == r;
      }
    }
  }
}
