// One critical section of src/transaction/Lock_manager.cpp at a time, as a
// function from a state to the next, and what every interleaving keeps.
module LockModel {
  import opened LockModes

  /** Why a blocked call waits: a repeated request, an upgrade, or a new request. */
  datatype WaitKind = Repeat | Upgrade | Fresh

  datatype Wait = Wait(id: LockId, mode: LockMode, kind: WaitKind)

  datatype Outcome = Granted | Refused | Blocked

  /** One transaction's view of the lock manager. */
  datatype View = View(table: LockTable, txn: Txn)

  datatype Step = Step(view: View, outcome: Outcome, kind: WaitKind)

  function SetQueue(table: LockTable, id: LockId, q: Queue): LockTable {
    table[id := q]
  }

  /** The wait predicate for request i of queue q, and what follows it when it holds. */
  function Settle(noWait: bool, v: View, id: LockId, q: Queue, i: nat, kind: WaitKind): Step
    requires i < |q.requests|
  {
    var compatible := QueueCompatible(q.requests, i);
    var state := if noWait && !compatible then Aborted else v.txn.state;
    if state == Aborted then
      Step(View(SetQueue(v.table, id, q), v.txn.(state := Aborted)), Refused, kind)
    else if !compatible then
      Step(View(SetQueue(v.table, id, q), v.txn), Blocked, kind)
    else
      var granted := q.requests[i := q.requests[i].(granted := true)];
      var upgrading := if kind == Upgrade then false else q.upgrading;
      Step(View(SetQueue(v.table, id, Queue(granted, upgrading)),
                v.txn.(sets := AddTo(v.txn.sets, q.requests[i].mode, id))),
           Granted, kind)
  }

  function Refuse(v: View): Step {
    Step(v.(txn := v.txn.(state := Aborted)), Refused, Fresh)
  }

  /** LockTable, LockPartition and LockRow up to their wait. */
  function Acquire(noWait: bool, v: View, t: nat, id: LockId, mode: LockMode): Step {
    var state := if v.txn.state == DefaultState then Growing else v.txn.state;
    var v1 := v.(txn := v.txn.(state := state));
    if state != Growing then Refuse(v1)
    else if id.kind == RowLock && mode != Shared && mode != Exclusive then Refuse(v1)
    else
      var q := QueueOf(v.table, id);
      var i := OwnIndex(q.requests, t);
      if i < |q.requests| then
        var r := q.requests[i];
        var v2 := v1.(table := SetQueue(v.table, id, q));
        if r.mode == mode && r.granted then
          Step(v2.(txn := v1.txn.(sets := AddTo(v1.txn.sets, mode, id))), Granted, Repeat)
        else if r.mode == mode then Settle(noWait, v1, id, q, i, Repeat)
        else if q.upgrading then Refuse(v2)
        else if !Upgradable(r.mode, mode) then Refuse(v2)
        else Settle(noWait, v1, id, Queue(q.requests[i := Request(t, mode, false)], true), i, Upgrade)
      else
        Settle(noWait, v1, id, q.(requests := q.requests + [Request(t, mode, false)]), i, Fresh)
  }

  /** Unlock, then the erases of UnLockTable, UnLockPartition or UnLockRow. */
  function Release(v: View, t: nat, id: LockId): (View, bool) {
    var q := QueueOf(v.table, id);
    var state := if v.txn.state == Growing then Shrinking else v.txn.state;
    var i := GrantedIndex(q.requests, t);
    if i < |q.requests| then
      (View(SetQueue(v.table, id, q.(requests := q.requests[..i] + q.requests[i + 1..])),
            Txn(state, EraseFrom(v.txn.sets, id))), true)
    else
      (View(SetQueue(v.table, id, q), Txn(Aborted, EraseFrom(v.txn.sets, id))), false)
  }

  // ---- all transactions together ----

  datatype System = System(table: LockTable, txns: map<nat, Txn>, waiting: map<nat, Wait>)

  const INITIAL := System(map[], map[], map[])

  function TxnOf(s: System, t: nat): Txn {
    if t in s.txns then s.txns[t] else Txn(DefaultState, NO_LOCKS)
  }

  function ViewOf(s: System, t: nat): View {
    View(s.table, TxnOf(s, t))
  }

  function WithView(s: System, t: nat, v: View): System {
    s.(table := v.table, txns := s.txns[t := v.txn])
  }

  /** A critical section: a lock call, an unlock call, a wake-up of a blocked call,
      or someone setting a transaction's state to aborted. */
  datatype Call =
    | Lock(txn: nat, id: LockId, mode: LockMode)
    | Unlock(txn: nat, id: LockId)
    | Wake(txn: nat)
    | Abort(txn: nat)

  function AfterStep(s: System, t: nat, id: LockId, mode: LockMode, step: Step): System {
    var s1 := WithView(s, t, step.view);
    if step.outcome == Blocked then s1.(waiting := s.waiting[t := Wait(id, mode, step.kind)])
    else s1.(waiting := s.waiting - {t})
  }

  /** A wake-up re-evaluates the wait predicate of a blocked call; its request is still queued. */
  predicate CanWake(s: System, t: nat) {
    t in s.waiting &&
    var rs := QueueOf(s.table, s.waiting[t].id).requests;
    OwnIndex(rs, t) < |rs| && rs[OwnIndex(rs, t)].mode == s.waiting[t].mode
  }

  /** A blocked transaction makes no other call; such a step changes nothing. */
  function Next(noWait: bool, s: System, call: Call): System {
    match call
    case Lock(t, id, mode) =>
      if t in s.waiting then s else AfterStep(s, t, id, mode, Acquire(noWait, ViewOf(s, t), t, id, mode))
    case Unlock(t, id) =>
      if t in s.waiting then s else WithView(s, t, Release(ViewOf(s, t), t, id).0)
    case Wake(t) =>
      if !CanWake(s, t) then s else
        var w := s.waiting[t];
        var q := QueueOf(s.table, w.id);
        AfterStep(s, t, w.id, w.mode, Settle(noWait, ViewOf(s, t), w.id, q, OwnIndex(q.requests, t), w.kind))
    case Abort(t) =>
      s.(txns := s.txns[t := TxnOf(s, t).(state := Aborted)])
  }

  function Exec(noWait: bool, calls: seq<Call>): System {
    if calls == [] then INITIAL else Next(noWait, Exec(noWait, calls[..|calls| - 1]), calls[|calls| - 1])
  }

  lemma {:induction false} ExecStep(noWait: bool, calls: seq<Call>, k: nat)
    requires k < |calls|
    ensures Exec(noWait, calls[..k + 1]) == Next(noWait, Exec(noWait, calls[..k]), calls[k])
  {
    assert calls[..k + 1][..k] == calls[..k];
  }

  // ---- queue invariants ----

  ghost predicate OnePerTxn(rs: seq<Request>) {
    forall i, j :: 0 <= i < j < |rs| ==> rs[i].txn != rs[j].txn
  }

  ghost predicate GrantedCompatible(rs: seq<Request>) {
    forall i, j :: 0 <= i < |rs| && 0 <= j < |rs| && i != j && rs[i].granted && rs[j].granted ==>
      Compatible(rs[i].mode, rs[j].mode)
  }

  ghost predicate GoodQueue(q: Queue) {
    OnePerTxn(q.requests) && GrantedCompatible(q.requests)
  }

  ghost predicate GoodTable(table: LockTable) {
    forall id :: id in table ==> GoodQueue(table[id])
  }

  lemma {:induction false} SettleKeepsGood(noWait: bool, v: View, id: LockId, q: Queue, i: nat, kind: WaitKind)
    requires GoodTable(v.table) && GoodQueue(q) && i < |q.requests|
    ensures GoodTable(Settle(noWait, v, id, q, i, kind).view.table)
  {
  }

  lemma {:induction false} AcquireKeepsGood(noWait: bool, v: View, t: nat, id: LockId, mode: LockMode)
    requires GoodTable(v.table)
    ensures GoodTable(Acquire(noWait, v, t, id, mode).view.table)
  {
    hide Settle, Upgradable, Compatible;
    var v1 := v.(txn := v.txn.(state := Growing));
    var q := QueueOf(v.table, id);
    var i := OwnIndex(q.requests, t);
    assert GoodQueue(q);
    if i < |q.requests| {
      SettleKeepsGood(noWait, v1, id, q, i, Repeat);
      SettleKeepsGood(noWait, v1, id, Queue(q.requests[i := Request(t, mode, false)], true), i, Upgrade);
    } else {
      SettleKeepsGood(noWait, v1, id, q.(requests := q.requests + [Request(t, mode, false)]), i, Fresh);
    }
  }

  lemma {:induction false} ReleaseKeepsGood(v: View, t: nat, id: LockId)
    requires GoodTable(v.table)
    ensures GoodTable(Release(v, t, id).0.table)
  {
  }

  /** Waiting or not, upgrades and aborts included: after every interleaving, each queue has at most one
      request per transaction and its granted requests are pairwise compatible. */
  lemma {:induction false} QueuesStayGood(noWait: bool, calls: seq<Call>)
    ensures GoodTable(Exec(noWait, calls).table)
  {
    if calls != [] {
      var s := Exec(noWait, calls[..|calls| - 1]);
      QueuesStayGood(noWait, calls[..|calls| - 1]);
      match calls[|calls| - 1]
      case Lock(t, id, mode) => AcquireKeepsGood(noWait, ViewOf(s, t), t, id, mode);
      case Unlock(t, id) => ReleaseKeepsGood(ViewOf(s, t), t, id);
      case Wake(t) =>
        if CanWake(s, t) {
          var w := s.waiting[t];
          var q := QueueOf(s.table, w.id);
          SettleKeepsGood(noWait, ViewOf(s, t), w.id, q, OwnIndex(q.requests, t), w.kind);
        }
      case Abort(t) =>
    }
  }
}
