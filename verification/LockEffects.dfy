// What each critical section does to the requests in the queues, transaction by
// transaction, and the invariants of every run.
module LockEffects {
  import opened Options
  import opened LockModes
  import opened LockModel

  /** The transaction's request in a queue, granted or not. */
  function RequestIn(rs: seq<Request>, t: nat): Option<Request> {
    var i := OwnIndex(rs, t);
    if i < |rs| then Some(rs[i]) else None
  }

  function RequestOf(table: LockTable, id: LockId, t: nat): Option<Request> {
    RequestIn(QueueOf(table, id).requests, t)
  }

  predicate Holds(table: LockTable, id: LockId, t: nat, mode: LockMode) {
    RequestOf(table, id, t) == Some(Request(t, mode, true))
  }

  lemma {:induction false} RequestAt(rs: seq<Request>, i: nat)
    requires OnePerTxn(rs) && i < |rs|
    ensures RequestIn(rs, rs[i].txn) == Some(rs[i]) && OwnIndex(rs, rs[i].txn) == i
  {
  }

  lemma {:induction false} NoRequest(rs: seq<Request>, t: nat)
    requires forall j :: 0 <= j < |rs| ==> rs[j].txn != t
    ensures RequestIn(rs, t) == None && GrantedIndex(rs, t) == |rs|
  {
  }

  lemma {:induction false} GrantedIsOwn(rs: seq<Request>, t: nat)
    requires OnePerTxn(rs)
    ensures var r := RequestIn(rs, t);
            GrantedIndex(rs, t) == if r.Some? && r.value.granted then OwnIndex(rs, t) else |rs|
  {
  }

  /** The requests of every transaction but t are the same in both queues. */
  ghost predicate OthersKept(rs: seq<Request>, rs': seq<Request>, t: nat) {
    forall u {:trigger RequestIn(rs', u)} :: u != t ==> RequestIn(rs', u) == RequestIn(rs, u)
  }

  lemma {:induction false} ReplaceKeepsOthers(rs: seq<Request>, i: nat, r: Request)
    requires OnePerTxn(rs) && i < |rs| && r.txn == rs[i].txn
    ensures OnePerTxn(rs[i := r]) && OthersKept(rs, rs[i := r], r.txn)
    ensures RequestIn(rs[i := r], r.txn) == Some(r)
  {
    var rs' := rs[i := r];
    assert OnePerTxn(rs');
    RequestAt(rs', i);
    forall u | u != r.txn ensures RequestIn(rs', u) == RequestIn(rs, u) {
      var j := OwnIndex(rs, u);
      if j < |rs| { RequestAt(rs', j); } else { NoRequest(rs', u); }
    }
  }

  lemma {:induction false} AppendKeepsOthers(rs: seq<Request>, r: Request)
    requires OnePerTxn(rs) && RequestIn(rs, r.txn) == None
    ensures OnePerTxn(rs + [r]) && OthersKept(rs, rs + [r], r.txn)
    ensures RequestIn(rs + [r], r.txn) == Some(r)
  {
    var rs' := rs + [r];
    assert OnePerTxn(rs');
    RequestAt(rs', |rs|);
    forall u | u != r.txn ensures RequestIn(rs', u) == RequestIn(rs, u) {
      var j := OwnIndex(rs, u);
      if j < |rs| { assert rs'[j] == rs[j]; RequestAt(rs', j); } else { NoRequest(rs', u); }
    }
  }

  lemma {:induction false} DropKeepsOthers(rs: seq<Request>, i: nat)
    requires OnePerTxn(rs) && i < |rs|
    ensures OthersKept(rs, rs[..i] + rs[i + 1..], rs[i].txn)
    ensures RequestIn(rs[..i] + rs[i + 1..], rs[i].txn) == None
  {
    var rs' := rs[..i] + rs[i + 1..];
    assert OnePerTxn(rs');
    NoRequest(rs', rs[i].txn);
    forall u | u != rs[i].txn ensures RequestIn(rs', u) == RequestIn(rs, u) {
      var j := OwnIndex(rs, u);
      if j < |rs| {
        var j' := if j < i then j else j - 1;
        assert rs'[j'] == rs[j];
        RequestAt(rs', j');
      } else {
        NoRequest(rs', u);
      }
    }
  }

  // ---- effects ----

  /** Only t's request on id may have changed. */
  ghost predicate OnlyTouches(table: LockTable, table': LockTable, id: LockId, t: nat) {
    forall i, u {:trigger RequestOf(table', i, u)} :: i != id || u != t ==> RequestOf(table', i, u) == RequestOf(table, i, u)
  }

  lemma {:induction false} QueueChange(table: LockTable, id: LockId, q: Queue, t: nat)
    requires OthersKept(QueueOf(table, id).requests, q.requests, t)
    ensures OnlyTouches(table, SetQueue(table, id, q), id, t)
    ensures QueueOf(SetQueue(table, id, q), id) == q
  {
  }

  /** The next request may be the same, or follow from it by an upgrade. */
  predicate MayBecome(r: Option<Request>, mode: LockMode) {
    r.Some? ==> r.value.mode == mode || Upgradable(r.value.mode, mode)
  }

  lemma {:induction false} SettleEffect(noWait: bool, v: View, id: LockId, q: Queue, i: nat, kind: WaitKind)
    requires OnePerTxn(q.requests) && i < |q.requests|
    requires OthersKept(QueueOf(v.table, id).requests, q.requests, q.requests[i].txn)
    ensures var step, r := Settle(noWait, v, id, q, i, kind), q.requests[i];
            && OnlyTouches(v.table, step.view.table, id, r.txn)
            && (step.outcome == Granted ==>
                  && Holds(step.view.table, id, r.txn, r.mode)
                  && step.view.txn == v.txn.(sets := AddTo(v.txn.sets, r.mode, id)) && v.txn.state != Aborted)
            && (step.outcome == Refused ==>
                  RequestOf(step.view.table, id, r.txn) == Some(r) && step.view.txn == v.txn.(state := Aborted))
            && (step.outcome == Blocked ==>
                  !noWait && RequestOf(step.view.table, id, r.txn) == Some(r) && step.view.txn == v.txn)
  {
    var r := q.requests[i];
    RequestAt(q.requests, i);
    QueueChange(v.table, id, q, r.txn);
    var granted := q.requests[i := r.(granted := true)];
    ReplaceKeepsOthers(q.requests, i, r.(granted := true));
    forall u | u != r.txn ensures RequestIn(granted, u) == RequestIn(QueueOf(v.table, id).requests, u) {
      assert RequestIn(granted, u) == RequestIn(q.requests, u);
    }
    QueueChange(v.table, id, Queue(granted, if kind == Upgrade then false else q.upgrading), r.txn);
  }

  /** What a lock call has done to its own request and its own transaction. */
  ghost predicate AcquireMeans(noWait: bool, v: View, t: nat, id: LockId, mode: LockMode, step: Step) {
    var r, r' := RequestOf(v.table, id, t), RequestOf(step.view.table, id, t);
    && OnlyTouches(v.table, step.view.table, id, t)
    && MayBecome(r, if r'.Some? then r'.value.mode else mode)
    && (step.outcome == Granted ==>
          && Holds(step.view.table, id, t, mode)
          && (v.txn.state == DefaultState || v.txn.state == Growing)
          && step.view.txn == Txn(Growing, AddTo(v.txn.sets, mode, id))
          && (id.kind == RowLock ==> mode == Shared || mode == Exclusive))
    && (step.outcome == Refused ==>
          && (r' == r || r' == Some(Request(t, mode, false)))
          && step.view.txn == v.txn.(state := Aborted))
    && (step.outcome == Blocked ==>
          && !noWait && r' == Some(Request(t, mode, false))
          && step.view.txn == v.txn.(state := Growing)
          && (id.kind == RowLock ==> mode == Shared || mode == Exclusive))
  }

  lemma {:induction false} AcquireRepeat(noWait: bool, v: View, t: nat, id: LockId, mode: LockMode)
    requires GoodTable(v.table) && v.txn.state == Growing
    requires id.kind == RowLock ==> mode == Shared || mode == Exclusive
    requires RequestOf(v.table, id, t).Some? && RequestOf(v.table, id, t).value.mode == mode
    ensures AcquireMeans(noWait, v, t, id, mode, Acquire(noWait, v, t, id, mode))
  {
    var q := QueueOf(v.table, id);
    assert GoodQueue(q);
    QueueChange(v.table, id, q, t);
    SettleEffect(noWait, v, id, q, OwnIndex(q.requests, t), Repeat);
  }

  lemma {:induction false} AcquireUpgrade(noWait: bool, v: View, t: nat, id: LockId, mode: LockMode)
    requires GoodTable(v.table) && v.txn.state == Growing
    requires id.kind == RowLock ==> mode == Shared || mode == Exclusive
    requires RequestOf(v.table, id, t).Some? && RequestOf(v.table, id, t).value.mode != mode
    ensures AcquireMeans(noWait, v, t, id, mode, Acquire(noWait, v, t, id, mode))
  {
    var q := QueueOf(v.table, id);
    var i := OwnIndex(q.requests, t);
    var upgraded := Request(t, mode, false);
    assert GoodQueue(q);
    QueueChange(v.table, id, q, t);
    ReplaceKeepsOthers(q.requests, i, upgraded);
    SettleEffect(noWait, v, id, Queue(q.requests[i := upgraded], true), i, Upgrade);
  }

  lemma {:induction false} AcquireNew(noWait: bool, v: View, t: nat, id: LockId, mode: LockMode)
    requires GoodTable(v.table) && v.txn.state == Growing
    requires id.kind == RowLock ==> mode == Shared || mode == Exclusive
    requires RequestOf(v.table, id, t) == None
    ensures AcquireMeans(noWait, v, t, id, mode, Acquire(noWait, v, t, id, mode))
  {
    var q := QueueOf(v.table, id);
    var newest := Request(t, mode, false);
    assert GoodQueue(q);
    AppendKeepsOthers(q.requests, newest);
    SettleEffect(noWait, v, id, q.(requests := q.requests + [newest]), |q.requests|, Fresh);
  }

  /** A lock call touches only its own request, and leaves it granted, refused or waiting. */
  lemma {:induction false} AcquireEffect(noWait: bool, v: View, t: nat, id: LockId, mode: LockMode)
    requires GoodTable(v.table)
    ensures AcquireMeans(noWait, v, t, id, mode, Acquire(noWait, v, t, id, mode))
  {
    var state := if v.txn.state == DefaultState then Growing else v.txn.state;
    var v1 := v.(txn := v.txn.(state := state));
    if state == Growing && (id.kind == RowLock ==> mode == Shared || mode == Exclusive) {
      assert Acquire(noWait, v, t, id, mode) == Acquire(noWait, v1, t, id, mode);
      if RequestOf(v.table, id, t).Some? {
        if RequestOf(v.table, id, t).value.mode == mode {
          AcquireRepeat(noWait, v1, t, id, mode);
        } else {
          AcquireUpgrade(noWait, v1, t, id, mode);
        }
      } else {
        AcquireNew(noWait, v1, t, id, mode);
      }
    }
  }

  // ---- which outcome it is ----

  /** No granted request of another transaction excludes mode. */
  predicate Free(q: Queue, t: nat, mode: LockMode) {
    forall j :: 0 <= j < |q.requests| && q.requests[j].txn != t && q.requests[j].granted ==>
      Compatible(q.requests[j].mode, mode)
  }

  /** The caller is not past its growing phase, and asks for no intention mode on a row. */
  predicate MayLock(txn: Txn, id: LockId, mode: LockMode) {
    && (txn.state == DefaultState || txn.state == Growing)
    && (id.kind == RowLock ==> mode == Shared || mode == Exclusive)
  }

  /** A request that is there in another mode may be changed only by a legal upgrade, one at a time. */
  predicate MayUpgrade(q: Queue, t: nat, mode: LockMode) {
    var r := RequestIn(q.requests, t);
    r.Some? && r.value.mode != mode ==> !q.upgrading && Upgradable(r.value.mode, mode)
  }

  /** The whole of a lock call, without its steps: granted exactly when legal and free, blocked exactly when legal and
      not free in waiting mode, refused and aborted otherwise; and what becomes of the queue, state and lock sets. */
  ghost predicate LockedAs(noWait: bool, v: View, t: nat, id: LockId, mode: LockMode, v': View, outcome: Outcome) {
    var q, q' := QueueOf(v.table, id), QueueOf(v'.table, id);
    var legal := MayLock(v.txn, id, mode) && MayUpgrade(q, t, mode);
    var r := RequestIn(q.requests, t);
    && (outcome == Granted <==> legal && Free(q, t, mode))
    && (outcome == Blocked <==> legal && !Free(q, t, mode) && !noWait)
    && v'.txn.state == (if outcome == Refused then Aborted else Growing)
    && v'.txn.sets == (if outcome == Granted then AddTo(v.txn.sets, mode, id) else v.txn.sets)
    && (!legal ==> q' == q)
    && (legal ==>
          && q'.requests == (if r.Some? then q.requests[OwnIndex(q.requests, t) := Request(t, mode, outcome == Granted)]
                             else q.requests + [Request(t, mode, outcome == Granted)])
          && q'.upgrading == (if r.Some? && r.value.mode != mode then outcome != Granted else q.upgrading))
    && (forall i :: i != id ==> QueueOf(v'.table, i) == QueueOf(v.table, i))
  }

  lemma {:induction false} FreeIsCompatible(q: Queue, t: nat, i: nat)
    requires OnePerTxn(q.requests) && i < |q.requests| && q.requests[i].txn == t
    ensures QueueCompatible(q.requests, i) <==> Free(q, t, q.requests[i].mode)
  {
  }

  /** The wait on request i, evaluated once: granted exactly when the transaction is not aborted and the rest free. */
  ghost predicate SettledAs(noWait: bool, v: View, id: LockId, q: Queue, i: nat, kind: WaitKind, v': View, outcome: Outcome)
    requires i < |q.requests|
  {
    var r := q.requests[i];
    var free := Free(q, r.txn, r.mode);
    && (outcome == Granted <==> v.txn.state != Aborted && free)
    && (outcome == Blocked <==> v.txn.state != Aborted && !free && !noWait)
    && v'.txn.state == (if outcome == Refused then Aborted else v.txn.state)
    && v'.txn.sets == (if outcome == Granted then AddTo(v.txn.sets, r.mode, id) else v.txn.sets)
    && QueueOf(v'.table, id) ==
         Queue(q.requests[i := Request(r.txn, r.mode, r.granted || outcome == Granted)],
               q.upgrading && !(outcome == Granted && kind == Upgrade))
    && (forall i :: i != id ==> QueueOf(v'.table, i) == QueueOf(v.table, i))
  }

  lemma {:induction false} SettleExactly(noWait: bool, v: View, id: LockId, q: Queue, i: nat, kind: WaitKind)
    requires OnePerTxn(q.requests) && i < |q.requests|
    ensures var step := Settle(noWait, v, id, q, i, kind);
            SettledAs(noWait, v, id, q, i, kind, step.view, step.outcome)
  {
    FreeIsCompatible(q, q.requests[i].txn, i);
    assert q.requests[i := q.requests[i]] == q.requests;
  }

  lemma {:induction false} HeldExactly(noWait: bool, v: View, t: nat, id: LockId, mode: LockMode)
    requires GoodTable(v.table) && v.txn.state == Growing && MayLock(v.txn, id, mode) && Holds(v.table, id, t, mode)
    ensures var step := Acquire(noWait, v, t, id, mode); LockedAs(noWait, v, t, id, mode, step.view, step.outcome)
  {
    var q := QueueOf(v.table, id);
    var i := OwnIndex(q.requests, t);
    assert GoodQueue(q) && q.requests[i] == Request(t, mode, true);
    assert Free(q, t, mode);
    assert q.requests[i := Request(t, mode, true)] == q.requests;
    assert QueueOf(SetQueue(v.table, id, q), id) == q;
    hide Settle, Compatible, AddTo, Free;
  }

  lemma {:induction false} RepeatExactly(noWait: bool, v: View, t: nat, id: LockId, mode: LockMode)
    requires GoodTable(v.table) && v.txn.state == Growing && MayLock(v.txn, id, mode)
    requires RequestOf(v.table, id, t) == Some(Request(t, mode, false))
    ensures var step := Acquire(noWait, v, t, id, mode); LockedAs(noWait, v, t, id, mode, step.view, step.outcome)
  {
    var q := QueueOf(v.table, id);
    var i := OwnIndex(q.requests, t);
    assert GoodQueue(q) && q.requests[i] == Request(t, mode, false);
    SettleExactly(noWait, v, id, q, i, Repeat);
    assert Acquire(noWait, v, t, id, mode) == Settle(noWait, v, id, q, i, Repeat);
    var step := Acquire(noWait, v, t, id, mode);
    assert QueueOf(step.view.table, id).requests == q.requests[i := Request(t, mode, step.outcome == Granted)];
    hide Acquire, Settle, Compatible, AddTo, Free;
  }

  lemma {:induction false} UpgradeExactly(noWait: bool, v: View, t: nat, id: LockId, mode: LockMode)
    requires GoodTable(v.table) && v.txn.state == Growing && MayLock(v.txn, id, mode)
    requires RequestOf(v.table, id, t).Some? && RequestOf(v.table, id, t).value.mode != mode
    ensures var step := Acquire(noWait, v, t, id, mode); LockedAs(noWait, v, t, id, mode, step.view, step.outcome)
  {
    var q := QueueOf(v.table, id);
    var i := OwnIndex(q.requests, t);
    assert GoodQueue(q);
    var q1 := Queue(q.requests[i := Request(t, mode, false)], true);
    assert Free(q1, t, mode) <==> Free(q, t, mode) by { SameOthers(q, q1, t, i, mode); }
    SettleExactly(noWait, v, id, q1, i, Upgrade);
    assert q1.requests[i := Request(t, mode, true)] == q.requests[i := Request(t, mode, true)];
    assert q1.requests[i := Request(t, mode, false)] == q1.requests;
    hide Settle, Compatible, Upgradable, AddTo, Free;
  }

  lemma {:induction false} SameOthers(q: Queue, q1: Queue, t: nat, i: nat, mode: LockMode)
    requires OnePerTxn(q.requests) && i < |q.requests| && q.requests[i].txn == t
    requires q1.requests == q.requests[i := Request(t, mode, false)]
    ensures OnePerTxn(q1.requests) && (Free(q1, t, mode) <==> Free(q, t, mode))
  {
    var rs, rs1 := q.requests, q1.requests;
    assert forall j :: 0 <= j < |rs| ==> rs1[j].txn == rs[j].txn && (rs[j].txn != t ==> rs1[j] == rs[j]);
    hide Compatible;
  }

  lemma {:induction false} FreshExactly(noWait: bool, v: View, t: nat, id: LockId, mode: LockMode)
    requires GoodTable(v.table) && v.txn.state == Growing && MayLock(v.txn, id, mode)
    requires RequestOf(v.table, id, t) == None
    ensures var step := Acquire(noWait, v, t, id, mode); LockedAs(noWait, v, t, id, mode, step.view, step.outcome)
  {
    var q, i := QueueOf(v.table, id), |QueueOf(v.table, id).requests|;
    assert GoodQueue(q);
    AppendKeepsOthers(q.requests, Request(t, mode, false));
    var q1 := q.(requests := q.requests + [Request(t, mode, false)]);
    assert Free(q1, t, mode) <==> Free(q, t, mode) by { OneMoreRequest(q, q1, t, mode); }
    SettleExactly(noWait, v, id, q1, i, Fresh);
    assert q1.requests[i := Request(t, mode, true)] == q.requests + [Request(t, mode, true)];
    assert q1.requests[i := Request(t, mode, false)] == q1.requests;
    hide Settle, Compatible, AddTo, Free;
  }

  lemma {:induction false} OneMoreRequest(q: Queue, q1: Queue, t: nat, mode: LockMode)
    requires q1.requests == q.requests + [Request(t, mode, false)]
    ensures Free(q1, t, mode) <==> Free(q, t, mode)
  {
    forall j | 0 <= j < |q.requests| ensures q1.requests[j] == q.requests[j] {}
  }

  /** So it is for every lock call. */
  lemma {:induction false} AcquireExactly(noWait: bool, v: View, t: nat, id: LockId, mode: LockMode)
    requires GoodTable(v.table)
    ensures var step := Acquire(noWait, v, t, id, mode); LockedAs(noWait, v, t, id, mode, step.view, step.outcome)
  {
    var state := if v.txn.state == DefaultState then Growing else v.txn.state;
    var v1 := v.(txn := v.txn.(state := state));
    if MayLock(v.txn, id, mode) {
      assert Acquire(noWait, v, t, id, mode) == Acquire(noWait, v1, t, id, mode);
      if RequestOf(v.table, id, t) == None {
        FreshExactly(noWait, v1, t, id, mode);
      } else if RequestOf(v.table, id, t) == Some(Request(t, mode, true)) {
        HeldExactly(noWait, v1, t, id, mode);
      } else if RequestOf(v.table, id, t) == Some(Request(t, mode, false)) {
        RepeatExactly(noWait, v1, t, id, mode);
      } else {
        UpgradeExactly(noWait, v1, t, id, mode);
      }
    }
    hide Settle, Compatible, Upgradable, AddTo, Free;
  }

  /** Without its i-th request. */
  predicate LeavesOut(rs: seq<Request>, rs': seq<Request>, i: nat) {
    i < |rs| && rs' == rs[..i] + rs[i + 1..]
  }

  /** An unlock call drops exactly the caller's granted request on that id, keeps the order of the others,
      and leaves the upgrading flag of every queue as it was. */
  lemma {:induction false} ReleaseEffect(v: View, t: nat, id: LockId)
    requires GoodTable(v.table)
    ensures var (v', ok) := Release(v, t, id);
            var r := RequestOf(v.table, id, t);
            && OnlyTouches(v.table, v'.table, id, t)
            && (ok <==> r.Some? && r.value.granted)
            && RequestOf(v'.table, id, t) == (if ok then None else r)
            && (if ok then LeavesOut(QueueOf(v.table, id).requests, QueueOf(v'.table, id).requests,
                                     OwnIndex(QueueOf(v.table, id).requests, t))
                else QueueOf(v'.table, id) == QueueOf(v.table, id))
            && (forall j {:trigger QueueOf(v'.table, j)} :: QueueOf(v'.table, j).upgrading == QueueOf(v.table, j).upgrading)
            && (forall j {:trigger QueueOf(v'.table, j)} :: j != id ==> QueueOf(v'.table, j) == QueueOf(v.table, j))
            && v'.txn.sets == EraseFrom(v.txn.sets, id)
            && v'.txn.state == (if !ok then Aborted else if v.txn.state == Growing then Shrinking else v.txn.state)
  {
    var q := QueueOf(v.table, id);
    assert GoodQueue(q);
    GrantedIsOwn(q.requests, t);
    var i := GrantedIndex(q.requests, t);
    QueueChange(v.table, id, q, t);
    if i < |q.requests| {
      DropKeepsOthers(q.requests, i);
      QueueChange(v.table, id, q.(requests := q.requests[..i] + q.requests[i + 1..]), t);
    }
  }
}
