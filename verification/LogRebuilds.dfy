// The log of a run and the store the run builds: redoing the one gives the other.
module LogRebuilds {
  import opened LogRecords
  import opened RecoveryModel
  import opened RecoveredStores
  import opened Sequences
  import opened TxnLogs
  import S = StoreModel

  /** The records of w' that w does not have, redone on its store. */
  ghost predicate Redoes(w: World, w': World) {
    w.records <= w'.records && S.ApplyAll(w.store, RedoOps(w'.records[|w.records|..])) == w'.store
  }

  lemma {:induction false} NoRecord(w: World, w': World)
    requires w'.records == w.records && w'.store == w.store
    ensures Redoes(w, w')
  {
  }

  lemma {:induction false} OneRecord(w: World, r: LogRecord, w': World)
    requires w'.records == w.records + [r] && w'.store == S.ApplyAll(w.store, RedoOp(r))
    ensures Redoes(w, w')
  {
    assert w'.records[|w.records|..] == [] + [r];
    RedoOpsSnoc([], r);
  }

  lemma {:induction false} RowRedoes(w: World, w': World, r: LogRecord, op: S.Op)
    requires w'.records == w.records + [r] && RedoOp(r) == [op] && w'.store == S.Apply(w.store, op)
    ensures Redoes(w, w')
  {
    S.OneCall(w.store, op);
    OneRecord(w, r, w');
  }

  lemma {:induction false} StepRedoes(w: World, call: Call)
    ensures Redoes(w, Next(w, call))
  {
    var w', t := Next(w, call), call.txn;
    if w'.records == w.records {
      NoRecord(w, w');
    } else {
      var r := w'.records[|w.records|];
      match call
      case Begin(_) => OneRecord(w, r, w');
      case Put(_, key, value) => RowRedoes(w, w', r, S.PutOp(key, value));
      case Del(_, key) => RowRedoes(w, w', r, S.DelOp(key));
      case Finish(_, _) => OneRecord(w, r, w');
    }
  }

  lemma {:induction false} RedoOpsAppend(a: seq<LogRecord>, b: seq<LogRecord>)
    ensures RedoOps(a + b) == RedoOps(a) + RedoOps(b)
  {
    if b == [] {
      assert a + b == a && RedoOps(a) + [] == RedoOps(a);
    } else {
      var front, r := b[..|b| - 1], b[|b| - 1];
      RedoOpsAppend(a, front);
      assert front + [r] == b;
      AppendOne(a, front, r);
    }
  }

  lemma {:induction false} AppendOne(a: seq<LogRecord>, front: seq<LogRecord>, r: LogRecord)
    requires RedoOps(a + front) == RedoOps(a) + RedoOps(front)
    ensures RedoOps(a + (front + [r])) == RedoOps(a) + RedoOps(front + [r])
  {
    hide RedoOps, RedoOp;
    RedoOpsSnoc(front, r);
    RedoOpsSnoc(a + front, r);
    Assoc(a, front, [r]);
    Assoc(RedoOps(a), RedoOps(front), RedoOp(r));
  }

  lemma {:induction false} RedoesTwice(w: World, w1: World, w2: World)
    requires Redoes(w, w1) && Redoes(w1, w2)
    ensures Redoes(w, w2)
  {
    hide RedoOps, S.ApplyAll;
    var a, b := w1.records[|w.records|..], w2.records[|w1.records|..];
    assert w2.records[|w.records|..] == a + b;
    RedoOpsAppend(a, b);
    S.CallsAppend(w.store, RedoOps(a), RedoOps(b));
  }

  /** Whatever transactions do, redoing the records they have logged rebuilds exactly the store they have built:
      memtable, tables and all. */
  lemma {:induction false} LogRebuildsStore(start: World, calls: seq<Call>)
    ensures Redoes(start, Exec(start, calls))
  {
    if calls == [] {
      NoRecord(start, start);
    } else {
      var front := calls[..|calls| - 1];
      LogRebuildsStore(start, front);
      StepRedoes(Exec(start, front), calls[|calls| - 1]);
      RedoesTwice(start, Exec(start, front), Exec(start, calls));
    }
  }

  /** So with nobody unfinished a recovery of the log on an empty store ends with it, and every get finds the same. */
  lemma {:induction false} RecoveryRebuildsStore(start: World, calls: seq<Call>)
    requires start.store == S.Store([], []) && start.records == [] && NobodyLoses(Exec(start, calls).records)
    ensures RecoveredFrom(S.Store([], []), Exec(start, calls).records) == Exec(start, calls).store
  {
    LogRebuildsStore(start, calls);
    var records := Exec(start, calls).records;
    hide Exec, RedoOps, UndoOps, Loser, S.ApplyAll;
    assert records[0..] == records;
    NothingToUndo(records, |records|);
    assert RedoOps(records) + [] == RedoOps(records);
  }

  ghost predicate NobodyLoses(records: seq<LogRecord>) {
    forall k :: 0 <= k < |records| ==> !Loser(records, k)
  }

  lemma {:induction false} NothingToUndo(records: seq<LogRecord>, n: nat)
    requires n <= |records| && NobodyLoses(records)
    ensures UndoOps(records, n) == []
  {
    hide Loser;
    if n > 0 { NothingToUndo(records, n - 1); }
  }
}
