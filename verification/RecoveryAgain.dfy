// Recovering a second time: after a crash anywhere in the undo pass, and after
// a recovery that ran to its end.
module RecoveryAgain {
  import opened Bytes
  import opened LogRecords
  import opened RecoveryModel
  import opened RecoveryCorrect

  function Start(records: seq<LogRecord>, nextLsn: int): UndoState {
    UndoState(Active(records), [], nextLsn)
  }

  /** What undo appends before its ABORT records. */
  function Undone(records: seq<LogRecord>, nextLsn: int): UndoState {
    UndoDown(records, |records|, Start(records, nextLsn))
  }

  // ---- a crash before the ABORT records ----

  /** r writes a key, for an unfinished transaction that had written it. */
  ghost predicate Compensates(records: seq<LogRecord>, r: LogRecord) {
    HasRow(r.kind) && exists k :: 0 <= k < |records| && Loser(records, k) && Writes(records[k], r.key) && records[k].txn == r.txn
  }

  ghost predicate AllCompensate(records: seq<LogRecord>, extra: seq<LogRecord>) {
    forall j :: 0 <= j < |extra| ==> Compensates(records, extra[j])
  }

  lemma {:induction false} UndoCompensates(records: seq<LogRecord>, n: nat, s: UndoState)
    requires n <= |records| && AllCompensate(records, s.appended)
    ensures AllCompensate(records, UndoDown(records, n, s).appended)
  {
    if n > 0 {
      var r := records[n - 1];
      if Loser(records, n - 1) && HasRow(r.kind) {
        assert Writes(records[n - 1], Compensation(s, r).key);
        assert Compensates(records, Compensation(s, r));
      }
      UndoCompensates(records, n - 1, if Loser(records, n - 1) then UndoOne(s, r) else s);
    }
  }

  /** Compensations change nobody's fate. */
  lemma {:induction false} SameLosers(records: seq<LogRecord>, extra: seq<LogRecord>, k: nat)
    requires AllCompensate(records, extra) && k < |records + extra|
    ensures Loser(records + extra, k) <==> k >= |records| || Loser(records, k)
  {
    var log, n := records + extra, |records|;
    if k < n {
      if Loser(log, k) {
        forall j | k <= j < n && records[j].txn == records[k].txn ensures !Finishes(records[j].kind) {
          assert log[j] == records[j];
        }
      }
      if Loser(records, k) {
        forall j | k <= j < |log| && log[j].txn == log[k].txn ensures !Finishes(log[j].kind) {
          if j >= n { assert Compensates(records, extra[j - n]); }
        }
      }
    } else {
      forall j | k <= j < |log| && log[j].txn == log[k].txn ensures !Finishes(log[j].kind) {
        assert Compensates(records, extra[j - n]);
      }
    }
  }

  lemma {:induction false} CompensatedKey(records: seq<LogRecord>, extra: seq<LogRecord>, j: nat)
    requires AllCompensate(records, extra) && j < |extra|
    ensures FirstUndone(records, |records|, extra[j].key) >= 0
  {
  }

  lemma {:induction false} SameFirstUndone(records: seq<LogRecord>, extra: seq<LogRecord>, key: Str)
    requires AllCompensate(records, extra)
    ensures FirstUndone(records + extra, |records + extra|, key) == FirstUndone(records, |records|, key)
  {
    var log, n := records + extra, |records|;
    var f, g := FirstUndone(records, n, key), FirstUndone(log, |log|, key);
    if f >= 0 {
      SameLosers(records, extra, f);
      assert log[f] == records[f];
    }
    if g >= n {
      CompensatedKey(records, extra, g - n);
    } else if g >= 0 {
      SameLosers(records, extra, g);
      assert log[g] == records[g];
    }
  }

  lemma {:induction false} SameFinished(records: seq<LogRecord>, extra: seq<LogRecord>, m: nat)
    requires AllCompensate(records, extra) && m <= |records + extra|
    ensures Finished(records + extra, m) == Finished(records, if m <= |records| then m else |records|)
  {
    if m > 0 {
      SameLosers(records, extra, m - 1);
      SameFinished(records, extra, m - 1);
    }
  }

  /** A crash anywhere in the undo walk does no harm: recovering from the log it left ends with the same store. */
  lemma {:induction false} CrashInUndo(records: seq<LogRecord>, nextLsn: int, m: nat)
    requires m <= |Undone(records, nextLsn).appended|
    ensures Recovered(records + Undone(records, nextLsn).appended[..m]) == Recovered(records)
  {
    var extra := Undone(records, nextLsn).appended[..m];
    UndoCompensates(records, |records|, Start(records, nextLsn));
    var log := records + extra;
    forall key ensures SameAt(Recovered(log), Recovered(records), key) { SameRecovered(records, extra, key); }
    SameEverywhere(Recovered(log), Recovered(records));
  }

  lemma {:induction false} SameRecovered(records: seq<LogRecord>, extra: seq<LogRecord>, key: Str)
    requires AllCompensate(records, extra)
    ensures SameAt(Recovered(records + extra), Recovered(records), key)
  {
    var log, f := records + extra, FirstUndone(records, |records|, key);
    SameFirstUndone(records, extra, key);
    SameFinished(records, extra, |log|);
    RecoveredKey(log, key);
    RecoveredKey(records, key);
    if f >= 0 { assert log[f] == records[f]; }
  }

  // ---- the log after a whole recovery ----

  function LogAfter(records: seq<LogRecord>, nextLsn: int, order: seq<nat>): seq<LogRecord>
    requires forall t :: t in order ==> t in Undone(records, nextLsn).active
  {
    var s := Undone(records, nextLsn);
    records + s.appended + AbortRecords(order, s.active, s.nextLsn)
  }

  lemma {:induction false} Snoc(base: seq<LogRecord>, a: seq<LogRecord>, r: LogRecord)
    ensures Replay(base + (a + [r])) == Apply(Replay(base + a), r)
    ensures Active(base + (a + [r])) == Track(Active(base + a), r)
  {
    var log := base + (a + [r]);
    assert log[..|log| - 1] == base + a;
  }

  /** Replaying the compensations: like the undo itself, but a restored key gets the value it was deleted with. */
  lemma {:induction false} UndoneLog(base: seq<LogRecord>, records: seq<LogRecord>, n: nat, s: UndoState, end: UndoState, key: Str)
    requires n <= |records| && end == UndoDown(records, n, s)
    ensures var f, kv := FirstUndone(records, n, key), Replay(base + end.appended);
            if f < 0 then SameAt(kv, Replay(base + s.appended), key)
            else if records[f].kind == Delete then key in kv && kv[key] == records[f].value
            else key !in kv
  {
    hide Replay, Active, Loser;
    if n > 0 {
      var r := records[n - 1];
      if Loser(records, n - 1) && HasRow(r.kind) { Snoc(base, s.appended, Compensation(s, r)); }
      UndoneLog(base, records, n - 1, if Loser(records, n - 1) then UndoOne(s, r) else s, end, key);
    }
  }

  /** active_txn_ stays what a redo of the longer log would make it. */
  lemma {:induction false} UndoTracks(base: seq<LogRecord>, records: seq<LogRecord>, n: nat, s: UndoState)
    requires n <= |records| && Active(base + s.appended) == s.active
    ensures Active(base + UndoDown(records, n, s).appended) == UndoDown(records, n, s).active
  {
    hide Replay, Active, Loser;
    if n > 0 {
      var r := records[n - 1];
      if Loser(records, n - 1) && HasRow(r.kind) { Snoc(base, s.appended, Compensation(s, r)); }
      UndoTracks(base, records, n - 1, if Loser(records, n - 1) then UndoOne(s, r) else s);
    }
  }

  lemma {:induction false} MinusSnoc(active: map<nat, int>, front: seq<nat>, t: nat)
    ensures active - (set u | u in front) - {t} == active - (set u | u in front + [t])
  {
    assert (set u | u in front + [t]) == (set u | u in front) + {t};
  }

  lemma {:induction false} AbortsReplay(log: seq<LogRecord>, order: seq<nat>, active: map<nat, int>, lsn: int)
    requires forall t :: t in order ==> t in active
    ensures Replay(log + AbortRecords(order, active, lsn)) == Replay(log)
    ensures Active(log + AbortRecords(order, active, lsn)) == Active(log) - (set t | t in order)
  {
    if order == [] {
      assert log + [] == log;
    } else {
      var front, t := order[..|order| - 1], order[|order| - 1];
      hide Replay, Active;
      AbortsReplay(log, front, active, lsn);
      MinusSnoc(Active(log), front, t);
      assert front + [t] == order;
      Snoc(log, AbortRecords(front, active, lsn), LogRecord(lsn + |front|, t, active[t], Abort, [], []));
    }
  }

  /** A finished recovery leaves no transaction active. */
  lemma {:induction false} NothingActiveAfter(records: seq<LogRecord>, nextLsn: int, order: seq<nat>)
    requires Enumerates(order, Undone(records, nextLsn).active)
    ensures Active(LogAfter(records, nextLsn, order)) == map[]
    ensures Replay(LogAfter(records, nextLsn, order)) == Replay(records + Undone(records, nextLsn).appended)
  {
    var s := Undone(records, nextLsn);
    assert records + [] == records;
    UndoTracks(records, records, |records|, Start(records, nextLsn));
    AbortsReplay(records + s.appended, order, s.active, s.nextLsn);
  }

  lemma {:induction false} NoneActiveNoLoser(log: seq<LogRecord>, n: nat, s: UndoState, kv: KV)
    requires n <= |log| && Active(log) == map[]
    ensures UndoDown(log, n, s) == s && UndoKV(log, n, kv) == kv && LoserLsns(log, n) == []
  {
    if n > 0 {
      assert !Loser(log, n - 1) by { ActiveIsLast(log, log[n - 1].txn); }
      NoneActiveNoLoser(log, n - 1, s, kv);
    }
  }

  /** A second recovery has nothing to undo, finds the same keys, and gives each key an unfinished
      transaction had deleted first the value that delete had logged. */
  lemma {:induction false} SecondRecovery(records: seq<LogRecord>, nextLsn: int, order: seq<nat>)
    requires Enumerates(order, Undone(records, nextLsn).active)
    ensures var log := LogAfter(records, nextLsn, order);
            && LoserLsns(log, |log|) == []
            && Recovered(log).Keys == Recovered(records).Keys
            && forall key :: key in Recovered(log) ==>
                 var f := FirstUndone(records, |records|, key);
                 Recovered(log)[key] == if f >= 0 then records[f].value else Recovered(records)[key]
  {
    var log := LogAfter(records, nextLsn, order);
    NothingActiveAfter(records, nextLsn, order);
    NoneActiveNoLoser(log, |log|, Start(log, nextLsn), Replay(log));
    var kv, first := Recovered(log), Recovered(records);
    assert records + [] == records;
    forall key ensures key in kv.Keys <==> key in first.Keys {
      UndoneLog(records, records, |records|, Start(records, nextLsn), Undone(records, nextLsn), key);
      UndoneKey(records, |records|, Replay(records), key);
    }
    forall key | key in kv
      ensures var f := FirstUndone(records, |records|, key); kv[key] == if f >= 0 then records[f].value else first[key]
    {
      UndoneLog(records, records, |records|, Start(records, nextLsn), Undone(records, nextLsn), key);
      UndoneKey(records, |records|, Replay(records), key);
    }
  }

  // ---- a crash among the ABORT records ----

  predicate IsAbort(r: LogRecord, t: nat, lsn: int) {
    r.kind == Abort && r.txn == t && r.lsn == lsn && r.key == [] && r.value == []
  }

  lemma {:induction false} AbortsAre(order: seq<nat>, active: map<nat, int>, lsn: int)
    requires forall t :: t in order ==> t in active
    ensures |AbortRecords(order, active, lsn)| == |order|
    ensures forall i :: 0 <= i < |order| ==> IsAbort(AbortRecords(order, active, lsn)[i], order[i], lsn + i)
  {
    if order != [] { AbortsAre(order[..|order| - 1], active, lsn); }
  }

  /** Once its ABORT record is in the log a transaction has no unfinished record. */
  lemma {:induction false} AbortedIsNoLoser(log: seq<LogRecord>, aborts: seq<LogRecord>, k: nat, i: nat)
    requires k < |log| && i < |aborts| && aborts[i].txn == log[k].txn && aborts[i].kind == Abort
    ensures !Loser(log + aborts, k)
  {
    assert (log + aborts)[|log| + i] == aborts[i];
  }

  lemma {:induction false} LoserInPrefix(log: seq<LogRecord>, aborts: seq<LogRecord>, k: nat)
    requires k < |log + aborts| && Loser(log + aborts, k)
    requires forall i :: 0 <= i < |aborts| ==> aborts[i].kind == Abort
    ensures k < |log| && Loser(log, k)
  {
    assert (log + aborts)[k].kind != Abort;
    forall j | k <= j < |log| && log[j].txn == log[k].txn ensures !Finishes(log[j].kind) {
      assert (log + aborts)[j] == log[j];
    }
  }

  lemma {:induction false} StillLoser(log: seq<LogRecord>, aborts: seq<LogRecord>, k: nat)
    requires k < |log| && Loser(log, k) && forall i :: 0 <= i < |aborts| ==> aborts[i].txn != log[k].txn
    ensures Loser(log + aborts, k)
  {
  }

  /** In a disciplined log, every unfinished write of a key, compensations included, is the first writer's. */
  lemma {:induction false} OneWriter(records: seq<LogRecord>, extra: seq<LogRecord>, k: nat, key: Str)
    requires Disciplined(records) && AllCompensate(records, extra)
    requires k < |records + extra| && Loser(records + extra, k) && Writes((records + extra)[k], key)
    ensures var f := FirstUndone(records, |records|, key);
            0 <= f <= k && (records + extra)[k].txn == records[f].txn
  {
    hide Disciplined, Loser;
    var n := |records|;
    SameLosers(records, extra, k);
    if k >= n {
      assert Compensates(records, extra[k - n]);
      var i :| 0 <= i < n && Loser(records, i) && Writes(records[i], key) && records[i].txn == extra[k - n].txn;
      FirstWriters(records, i, key);
    } else {
      FirstWriters(records, k, key);
    }
  }

  /** Every unfinished write of a key is by the transaction that made the first one. */
  lemma {:induction false} FirstWriters(records: seq<LogRecord>, i: nat, key: Str)
    requires Disciplined(records) && i < |records| && Loser(records, i) && Writes(records[i], key)
    ensures var f := FirstUndone(records, |records|, key); 0 <= f <= i && records[i].txn == records[f].txn
  {
    var f := FirstUndone(records, |records|, key);
    assert f < i ==> records[i].txn == records[f].txn;
  }

  /** A key after recovering from a log that ends with some of the ABORT records. */
  lemma {:induction false} KeyAfterAborts(records: seq<LogRecord>, extra: seq<LogRecord>, aborts: seq<LogRecord>, key: Str)
    requires Disciplined(records) && AllCompensate(records, extra)
    requires forall i :: 0 <= i < |aborts| ==> aborts[i].kind == Abort
    ensures var f, log := FirstUndone(records, |records|, key), records + extra + aborts;
            (f >= 0 && (forall i :: 0 <= i < |aborts| ==> aborts[i].txn != records[f].txn)
             && FirstUndone(log, |log|, key) == f && log[f] == records[f])
            || FirstUndone(log, |log|, key) < 0
  {
    var log, f := records + extra + aborts, FirstUndone(records, |records|, key);
    var g := FirstUndone(log, |log|, key);
    if g >= 0 {
      LoserInPrefix(records + extra, aborts, g);
      assert log[g] == (records + extra)[g];
      OneWriter(records, extra, g, key);
      assert log[f] == records[f];
      forall i | 0 <= i < |aborts| ensures aborts[i].txn != records[f].txn {
        if aborts[i].txn == records[f].txn { AbortedIsNoLoser(records + extra, aborts, g, i); }
      }
      SameLosers(records, extra, f);
      StillLoser(records + extra, aborts, f);
    }
  }

  /** A crash among the ABORT records of a disciplined log's recovery does not change the keys either. */
  lemma {:induction false} CrashInAborts(records: seq<LogRecord>, nextLsn: int, order: seq<nat>, m: nat)
    requires Disciplined(records) && m <= |order| && Enumerates(order, Undone(records, nextLsn).active)
    ensures Recovered(LogAfter(records, nextLsn, order[..m])).Keys == Recovered(records).Keys
  {
    var s := Undone(records, nextLsn);
    var done := order[..m];
    var aborts := AbortRecords(done, s.active, s.nextLsn);
    var log := records + s.appended + aborts;
    UndoCompensates(records, |records|, Start(records, nextLsn));
    AbortsAre(done, s.active, s.nextLsn);
    assert records + [] == records && log[..|log|] == log && records[..|records|] == records;
    AbortsReplay(records + s.appended, done, s.active, s.nextLsn);
    forall key ensures key in Recovered(log).Keys <==> key in Recovered(records).Keys {
      KeyAfterAborts(records, s.appended, aborts, key);
      RecoveredKey(log, key);
      RecoveredKey(records, key);
      UndoneLog(records, records, |records|, Start(records, nextLsn), Undone(records, nextLsn), key);
      if FirstUndone(log, |log|, key) < 0 {
        UntouchedKey(log, |log|, key);
        if FirstUndone(records, |records|, key) < 0 { UntouchedKey(records, |records|, key); }
      }
    }
  }

  // ---- the log stays well formed ----

  lemma {:induction false} WellFormedSnoc(log: seq<LogRecord>, r: LogRecord)
    requires WellFormed(log) && r.lsn >= 0 && (forall k :: 0 <= k < |log| ==> log[k].lsn < r.lsn)
    requires r.prevLsn == PrevFor(log, r.txn)
    ensures WellFormed(log + [r])
  {
    var longer := log + [r];
    forall k | 0 <= k < |longer| ensures longer[k].prevLsn == PrevFor(longer[..k], longer[k].txn) {
      assert longer[..k] == log[..k];
      if k == |log| { assert log[..k] == log; } else { assert log[k].prevLsn == PrevFor(log[..k], log[k].txn); }
    }
  }

  /** Every LSN so far is below the next one. */
  ghost predicate Below(log: seq<LogRecord>, nextLsn: int) {
    nextLsn >= 0 && forall k :: 0 <= k < |log| ==> log[k].lsn < nextLsn
  }

  /** A well-formed log with its active transactions and next LSN. */
  ghost predicate GoodLog(log: seq<LogRecord>, active: map<nat, int>, nextLsn: int) {
    WellFormed(log) && Below(log, nextLsn) && Active(log) == active
  }

  lemma {:induction false} GoodSnoc(log: seq<LogRecord>, active: map<nat, int>, nextLsn: int, r: LogRecord)
    requires GoodLog(log, active, nextLsn) && r.lsn == nextLsn
    requires r.prevLsn == if r.txn in active then active[r.txn] else INVALID_LSN
    ensures GoodLog(log + [r], Track(active, r), nextLsn + 1)
  {
    ActiveIsLast(log, r.txn);
    WellFormedSnoc(log, r);
    assert (log + [r])[..|log|] == log;
  }

  /** What appending keeps: a property of a log, its active transactions and its next LSN that survives
      every further record of an active transaction with the right LSN and prev-LSN. */
  ghost predicate KeptByAppends(good: (seq<LogRecord>, map<nat, int>, int) -> bool) {
    forall log: seq<LogRecord>, active: map<nat, int>, lsn: int, r: LogRecord {:trigger good(log, active, lsn), Track(active, r)} ::
      good(log, active, lsn) && r.txn in active && r.lsn == lsn && r.prevLsn == active[r.txn] ==>
        good(log + [r], Track(active, r), lsn + 1)
  }

  ghost predicate LosersIn(records: seq<LogRecord>, txns: set<nat>) {
    forall k :: 0 <= k < |records| && Loser(records, k) ==> records[k].txn in txns
  }

  lemma {:induction false} UndoAppendsOne(good: (seq<LogRecord>, map<nat, int>, int) -> bool,
                                          records: seq<LogRecord>, s: UndoState, r: LogRecord)
    requires KeptByAppends(good) && r.txn in s.active && good(records + s.appended, s.active, s.nextLsn)
    ensures var s' := UndoOne(s, r); good(records + s'.appended, s'.active, s'.nextLsn)
  {
    if HasRow(r.kind) {
      var c := Compensation(s, r);
      assert records + (s.appended + [c]) == records + s.appended + [c];
      assert Track(s.active, c) == UndoOne(s, r).active;
    }
  }

  lemma {:induction false} UndoAppends(good: (seq<LogRecord>, map<nat, int>, int) -> bool,
                                       records: seq<LogRecord>, n: nat, s: UndoState, end: UndoState, losers: set<nat>)
    requires KeptByAppends(good) && n <= |records| && LosersIn(records, losers) && losers <= s.active.Keys
    requires good(records + s.appended, s.active, s.nextLsn) && end == UndoDown(records, n, s)
    ensures good(records + end.appended, end.active, end.nextLsn)
  {
    hide KeptByAppends, Loser;
    if n > 0 {
      var s1 := if Loser(records, n - 1) then UndoOne(s, records[n - 1]) else s;
      if Loser(records, n - 1) { UndoAppendsOne(good, records, s, records[n - 1]); }
      UndoAppends(good, records, n - 1, s1, end, losers);
    }
  }

  lemma {:induction false} AbortsAppend(good: (seq<LogRecord>, map<nat, int>, int) -> bool,
                                        log: seq<LogRecord>, order: seq<nat>, active: map<nat, int>, lsn: int)
    requires KeptByAppends(good) && good(log, active, lsn) && (forall t :: t in order ==> t in active)
    requires forall i, j :: 0 <= i < j < |order| ==> order[i] != order[j]
    ensures good(log + AbortRecords(order, active, lsn), active - (set t | t in order), lsn + |order|)
  {
    if order == [] {
      assert log + [] == log && active - (set t | t in order) == active;
    } else {
      var front, t := order[..|order| - 1], order[|order| - 1];
      hide KeptByAppends;
      AbortsAppend(good, log, front, active, lsn);
      assert front + [t] == order && t !in front;
      AbortsAppendOne(good, log, front, t, active, lsn);
    }
  }

  lemma {:induction false} AbortsAppendOne(good: (seq<LogRecord>, map<nat, int>, int) -> bool,
                                           log: seq<LogRecord>, front: seq<nat>, t: nat, active: map<nat, int>, lsn: int)
    requires KeptByAppends(good) && (forall u :: u in front + [t] ==> u in active) && t !in front
    requires forall u :: u in front ==> u in active
    requires good(log + AbortRecords(front, active, lsn), active - (set u | u in front), lsn + |front|)
    ensures good(log + AbortRecords(front + [t], active, lsn), active - (set u | u in front + [t]), lsn + |front| + 1)
  {
    assert (front + [t])[|front|] == t;
    AbortRecordsGrow(log, front, t, active, lsn);
    MinusSnoc(active, front, t);
    var left, r := active - (set u | u in front), LogRecord(lsn + |front|, t, active[t], Abort, [], []);
    assert Track(left, r) == active - (set u | u in front + [t]);
  }

  /** Recovery turns a well-formed log into a well-formed log, so it can always be recovered again. */
  lemma {:induction false} RecoveryKeepsLogs(records: seq<LogRecord>, nextLsn: int, order: seq<nat>)
    requires WellFormed(records) && Below(records, nextLsn) && Enumerates(order, Undone(records, nextLsn).active)
    ensures WellFormed(LogAfter(records, nextLsn, order))
    ensures Below(LogAfter(records, nextLsn, order), Undone(records, nextLsn).nextLsn + |order|)
  {
    assert records + [] == records;
    forall k | 0 <= k < |records| && Loser(records, k) ensures records[k].txn in Active(records) {
      ActiveIsLast(records, records[k].txn);
    }
    var good := (log: seq<LogRecord>, active: map<nat, int>, lsn: int) => GoodLog(log, active, lsn);
    GoodIsKept(good);
    UndoAppends(good, records, |records|, Start(records, nextLsn), Undone(records, nextLsn), Active(records).Keys);
    var s := Undone(records, nextLsn);
    AbortsAppend(good, records + s.appended, order, s.active, s.nextLsn);
  }

  lemma {:induction false} GoodIsKept(good: (seq<LogRecord>, map<nat, int>, int) -> bool)
    requires forall log: seq<LogRecord>, active: map<nat, int>, lsn: int :: good(log, active, lsn) <==> GoodLog(log, active, lsn)
    ensures KeptByAppends(good)
  {
    forall log: seq<LogRecord>, active: map<nat, int>, lsn: int, r: LogRecord {:trigger good(log, active, lsn), Track(active, r)}
      | good(log, active, lsn) && r.txn in active && r.lsn == lsn && r.prevLsn == active[r.txn]
      ensures good(log + [r], Track(active, r), lsn + 1)
    {
      GoodSnoc(log, active, lsn, r);
    }
  }
}
