// From running transactions, through the double-buffered log, to recovery: a
// crash at any moment leaves a file the redo scan and the undo walk can work on.
module Durability {
  import opened Bytes
  import opened LogRecords
  import opened RecoveryModel
  import opened RecoveryManagers
  import LogModel
  import TxnLogs

  predicate FitsBuffer(r: LogRecord) {
    FitsFields(r) && Size(r) < LogModel.LOG_BUFFER_SIZE
  }

  ghost predicate AllFitBuffer(records: seq<LogRecord>) {
    forall k :: 0 <= k < |records| ==> FitsBuffer(records[k])
  }

  /** Every appended record fits its fields and is smaller than the log buffer. */
  lemma {:induction false} HistoryIsSmall(disk: Str, base: int, steps: seq<LogModel.Step>)
    ensures AllFitBuffer(LogModel.Exec(disk, base, steps).history)
  {
    if steps != [] {
      var front := LogModel.Exec(disk, base, steps[..|steps| - 1]);
      HistoryIsSmall(disk, base, steps[..|steps| - 1]);
      StepIsSmall(front, steps[|steps| - 1]);
    }
  }

  lemma {:induction false} StepIsSmall(run: LogModel.Run, step: LogModel.Step)
    requires AllFitBuffer(run.history)
    ensures AllFitBuffer(LogModel.After(run, step).history)
  {
  }

  lemma {:induction false} PrefixWellFormed(records: seq<LogRecord>, n: nat)
    requires WellFormed(records) && n <= |records|
    ensures WellFormed(records[..n])
  {
    forall k | 0 <= k < n ensures records[..n][k].prevLsn == PrevFor(records[..n][..k], records[..n][k].txn) {
      assert records[..n][..k] == records[..k];
      assert records[k].prevLsn == PrevFor(records[..k], records[k].txn);
    }
  }

  ghost predicate AllSupported(records: seq<LogRecord>) {
    forall k :: 0 <= k < |records| ==> Supported(records[k].kind)
  }

  /** The log found on disk after a crash: the old log, and the first n records appended since. */
  ghost predicate LeavesLog(base: seq<LogRecord>, run: LogModel.Run, n: nat) {
    && n <= |run.history| && Scannable(base + run.history[..n]) && WellFormed(base + run.history[..n])
    && run.log.disk == EncodeAll(base + run.history[..n])
    && forall k :: 0 <= k < |run.history| && run.history[k].lsn <= run.log.persistentLsn ==> k < n
  }

  lemma {:induction false} ScannableParts(a: seq<LogRecord>, b: seq<LogRecord>)
    requires Scannable(a) && AllFitBuffer(b) && AllSupported(b)
    ensures Scannable(a + b) && EncodeAll(a + b) == EncodeAll(a) + EncodeAll(b)
  {
    EncodeAllAppend(a, b);
  }

  lemma {:induction false} WellFormedCut(base: seq<LogRecord>, h: seq<LogRecord>, n: nat)
    requires WellFormed(base + h) && n <= |h|
    ensures WellFormed(base + h[..n])
  {
    PrefixWellFormed(base + h, |base| + n);
    assert (base + h)[..|base| + n] == base + h[..n];
  }

  /** If everything appended continues the log well, every crash leaves a well-formed log of whole records
      that holds everything a returned Flush had promised. */
  lemma {:induction false} CrashLeavesLog(base: seq<LogRecord>, baseLsn: nat, steps: seq<LogModel.Step>)
    requires Scannable(base)
    requires var run := LogModel.Exec(EncodeAll(base), baseLsn, steps);
             WellFormed(base + run.history) && AllSupported(run.history)
    ensures var run := LogModel.Exec(EncodeAll(base), baseLsn, steps); LeavesLog(base, run, run.written)
  {
    var run := LogModel.Exec(EncodeAll(base), baseLsn, steps);
    LogModel.RunsKeepInv(EncodeAll(base), baseLsn, steps);
    HistoryIsSmall(EncodeAll(base), baseLsn, steps);
    ScannableParts(base, run.history[..run.written]);
    WellFormedCut(base, run.history, run.written);
    LogModel.FlushedIsDurable(EncodeAll(base), baseLsn, steps, run.log.persistentLsn);
  }

  lemma {:induction false} OnlySupportedRecords(start: TxnLogs.World, calls: seq<TxnLogs.Call>)
    requires AllSupported(start.records)
    ensures AllSupported(TxnLogs.Exec(start, calls).records)
  {
    if calls != [] { OnlySupportedRecords(start, calls[..|calls| - 1]); }
  }

  /** Transactions that run on a cleanly started store, over any interleaving of the log manager's steps that appends
      their records in order: every crash leaves a log that redo and undo accept. */
  lemma {:induction false} CrashIsRecoverable(base: seq<LogRecord>, start: TxnLogs.World, calls: seq<TxnLogs.Call>,
                                              steps: seq<LogModel.Step>)
    requires Scannable(base) && TxnLogs.CleanStart(base, start)
    requires LogModel.Exec(EncodeAll(base), start.nextLsn, steps).history == TxnLogs.Exec(start, calls).records
    ensures var run := LogModel.Exec(EncodeAll(base), start.nextLsn, steps); LeavesLog(base, run, run.written)
  {
    TxnLogs.RunsKeepLogs(base, start, calls);
    OnlySupportedRecords(start, calls);
    CrashLeavesLog(base, start.nextLsn, steps);
  }
}
