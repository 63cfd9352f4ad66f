// The records recovery appends to a log, one by one, and the calls it makes on
// the store, against the records that were there.
module Compensations {
  import opened LogRecords
  import opened RecoveryModel
  import opened RecoveryAgain
  import S = StoreModel

  /** The INSERT and DELETE records of unfinished transactions below position n, the last one first. */
  function UnfinishedRows(records: seq<LogRecord>, n: nat): seq<LogRecord>
    requires n <= |records|
  {
    if n == 0 then [] else
      (if Loser(records, n - 1) && HasRow(records[n - 1].kind) then [records[n - 1]] else []) + UnfinishedRows(records, n - 1)
  }

  /** The opposite operation by the same transaction, on the same key and value. */
  predicate Opposes(r: LogRecord, c: LogRecord) {
    && c.txn == r.txn && c.key == r.key && c.value == r.value
    && (r.kind == Insert ==> c.kind == Delete) && (r.kind == Delete ==> c.kind == Insert)
  }

  /** One compensation for each row, in the same order, with the LSNs from lsn on. */
  ghost predicate Compensate(rows: seq<LogRecord>, added: seq<LogRecord>, lsn: int) {
    && |added| == |rows|
    && forall i :: 0 <= i < |rows| ==> added[i].lsn == lsn + i && Opposes(rows[i], added[i])
  }

  lemma {:induction false} OneMore(rows: seq<LogRecord>, added: seq<LogRecord>, r: LogRecord, c: LogRecord, lsn: int)
    requires Compensate(rows, added, lsn + 1) && c.lsn == lsn && Opposes(r, c)
    ensures Compensate([r] + rows, [c] + added, lsn)
  {
    hide Opposes;
  }

  /** What the walk has appended after s. */
  ghost predicate Mirrors(s: UndoState, end: UndoState, rows: seq<LogRecord>) {
    && s.appended <= end.appended && Compensate(rows, end.appended[|s.appended|..], s.nextLsn)
    && end.nextLsn == s.nextLsn + |rows|
  }

  lemma {:induction false} UndoMirrors(records: seq<LogRecord>, n: nat, s: UndoState)
    requires n <= |records|
    ensures Mirrors(s, UndoDown(records, n, s), UnfinishedRows(records, n))
  {
    hide Loser;
    if n > 0 {
      var r := records[n - 1];
      if Loser(records, n - 1) && HasRow(r.kind) {
        UndoMirrors(records, n - 1, UndoOne(s, r));
        MirrorsOne(s, r, UndoDown(records, n, s), UnfinishedRows(records, n - 1));
      } else {
        UndoMirrors(records, n - 1, s);
        assert [] + UnfinishedRows(records, n - 1) == UnfinishedRows(records, n - 1);
      }
    }
  }

  lemma {:induction false} MirrorsOne(s: UndoState, r: LogRecord, end: UndoState, rows: seq<LogRecord>)
    requires HasRow(r.kind) && Mirrors(UndoOne(s, r), end, rows)
    ensures Mirrors(s, end, [r] + rows)
  {
    var next := UndoOne(s, r);
    var c := Compensation(s, r);
    assert next.appended == s.appended + [c];
    OneMore(rows, end.appended[|next.appended|..], r, c, s.nextLsn);
    hide Compensate;
    assert end.appended[|s.appended|] == next.appended[|s.appended|];
    assert end.appended[|s.appended|..] == [c] + end.appended[|next.appended|..];
  }

  /** The undo walk calls del for each INSERT of an unfinished transaction, and put with the key as value for each
      DELETE, the last one first. */
  lemma {:induction false} UndoCalls(records: seq<LogRecord>, n: nat)
    requires n <= |records|
    ensures var rows, calls := UnfinishedRows(records, n), UndoOps(records, n);
            |calls| == |rows| && forall i :: 0 <= i < |rows| ==>
              calls[i] == if rows[i].kind == Insert then S.DelOp(rows[i].key) else S.PutOp(rows[i].key, rows[i].key)
  {
    if n > 0 {
      UndoCalls(records, n - 1);
      hide Loser;
    }
  }

  /** Compensations for these rows with the LSNs from lsn on, then an ABORT for each of these transactions. */
  ghost predicate IsUndoLog(rows: seq<LogRecord>, order: seq<nat>, added: seq<LogRecord>, lsn: int) {
    && |added| == |rows| + |order|
    && Compensate(rows, added[..|rows|], lsn)
    && forall i :: 0 <= i < |order| ==> IsAbort(added[|rows| + i], order[i], lsn + |rows| + i)
  }

  lemma {:induction false} JoinUndo(rows: seq<LogRecord>, order: seq<nat>, added: seq<LogRecord>,
                                    aborts: seq<LogRecord>, lsn: int)
    requires Compensate(rows, added, lsn) && |aborts| == |order|
    requires forall i :: 0 <= i < |order| ==> IsAbort(aborts[i], order[i], lsn + |rows| + i)
    ensures IsUndoLog(rows, order, added + aborts, lsn)
  {
    hide IsAbort;
    assert (added + aborts)[..|rows|] == added;
  }

  /** Undo adds one compensation for every INSERT and DELETE of an unfinished transaction, the last one first, and one
      ABORT for every transaction active after the log; each is chained to the transaction's record before. */
  lemma {:induction false} UndoLogIs(records: seq<LogRecord>, lsn: int, order: seq<nat>)
    requires WellFormed(records) && Below(records, lsn) && Enumerates(order, Undone(records, lsn).active)
    ensures var log := LogAfter(records, lsn, order);
            && records <= log && WellFormed(log)
            && IsUndoLog(UnfinishedRows(records, |records|), order, log[|records|..], lsn)
  {
    UndoMirrors(records, |records|, Start(records, lsn));
    RecoveryKeepsLogs(records, lsn, order);
    var s, rows := Undone(records, lsn), UnfinishedRows(records, |records|);
    AbortsAre(order, s.active, s.nextLsn);
    assert s.appended[0..] == s.appended;
    hide UnfinishedRows, AbortRecords, Undone, Compensate, WellFormed, Below;
    var aborts := AbortRecords(order, s.active, s.nextLsn);
    JoinUndo(rows, order, s.appended, aborts, lsn);
    assert LogAfter(records, lsn, order) == records + s.appended + aborts;
    assert (records + s.appended + aborts)[|records|..] == s.appended + aborts;
    hide IsUndoLog, LogAfter;
  }
}
