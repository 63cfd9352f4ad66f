// What src/recovery/recovery_manager.cpp computes, record by record: the redo
// pass as folds over the log, and the undo pass as a walk down over the records
// of unfinished transactions.
module RecoveryModel {
  import opened Bytes
  import opened LogRecords
  import S = StoreModel

  type KV = map<Str, Str>

  /** The store part of RedoLog. */
  function Apply(kv: KV, r: LogRecord): KV {
    match r.kind
    case Insert => kv[r.key := r.value]
    case Delete => kv - {r.key}
    case _ => kv
  }

  function Replay(records: seq<LogRecord>): KV {
    if records == [] then map[] else Apply(Replay(records[..|records| - 1]), records[|records| - 1])
  }

  /** The active_txn_ part of RedoLog. */
  function Track(active: map<nat, int>, r: LogRecord): map<nat, int> {
    if Finishes(r.kind) then active - {r.txn} else active[r.txn := r.lsn]
  }

  function Active(records: seq<LogRecord>): map<nat, int> {
    if records == [] then map[] else Track(Active(records[..|records| - 1]), records[|records| - 1])
  }

  function LogLength(records: seq<LogRecord>): nat {
    if records == [] then 0 else LogLength(records[..|records| - 1]) + Size(records[|records| - 1])
  }

  /** lsn_mapping_: offset and size of each record. */
  function Mapping(records: seq<LogRecord>): map<int, (nat, nat)> {
    if records == [] then map[] else
      var front, last := records[..|records| - 1], records[|records| - 1];
      Mapping(front)[last.lsn := (LogLength(front), Size(last))]
  }

  function MaxLsn(records: seq<LogRecord>): int {
    if records == [] then INVALID_LSN else
      var m, last := MaxLsn(records[..|records| - 1]), records[|records| - 1].lsn;
      if m >= last then m else last
  }

  // ---- logs as the log manager writes them ----

  ghost predicate Increasing(records: seq<LogRecord>) {
    && (forall k :: 0 <= k < |records| ==> records[k].lsn >= 0)
    && (forall j, k :: 0 <= j < k < |records| ==> records[j].lsn < records[k].lsn)
  }

  /** Position of the transaction's last record, or -1. */
  function LastOf(records: seq<LogRecord>, t: nat): (i: int)
    ensures -1 <= i < |records|
    ensures i >= 0 ==> records[i].txn == t
    ensures forall j :: i < j < |records| ==> records[j].txn != t
  {
    if records == [] then -1
    else if records[|records| - 1].txn == t then |records| - 1
    else LastOf(records[..|records| - 1], t)
  }

  /** The prev-LSN of a new record of t: the LSN of its last record, unless that finished t. */
  function PrevFor(records: seq<LogRecord>, t: nat): int {
    var i := LastOf(records, t);
    if i >= 0 && !Finishes(records[i].kind) then records[i].lsn else INVALID_LSN
  }

  ghost predicate Chained(records: seq<LogRecord>) {
    forall k {:trigger records[k].prevLsn} :: 0 <= k < |records| ==> records[k].prevLsn == PrevFor(records[..k], records[k].txn)
  }

  ghost predicate WellFormed(records: seq<LogRecord>) {
    Increasing(records) && Chained(records)
  }

  /** Record k belongs to a transaction that does not finish from k on. */
  predicate Loser(records: seq<LogRecord>, k: nat)
    requires k < |records|
  {
    forall j :: k <= j < |records| && records[j].txn == records[k].txn ==> !Finishes(records[j].kind)
  }

  // ---- what the redo pass ends with ----

  /** A transaction is active exactly when its last record does not finish it, with that record's LSN. */
  lemma {:induction false} ActiveIsLast(records: seq<LogRecord>, t: nat)
    ensures var i := LastOf(records, t);
            && (t in Active(records) <==> i >= 0 && !Finishes(records[i].kind))
            && (t in Active(records) ==> Active(records)[t] == records[i].lsn)
            && PrevFor(records, t) == (if t in Active(records) then Active(records)[t] else INVALID_LSN)
  {
    if records != [] { ActiveIsLast(records[..|records| - 1], t); }
  }

  /** With increasing LSNs, the mapping finds every record at its place in the file. */
  lemma {:induction false} MappingFindsAll(records: seq<LogRecord>, k: nat)
    requires Increasing(records) && k < |records|
    ensures records[k].lsn in Mapping(records)
    ensures Mapping(records)[records[k].lsn] == (LogLength(records[..k]), Size(records[k]))
  {
    var front := records[..|records| - 1];
    if k < |front| {
      MappingFindsAll(front, k);
      assert front[..k] == records[..k];
    }
  }

  lemma {:induction false} MaxLsnIsLast(records: seq<LogRecord>)
    requires Increasing(records)
    ensures MaxLsn(records) == if records == [] then INVALID_LSN else records[|records| - 1].lsn
    ensures forall k :: 0 <= k < |records| ==> records[k].lsn <= MaxLsn(records)
  {
    if records != [] { MaxLsnIsLast(records[..|records| - 1]); }
  }

  lemma {:induction false} LengthIsEncoded(records: seq<LogRecord>)
    requires AllFit(records)
    ensures LogLength(records) == |EncodeAll(records)|
  {
    if records != [] {
      var front, last := records[..|records| - 1], records[|records| - 1];
      assert records == front + [last];
      LengthIsEncoded(front);
      assert FitsFields(last);
      EncodeAllSnoc(front, last);
    }
  }

  // ---- the undo walk ----

  /** What the walk does to the log: the active transactions, the records appended and the next LSN. */
  datatype UndoState = UndoState(active: map<nat, int>, appended: seq<LogRecord>, nextLsn: int)

  /** The compensation UndoLog logs: the opposite operation, with the undone record's key and value. */
  function Compensation(s: UndoState, r: LogRecord): LogRecord {
    LogRecord(s.nextLsn, r.txn, if r.txn in s.active then s.active[r.txn] else 0,
              if r.kind == Insert then Delete else Insert, r.key, r.value)
  }

  function UndoOne(s: UndoState, r: LogRecord): UndoState {
    if !HasRow(r.kind) then s else
      UndoState(s.active[r.txn := s.nextLsn],
                s.appended + [Compensation(s, r)],
                s.nextLsn + 1)
  }

  /** Undo the unfinished transactions' records below position n, the last one first. */
  function UndoDown(records: seq<LogRecord>, n: nat, s: UndoState): UndoState
    requires n <= |records|
  {
    if n == 0 then s
    else UndoDown(records, n - 1, if Loser(records, n - 1) then UndoOne(s, records[n - 1]) else s)
  }

  /** What the walk does to a plain map: INSERT is undone by a delete, DELETE by putting the key back
      with itself as value. */
  function Revert(kv: KV, r: LogRecord): KV {
    match r.kind
    case Insert => kv - {r.key}
    case Delete => kv[r.key := r.key]
    case _ => kv
  }

  function UndoKV(records: seq<LogRecord>, n: nat, kv: KV): KV
    requires n <= |records|
  {
    if n == 0 then kv
    else UndoKV(records, n - 1, if Loser(records, n - 1) then Revert(kv, records[n - 1]) else kv)
  }

  // ---- the calls both passes make on the store ----

  function RedoOp(r: LogRecord): seq<S.Op> {
    match r.kind
    case Insert => [S.PutOp(r.key, r.value)]
    case Delete => [S.DelOp(r.key)]
    case _ => []
  }

  function UndoOp(r: LogRecord): seq<S.Op> {
    match r.kind
    case Insert => [S.DelOp(r.key)]
    case Delete => [S.PutOp(r.key, r.key)]
    case _ => []
  }

  function RedoOps(records: seq<LogRecord>): seq<S.Op> {
    if records == [] then [] else RedoOps(records[..|records| - 1]) + RedoOp(records[|records| - 1])
  }

  function UndoOps(records: seq<LogRecord>, n: nat): seq<S.Op>
    requires n <= |records|
  {
    if n == 0 then []
    else (if Loser(records, n - 1) then UndoOp(records[n - 1]) else []) + UndoOps(records, n - 1)
  }

  /** The ABORT records that end recovery, for the active transactions in some order. */
  function AbortRecords(order: seq<nat>, active: map<nat, int>, lsn: int): seq<LogRecord>
    requires forall t :: t in order ==> t in active
  {
    if order == [] then [] else
      var front, t := order[..|order| - 1], order[|order| - 1];
      AbortRecords(front, active, lsn) + [LogRecord(lsn + |front|, t, active[t], Abort, [], [])]
  }

  lemma {:induction false} AbortRecordsGrow(appended: seq<LogRecord>, order: seq<nat>, t: nat, active: map<nat, int>, lsn: int)
    requires t in active && forall u :: u in order ==> u in active
    ensures appended + AbortRecords(order + [t], active, lsn)
            == appended + AbortRecords(order, active, lsn) + [LogRecord(lsn + |order|, t, active[t], Abort, [], [])]
  {
  }

  /** order lists every active transaction once. */
  ghost predicate Enumerates(order: seq<nat>, active: map<nat, int>) {
    && (forall t :: t in order <==> t in active)
    && (forall i, j :: 0 <= i < j < |order| ==> order[i] != order[j])
  }

  /** The LSNs that walk visits. */
  function LoserLsns(records: seq<LogRecord>, n: nat): seq<int>
    requires n <= |records|
  {
    if n == 0 then []
    else (if Loser(records, n - 1) then [records[n - 1].lsn] else []) + LoserLsns(records, n - 1)
  }

  predicate LoserAt(records: seq<LogRecord>, k: nat, lsn: int) {
    k < |records| && Loser(records, k) && records[k].lsn == lsn
  }

  ghost predicate LoserLsn(records: seq<LogRecord>, n: nat, lsn: int) {
    exists k: nat :: k < n && LoserAt(records, k, lsn)
  }

  lemma {:induction false} LoserLsnsHave(records: seq<LogRecord>, n: nat, x: int)
    requires n <= |records|
    ensures x in LoserLsns(records, n) <==> LoserLsn(records, n, x)
  {
    if n > 0 {
      LoserLsnsHave(records, n - 1, x);
      if LoserLsn(records, n - 1, x) {
        var k: nat :| k < n - 1 && LoserAt(records, k, x);
        assert k < n;
      }
      assert LoserLsn(records, n, x) <==> LoserLsn(records, n - 1, x) || LoserAt(records, n - 1, x);
    }
  }

  /** They are the LSNs of exactly the unfinished transactions' records, each once, strictly decreasing. */
  lemma {:induction false} LoserLsnsAre(records: seq<LogRecord>, n: nat)
    requires n <= |records| && Increasing(records)
    ensures forall i, j :: 0 <= i < j < |LoserLsns(records, n)| ==> LoserLsns(records, n)[i] > LoserLsns(records, n)[j]
    ensures forall x :: x in LoserLsns(records, n) <==> LoserLsn(records, n, x)
  {
    forall x ensures x in LoserLsns(records, n) <==> LoserLsn(records, n, x) {
      LoserLsnsHave(records, n, x);
    }
    if n > 0 {
      LoserLsnsAre(records, n - 1);
      var w := LoserLsns(records, n - 1);
      forall i | 0 <= i < |w| ensures w[i] < records[n - 1].lsn {
        assert LoserLsn(records, n - 1, w[i]);
      }
    }
  }

  // ---- the undo list ----

  /** For each unfinished transaction, the LSN of its last record below position n. */
  ghost function Frontier(records: seq<LogRecord>, n: nat): set<int>
    requires n <= |records|
  {
    set k | 0 <= k < n && OnFrontier(records, n, k) :: records[k].lsn
  }

  predicate OnFrontier(records: seq<LogRecord>, n: nat, k: nat)
    requires k < n <= |records|
  {
    Loser(records, k) && forall j :: k < j < n ==> records[j].txn != records[k].txn
  }

  /** The list starts out as the values of active_txn_. */
  lemma {:induction false} FrontierStarts(records: seq<LogRecord>)
    requires Increasing(records)
    ensures Frontier(records, |records|) == Active(records).Values
  {
    var n := |records|;
    forall x | x in Frontier(records, n) ensures x in Active(records).Values {
      var k :| 0 <= k < n && OnFrontier(records, n, k) && records[k].lsn == x;
      ActiveIsLast(records, records[k].txn);
      assert LastOf(records, records[k].txn) == k;
    }
    forall x | x in Active(records).Values ensures x in Frontier(records, n) {
      var t :| t in Active(records) && Active(records)[t] == x;
      ActiveIsLast(records, t);
      assert OnFrontier(records, n, LastOf(records, t));
    }
  }

  lemma {:induction false} FrontierAtZero(records: seq<LogRecord>)
    ensures Frontier(records, 0) == {}
  {
  }

  lemma {:induction false} FrontierSkips(records: seq<LogRecord>, n: nat)
    requires n < |records| && !Loser(records, n)
    ensures Frontier(records, n + 1) == Frontier(records, n)
  {
  }

  /** An unfinished transaction's chain leads from each of its records to the one before. */
  lemma {:induction false} ChainStep(records: seq<LogRecord>, n: nat)
    requires WellFormed(records) && n < |records| && Loser(records, n)
    ensures var p := LastOf(records[..n], records[n].txn);
            if records[n].prevLsn == INVALID_LSN then forall k :: 0 <= k < n && Loser(records, k) ==> records[k].txn != records[n].txn
            else p >= 0 && OnFrontier(records, n, p) && records[p].lsn == records[n].prevLsn
  {
    var p := LastOf(records[..n], records[n].txn);
    assert records[n].prevLsn == PrevFor(records[..n], records[n].txn);
    forall j | p < j < n ensures records[j].txn != records[n].txn {
      assert records[j] == records[..n][j];
    }
    if p >= 0 { assert records[p] == records[..n][p]; }
  }

  lemma {:induction false} LastBefore(records: seq<LogRecord>, n: nat, k: nat)
    requires k < n < |records| && OnFrontier(records, n, k) && records[k].txn == records[n].txn
    ensures LastOf(records[..n], records[n].txn) == k
  {
  }

  lemma {:induction false} FrontierShrinks(records: seq<LogRecord>, n: nat, x: int)
    requires WellFormed(records) && n < |records| && Loser(records, n)
    requires x in Frontier(records, n)
    ensures (x in Frontier(records, n + 1) && x != records[n].lsn) || (x == records[n].prevLsn && x != INVALID_LSN)
  {
    var k :| 0 <= k < n && OnFrontier(records, n, k) && records[k].lsn == x;
    if records[k].txn != records[n].txn {
      StaysOnFrontier(records, n, k);
    } else {
      hide WellFormed, Frontier;
      ChainStep(records, n);
      LastBefore(records, n, k);
    }
  }

  lemma {:induction false} StaysOnFrontier(records: seq<LogRecord>, n: nat, k: nat)
    requires Increasing(records) && k < n < |records| && OnFrontier(records, n, k) && records[k].txn != records[n].txn
    ensures records[k].lsn in Frontier(records, n + 1) && records[k].lsn < records[n].lsn
  {
    assert OnFrontier(records, n + 1, k);
  }

  lemma {:induction false} FrontierRefills(records: seq<LogRecord>, n: nat, x: int)
    requires WellFormed(records) && n < |records| && Loser(records, n)
    requires (x in Frontier(records, n + 1) && x != records[n].lsn) || (x == records[n].prevLsn && x != INVALID_LSN)
    ensures x in Frontier(records, n)
  {
    if x == records[n].prevLsn && x != INVALID_LSN {
      ChainStep(records, n);
      assert OnFrontier(records, n, LastOf(records[..n], records[n].txn));
    } else {
      var k :| 0 <= k < n + 1 && OnFrontier(records, n + 1, k) && records[k].lsn == x;
      assert OnFrontier(records, n, k);
    }
  }

  ghost predicate IsLargest(lsns: set<int>, m: int) {
    m in lsns && forall x :: x in lsns ==> x <= m
  }

  /** The last unfinished record has the largest LSN of the list. */
  lemma {:induction false} FrontierTop(records: seq<LogRecord>, n: nat)
    requires Increasing(records) && n < |records| && Loser(records, n)
    ensures IsLargest(Frontier(records, n + 1), records[n].lsn)
  {
  }

  function WithPrev(lsns: set<int>, prevLsn: int): set<int> {
    if prevLsn == INVALID_LSN then lsns else lsns + {prevLsn}
  }

  /** Erasing the largest LSN and inserting its prev-LSN moves the list down past one record. */
  lemma {:induction false} FrontierSteps(records: seq<LogRecord>, n: nat)
    requires WellFormed(records) && n < |records| && Loser(records, n)
    ensures Frontier(records, n) == WithPrev(Frontier(records, n + 1) - {records[n].lsn}, records[n].prevLsn)
  {
    var next := WithPrev(Frontier(records, n + 1) - {records[n].lsn}, records[n].prevLsn);
    forall x ensures x in Frontier(records, n) <==> x in next {
      if x in Frontier(records, n) { FrontierShrinks(records, n, x); }
      if x in next { FrontierRefills(records, n, x); }
    }
  }

  /** Down to the last unfinished record below n. */
  lemma {:induction false} SkipFinished(records: seq<LogRecord>, n: nat, s: UndoState) returns (m: nat)
    requires n <= |records| && Frontier(records, n) != {}
    ensures 0 < m <= n && Loser(records, m - 1) && Frontier(records, m) == Frontier(records, n)
    ensures UndoDown(records, m, s) == UndoDown(records, n, s) && UndoOps(records, m) == UndoOps(records, n)
    ensures LoserLsns(records, m) == LoserLsns(records, n)
  {
    FrontierAtZero(records);
    m := n;
    if !Loser(records, n - 1) {
      FrontierSkips(records, n - 1);
      m := SkipFinished(records, n - 1, s);
    }
  }

  /** An empty undo list means no unfinished record is left. */
  lemma {:induction false} NothingLeft(records: seq<LogRecord>, n: nat, s: UndoState)
    requires n <= |records| && Increasing(records) && Frontier(records, n) == {}
    ensures UndoDown(records, n, s) == s && UndoOps(records, n) == [] && LoserLsns(records, n) == []
  {
    if n > 0 {
      if Loser(records, n - 1) { FrontierTop(records, n - 1); }
      FrontierSkips(records, n - 1);
      NothingLeft(records, n - 1, s);
    }
  }
}
