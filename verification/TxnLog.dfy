// The log part of running transactions: Begin in
// src/transaction/transaction_manager.cpp and the logged put and del of
// include/storage/KVStore_new.h, with logging and write sets switched on.
module TxnLogs {
  import opened Options
  import opened Bytes
  import opened Entries
  import opened LogRecords
  import opened RecoveryModel
  import opened RecoveryAgain
  import opened Transactions
  import opened Sequences
  import StoreModel

  /** What one call leaves in the log, the transaction's prev_lsn_ and its write set. */
  datatype Trail = Trail(records: seq<LogRecord>, nextLsn: int, prevLsn: int, writeSet: seq<WriteRecord>)

  function Logged(t: Trail, txn: nat, kind: LogType, key: Str, value: Str): Trail {
    t.(records := t.records + [LogRecord(t.nextLsn, txn, t.prevLsn, kind, key, value)],
       nextLsn := t.nextLsn + 1, prevLsn := t.nextLsn)
  }

  function WriteOf(kind: LogType, key: Str, value: Str): WriteRecord {
    if kind == Insert then InsertTuple(key) else DeleteTuple(key, value)
  }

  /** A put or a successful del. */
  function Noted(t: Trail, txn: nat, logging: bool, addWriteSet: bool, kind: LogType, key: Str, value: Str): Trail {
    var t1 := if logging then Logged(t, txn, kind, key, value) else t;
    if addWriteSet then t1.(writeSet := t.writeSet + [WriteOf(kind, key, value)]) else t1
  }

  /** One more record, with logging on, and these write records more. */
  predicate Extends(t: Trail, t': Trail, logging: bool, r: LogRecord, notes: seq<WriteRecord>) {
    && t'.writeSet == t.writeSet + notes
    && (if logging then t'.records == t.records + [r] && t'.prevLsn == r.lsn && t'.nextLsn == t.nextLsn + 1
        else t'.records == t.records && t'.prevLsn == t.prevLsn && t'.nextLsn == t.nextLsn)
  }

  lemma {:induction false} NotedExtends(t: Trail, txn: nat, logging: bool, addWriteSet: bool, kind: LogType, key: Str, value: Str)
    requires HasRow(kind)
    ensures Extends(t, Noted(t, txn, logging, addWriteSet, kind, key, value), logging,
                    LogRecord(t.nextLsn, txn, t.prevLsn, kind, key, value),
                    if !addWriteSet then [] else if kind == Insert then [InsertTuple(key)] else [DeleteTuple(key, value)])
  {
  }

  /** The value del logs: the memtable's, a tombstone's included, or else the one on disk; None when there is none. */
  function DeletedValue(s: StoreModel.Store, key: Str): Option<Str> {
    if Find(s.mem, key).Some? then Find(s.mem, key) else StoreModel.Visible(StoreModel.Search(s.tables, key))
  }

  /** It is the value a get would have returned, unless a tombstone is being dropped. */
  lemma {:induction false} DeletedValueIsVisible(s: StoreModel.Store, key: Str)
    ensures StoreModel.Visible(DeletedValue(s, key)) == StoreModel.Lookup(s, key)
    ensures DeletedValue(s, key) == None ==> StoreModel.Del(s, key) == s
    ensures DeletedValue(s, key).Some? <==> Find(s.mem, key).Some? || StoreModel.Lookup(s, key).Some?
  {
  }

  // ---- all transactions together ----

  datatype TxnLog = TxnLog(prevLsn: int, writeSet: seq<WriteRecord>)

  datatype World = World(store: StoreModel.Store, records: seq<LogRecord>, nextLsn: int, txns: map<nat, TxnLog>)

  /** Finish stands for the COMMIT or ABORT record that ends a transaction. */
  datatype Call =
    | Begin(txn: nat)
    | Put(txn: nat, key: Str, value: Str)
    | Del(txn: nat, key: Str)
    | Finish(txn: nat, commit: bool)

  function TrailOf(w: World, t: nat): Trail {
    var x := if t in w.txns then w.txns[t] else TxnLog(INVALID_LSN, []);
    Trail(w.records, w.nextLsn, x.prevLsn, x.writeSet)
  }

  function WithTrail(w: World, t: nat, trail: Trail): World {
    w.(records := trail.records, nextLsn := trail.nextLsn, txns := w.txns[t := TxnLog(trail.prevLsn, trail.writeSet)])
  }

  /** Puts, dels and finishes are made through a transaction that has begun. */
  function Next(w: World, call: Call): World {
    match call
    case Begin(t) => WithTrail(w, t, Logged(TrailOf(w, t), t, LogType.Begin, [], []))
    case Put(t, key, value) =>
      if t !in w.txns then w else
        WithTrail(w, t, Noted(TrailOf(w, t), t, true, true, Insert, key, value)).(store := StoreModel.Put(w.store, key, value))
    case Del(t, key) =>
      if t !in w.txns || DeletedValue(w.store, key) == None then w else
        WithTrail(w, t, Noted(TrailOf(w, t), t, true, true, Delete, key, DeletedValue(w.store, key).value))
          .(store := StoreModel.Del(w.store, key))
    case Finish(t, commit) =>
      if t !in w.txns then w else
        var trail := Logged(TrailOf(w, t), t, if commit then Commit else Abort, [], []);
        w.(records := trail.records, nextLsn := trail.nextLsn, txns := w.txns - {t})
  }

  function Exec(start: World, calls: seq<Call>): World {
    if calls == [] then start else Next(Exec(start, calls[..|calls| - 1]), calls[|calls| - 1])
  }

  // ---- a transaction's own records ----

  /** The records of t since it last finished. */
  function Own(records: seq<LogRecord>, t: nat): seq<LogRecord> {
    if records == [] then [] else
      var front, last := records[..|records| - 1], records[|records| - 1];
      if last.txn != t then Own(front, t)
      else if Finishes(last.kind) then []
      else Own(front, t) + [last]
  }

  /** A prev-LSN chain from a BEGIN record to prevLsn, with strictly increasing LSNs. */
  ghost predicate IsChain(rs: seq<LogRecord>, prevLsn: int) {
    && rs != [] && rs[0].kind == LogType.Begin && rs[0].prevLsn == INVALID_LSN
    && rs[|rs| - 1].lsn == prevLsn
    && (forall i {:trigger rs[i].prevLsn} :: 0 < i < |rs| ==> rs[i].prevLsn == rs[i - 1].lsn && rs[i - 1].lsn < rs[i].lsn)
  }

  /** The write set the INSERT and DELETE records call for. */
  function WriteSetOf(rs: seq<LogRecord>): seq<WriteRecord> {
    if rs == [] then [] else
      var last := rs[|rs| - 1];
      WriteSetOf(rs[..|rs| - 1]) + (if HasRow(last.kind) then [WriteOf(last.kind, last.key, last.value)] else [])
  }

  /** The INSERT and DELETE records among these. */
  function RowsOf(rs: seq<LogRecord>): seq<LogRecord> {
    if rs == [] then [] else
      RowsOf(rs[..|rs| - 1]) + (if HasRow(rs[|rs| - 1].kind) then [rs[|rs| - 1]] else [])
  }

  /** A write record says what one such record did: the key inserted, or the key deleted and the value it had. */
  predicate Mirrors(r: LogRecord, w: WriteRecord) {
    match r.kind
    case Insert => w == InsertTuple(r.key)
    case Delete => w == DeleteTuple(r.key, r.value)
    case _ => false
  }

  /** The write set mirrors these records one for one, in order. */
  ghost predicate MirrorsAll(rows: seq<LogRecord>, writeSet: seq<WriteRecord>) {
    |writeSet| == |rows| && forall i :: 0 <= i < |rows| ==> Mirrors(rows[i], writeSet[i])
  }

  lemma {:induction false} WriteSetMirrors(rs: seq<LogRecord>)
    ensures MirrorsAll(RowsOf(rs), WriteSetOf(rs))
  {
    if rs != [] { WriteSetMirrors(rs[..|rs| - 1]); }
  }

  lemma {:induction false} OwnSnoc(records: seq<LogRecord>, r: LogRecord, t: nat)
    ensures Own(records + [r], t) ==
              if r.txn != t then Own(records, t) else if Finishes(r.kind) then [] else Own(records, t) + [r]
  {
  }

  lemma {:induction false} WriteSetSnoc(rs: seq<LogRecord>, r: LogRecord)
    ensures WriteSetOf(rs + [r]) ==
              WriteSetOf(rs) + (if HasRow(r.kind) then [WriteOf(r.kind, r.key, r.value)] else [])
  {
  }

  lemma {:induction false} ChainSnoc(rs: seq<LogRecord>, prevLsn: int, r: LogRecord)
    requires IsChain(rs, prevLsn) && r.prevLsn == prevLsn < r.lsn
    ensures IsChain(rs + [r], r.lsn)
  {
  }

  // ---- what every run keeps ----

  ghost predicate TxnGood(w: World, t: nat) {
    if t in w.txns then
      && IsChain(Own(w.records, t), w.txns[t].prevLsn)
      && w.txns[t].writeSet == WriteSetOf(Own(w.records, t))
      && w.txns[t].prevLsn < w.nextLsn
    else Own(w.records, t) == []
  }

  function Prevs(txns: map<nat, TxnLog>): map<nat, int> {
    map t | t in txns :: txns[t].prevLsn
  }

  /** base: the log found at start-up. */
  ghost predicate Inv(base: seq<LogRecord>, w: World) {
    GoodLog(base + w.records, Prevs(w.txns), w.nextLsn) && forall t :: TxnGood(w, t)
  }

  /** The write set after one more record. */
  function Grown(writeSet: seq<WriteRecord>, r: LogRecord): seq<WriteRecord> {
    if HasRow(r.kind) then writeSet + [WriteOf(r.kind, r.key, r.value)] else writeSet
  }

  /** One more record of a transaction, with its prev_lsn_ as prev-LSN. */
  ghost predicate Records(w: World, r: LogRecord, w': World) {
    && r.lsn == w.nextLsn && r.prevLsn == TrailOf(w, r.txn).prevLsn
    && (r.txn !in w.txns ==> r.kind == LogType.Begin)
    && w'.records == w.records + [r] && w'.nextLsn == w.nextLsn + 1
    && w'.txns == if Finishes(r.kind) then w.txns - {r.txn}
                  else w.txns[r.txn := TxnLog(r.lsn, Grown(TrailOf(w, r.txn).writeSet, r))]
  }

  lemma {:induction false} RecordKeepsLog(base: seq<LogRecord>, w: World, r: LogRecord, w': World)
    requires GoodLog(base + w.records, Prevs(w.txns), w.nextLsn) && Records(w, r, w')
    ensures GoodLog(base + w'.records, Prevs(w'.txns), w'.nextLsn)
  {
    GoodSnoc(base + w.records, Prevs(w.txns), w.nextLsn, r);
    Assoc(base, w.records, [r]);
    PrevsTrack(w, r, w');
  }

  lemma {:induction false} PrevsTrack(w: World, r: LogRecord, w': World)
    requires Records(w, r, w')
    ensures Prevs(w'.txns) == Track(Prevs(w.txns), r)
  {
  }

  lemma {:induction false} RecordKeepsTxn(w: World, r: LogRecord, w': World, t: nat)
    requires TxnGood(w, t) && Records(w, r, w')
    ensures TxnGood(w', t)
  {
    OwnSnoc(w.records, r, t);
    if t == r.txn {
      WriteSetSnoc(Own(w.records, t), r);
      if t in w.txns { ChainSnoc(Own(w.records, t), w.txns[t].prevLsn, r); }
    }
  }

  lemma {:induction false} RecordKeepsInv(base: seq<LogRecord>, w: World, r: LogRecord, w': World)
    requires Inv(base, w) && Records(w, r, w')
    ensures Inv(base, w')
  {
    RecordKeepsLog(base, w, r, w');
    forall t ensures TxnGood(w', t) {
      assert TxnGood(w, t);
      RecordKeepsTxn(w, r, w', t);
    }
  }

  lemma {:induction false} StepKeepsInv(base: seq<LogRecord>, w: World, call: Call)
    requires Inv(base, w)
    ensures Inv(base, Next(w, call))
  {
    var trail := TrailOf(w, call.txn);
    var record := (kind: LogType, key: Str, value: Str) => LogRecord(trail.nextLsn, call.txn, trail.prevLsn, kind, key, value);
    match call
    case Begin(t) =>
      RecordKeepsInv(base, w, record(LogType.Begin, [], []), Next(w, call));
    case Put(t, key, value) =>
      if t in w.txns { RecordKeepsInv(base, w, record(Insert, key, value), Next(w, call)); }
    case Del(t, key) =>
      if t in w.txns && DeletedValue(w.store, key).Some? {
        RecordKeepsInv(base, w, record(Delete, key, DeletedValue(w.store, key).value), Next(w, call));
      }
    case Finish(t, commit) =>
      if t in w.txns { RecordKeepsInv(base, w, record(if commit then Commit else Abort, [], []), Next(w, call)); }
  }

  /** Start-up: a well-formed log without active transactions, as recovery leaves it. */
  ghost predicate CleanStart(base: seq<LogRecord>, start: World) {
    && WellFormed(base) && Active(base) == map[] && Below(base, start.nextLsn)
    && start.records == [] && start.txns == map[]
  }

  lemma {:induction false} RunsKeepInv(base: seq<LogRecord>, start: World, calls: seq<Call>)
    requires CleanStart(base, start)
    ensures Inv(base, Exec(start, calls))
  {
    if calls == [] {
      assert base + [] == base && Prevs(map[]) == map[];
    } else {
      RunsKeepInv(base, start, calls[..|calls| - 1]);
      StepKeepsInv(base, Exec(start, calls[..|calls| - 1]), calls[|calls| - 1]);
    }
  }

  /** After every run each open transaction's records are a prev-LSN chain from its BEGIN to prev_lsn_, and its
      write set mirrors its INSERT and DELETE records one for one, with equal keys and equal deleted values. */
  lemma {:induction false} ChainsAndWriteSets(base: seq<LogRecord>, start: World, calls: seq<Call>, t: nat)
    requires CleanStart(base, start) && t in Exec(start, calls).txns
    ensures var w := Exec(start, calls);
            && IsChain(Own(w.records, t), w.txns[t].prevLsn)
            && MirrorsAll(RowsOf(Own(w.records, t)), w.txns[t].writeSet)
  {
    RunsKeepInv(base, start, calls);
    assert TxnGood(Exec(start, calls), t);
    WriteSetMirrors(Own(Exec(start, calls).records, t));
  }

  /** The call leaves a record: every begin does, and of an open transaction every put, every del that finds
      something and the finish. */
  predicate LeavesRecord(w: World, call: Call) {
    call.Begin? || (call.txn in w.txns && (call.Del? ==> DeletedValue(w.store, call.key).Some?))
  }

  /** The record says who did what; a delete's value is the one a get found, if it found any. */
  predicate Says(r: LogRecord, w: World, call: Call) {
    && r.txn == call.txn
    && match call
       case Begin(_) => r.kind == LogType.Begin
       case Put(_, key, value) => r.kind == Insert && r.key == key && r.value == value
       case Del(_, key) =>
         && r.kind == Delete && r.key == key
         && (StoreModel.Lookup(w.store, key).Some? ==> StoreModel.Lookup(w.store, key) == Some(r.value))
       case Finish(_, commit) => r.kind == if commit then Commit else Abort
  }

  /** In any run every such call adds just that one record, any other nothing; a transaction is open from its begin
      to its finish. */
  lemma {:induction false} CallIsLogged(start: World, calls: seq<Call>, call: Call)
    ensures var w, w' := Exec(start, calls), Exec(start, calls + [call]);
            && (!LeavesRecord(w, call) ==> w' == w)
            && (LeavesRecord(w, call) ==>
                  |w'.records| == |w.records| + 1 && w.records <= w'.records && Says(w'.records[|w.records|], w, call)
                  && w'.txns.Keys == if call.Finish? then w.txns.Keys - {call.txn} else w.txns.Keys + {call.txn})
  {
    var w := Exec(start, calls);
    assert (calls + [call])[..|calls|] == calls;
    if call.Del? { DeletedValueIsVisible(w.store, call.key); }
    hide Exec, DeletedValue, StoreModel.Lookup, StoreModel.Put, StoreModel.Del;
  }

  /** The log, old and new records together, is what the undo pass needs: increasing LSNs, every prev-LSN that of
      the transaction's record before. Exactly the open transactions are active in it. */
  lemma {:induction false} RunsKeepLogs(base: seq<LogRecord>, start: World, calls: seq<Call>)
    requires CleanStart(base, start)
    ensures var w := Exec(start, calls);
            WellFormed(base + w.records) && Active(base + w.records).Keys == w.txns.Keys
  {
    RunsKeepInv(base, start, calls);
  }
}
