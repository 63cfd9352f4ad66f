// A log whose recovery spills: a key that was inserted and deleted again by a
// committed transaction is found after recovery.
module LargeLogs {
  import opened Options
  import opened Bytes
  import opened LogRecords
  import opened RecoveryModel
  import opened RecoveryCorrect
  import opened RecoveredStores
  import opened RecoveryManagers
  import E = Entries
  import LogModel
  import S = StoreModel

  const FILLER: nat := 40000

  function Filling(): (s: Str)
    ensures |s| == FILLER
  {
    seq(FILLER, i => 0)
  }

  function FillerKey(i: nat): Str { LE(i, 2) }

  lemma {:induction false} FillerKeysDiffer(i: nat, j: nat)
    requires i < j < 256
    ensures FillerKey(i) != FillerKey(j)
  {
    assert Pow256(1) == 256 && Pow256(2) == 65536;
    LERoundTrip(i, 2);
    LERoundTrip(j, 2);
  }

  function Fill(n: nat): seq<S.Op> {
    if n == 0 then [] else Fill(n - 1) + [S.PutOp(FillerKey(n - 1), Filling())]
  }

  // ---- one round of filling ----

  /** The memtable has key and j fillers, of base + 40002 * j bytes in all. */
  ghost predicate Filled(s: S.Store, tables: seq<seq<E.KV>>, key: Str, value: Str, base: nat, j: nat) {
    && s.tables == tables && E.Sorted(s.mem)
    && E.Space(s.mem) == base + (FILLER + 2) * j
    && E.Find(s.mem, key) == Some(value)
    && forall i :: j <= i < 256 ==> E.Find(s.mem, FillerKey(i)) == None
  }

  lemma {:induction false} NewKeySpace(es: seq<E.KV>, key: Str, value: Str)
    requires E.Sorted(es) && E.Find(es, key) == None
    ensures E.Space(E.Insert(es, key, value)) == E.Space(es) + |key| + |value|
  {
    var p := E.FirstGE(es, key);
    E.FindIsMember(es, key);
    E.SpaceInsertAt(es, p, E.KV(key, value));
  }

  lemma {:induction false} FillerFits(s: S.Store, tables: seq<seq<E.KV>>, key: Str, value: Str, base: nat, j: nat)
    requires Filled(s, tables, key, value, base, j) && |key| != 2 && j < 256
    ensures Filled(s.(mem := E.Insert(s.mem, FillerKey(j), Filling())), tables, key, value, base, j + 1)
  {
    var k := FillerKey(j);
    NewKeySpace(s.mem, k, Filling());
    E.InsertSorted(s.mem, k, Filling());
    E.FindInsert(s.mem, k, Filling(), key);
    forall i | j + 1 <= i < 256 ensures E.Find(E.Insert(s.mem, k, Filling()), FillerKey(i)) == None {
      FillerKeysDiffer(j, i);
      E.FindInsert(s.mem, k, Filling(), FillerKey(i));
    }
  }

  lemma {:induction false} FillUp(s: S.Store, key: Str, value: Str, base: nat, j: nat)
    requires Filled(s, s.tables, key, value, base, 0) && |key| != 2
    requires j <= 256 && base + (FILLER + 2) * j <= S.SSTABLE_SPACE
    ensures Filled(S.ApplyAll(s, Fill(j)), s.tables, key, value, base, j)
  {
    if j > 0 {
      FillUp(s, key, value, base, j - 1);
      var t := S.ApplyAll(s, Fill(j - 1));
      FillerFits(t, s.tables, key, value, base, j - 1);
      assert Fill(j)[..|Fill(j)| - 1] == Fill(j - 1);
    }
  }

  /** From a memtable with one small entry, fifty-three fillers make one spill that takes the entry along. */
  lemma {:induction false} FillSpills(s: S.Store, key: Str, value: Str) returns (table: seq<E.KV>)
    requires s.mem == [E.KV(key, value)] && |key| != 2 && |key| + |value| <= 17000
    ensures S.ApplyAll(s, Fill(53)) == S.Store([], s.tables + [table]) && E.Find(table, key) == Some(value)
  {
    var base := |key| + |value|;
    assert s.mem[1..] == [];
    forall i | 0 <= i < 256 ensures E.Find(s.mem, FillerKey(i)) == None {
      assert |FillerKey(i)| == 2;
    }
    FillUp(s, key, value, base, 52);
    var t := S.ApplyAll(s, Fill(52));
    FillerFits(t, s.tables, key, value, base, 52);
    table := E.Insert(t.mem, FillerKey(52), Filling());
    assert Fill(53)[..|Fill(53)| - 1] == Fill(52);
  }

  // ---- the run ----

  function Calls(key: Str, value: Str): seq<S.Op> {
    [S.PutOp(key, value)] + Fill(53) + [S.DelOp(key)] + Fill(53)
  }

  lemma {:induction false} InsertFirst(key: Str, value: Str)
    ensures E.Insert([], key, value) == [E.KV(key, value)]
    ensures E.Space([E.KV(key, value)]) == |key| + |value|
  {
    assert [E.KV(key, value)][1..] == [];
  }

  lemma {:induction false} FirstPut(key: Str, value: Str)
    requires |key| + |value| <= 17000
    ensures S.ApplyAll(S.Store([], []), [S.PutOp(key, value)]) == S.Store([E.KV(key, value)], [])
  {
    S.OneCall(S.Store([], []), S.PutOp(key, value));
    InsertFirst(key, value);
  }

  lemma {:induction false} DelOnDisk(key: Str, value: Str, table: seq<E.KV>)
    requires E.Find(table, key) == Some(value) && value != []
    ensures S.ApplyAll(S.Store([], [table]), [S.DelOp(key)]) == S.Store([E.KV(key, [])], [table])
  {
    S.OneCall(S.Store([], [table]), S.DelOp(key));
    InsertFirst(key, []);
  }

  /** The put and the first round: the value is in a table, and then covered by a tombstone. */
  lemma {:induction false} FirstRound(key: Str, value: Str) returns (table: seq<E.KV>)
    requires value != [] && |key| != 2 && |key| + |value| <= 17000
    ensures S.StateAfter([S.PutOp(key, value)] + Fill(53) + [S.DelOp(key)]) == S.Store([E.KV(key, [])], [table])
    ensures E.Find(table, key) == Some(value)
  {
    var s0, put, del := S.Store([], []), [S.PutOp(key, value)], [S.DelOp(key)];
    hide S.Apply, S.ApplyAll, Fill;
    var s1 := S.Store([E.KV(key, value)], []);
    FirstPut(key, value);
    table := FillSpills(s1, key, value);
    assert [] + [table] == [table];
    DelOnDisk(key, value, table);
    S.CallsAppend(s0, put, Fill(53));
    S.CallsAppend(s0, put + Fill(53), del);
  }

  lemma {:induction false} Resurrected(key: Str, value: Str)
    requires value != [] && |key| != 2 && |key| + |value| <= 17000
    ensures S.Lookup(S.StateAfter(Calls(key, value)), key) == Some(value)
  {
    var first := FirstRound(key, value);
    var second := FillSpills(S.Store([E.KV(key, [])], [first]), key, []);
    S.CallsAppend(S.Store([], []), [S.PutOp(key, value)] + Fill(53) + [S.DelOp(key)], Fill(53));
    S.SearchSnoc([first], second, key);
  }

  // ---- as a log ----

  function RowOf(op: S.Op, lsn: nat): LogRecord {
    match op
    case PutOp(key, value) => LogRecord(lsn, 1, lsn - 1, Insert, key, value)
    case DelOp(key) => LogRecord(lsn, 1, lsn - 1, Delete, key, [])
    case _ => LogRecord(lsn, 1, lsn - 1, Begin, [], [])
  }

  /** These calls as the records of one transaction. */
  function Rows(ops: seq<S.Op>): (rows: seq<LogRecord>)
    ensures |rows| == |ops|
  {
    if ops == [] then [] else Rows(ops[..|ops| - 1]) + [RowOf(ops[|ops| - 1], |ops| - 1)]
  }

  /** And its commit. */
  function CommittedLog(ops: seq<S.Op>): seq<LogRecord> {
    Rows(ops) + [LogRecord(|ops|, 1, |ops| - 1, Commit, [], [])]
  }

  lemma {:induction false} RowsAre(ops: seq<S.Op>, k: nat)
    requires k < |ops|
    ensures Rows(ops)[k] == RowOf(ops[k], k)
  {
    if k < |ops| - 1 { RowsAre(ops[..|ops| - 1], k); }
  }

  lemma {:induction false} RowRedo(op: S.Op, lsn: nat)
    requires op.PutOp? || op.DelOp?
    ensures RedoOp(RowOf(op, lsn)) == [op]
  {
  }

  lemma {:induction false} RowsRedo(ops: seq<S.Op>)
    requires OnlyWrites(ops)
    ensures RedoOps(Rows(ops)) == ops
  {
    if ops != [] {
      var front, op := ops[..|ops| - 1], ops[|ops| - 1];
      assert OnlyWrites(front) && ops == front + [op];
      RowsRedo(front);
      RowRedo(op, |front|);
      RedoOpsSnoc(Rows(front), RowOf(op, |front|));
    }
  }

  lemma {:induction false} LogsAre(ops: seq<S.Op>, k: nat)
    requires k < |CommittedLog(ops)|
    ensures CommittedLog(ops)[k].txn == 1 && CommittedLog(ops)[k].lsn == k
    ensures CommittedLog(ops)[k].prevLsn == k - 1
    ensures Finishes(CommittedLog(ops)[k].kind) <==> k == |ops|
  {
    if k < |ops| { RowsAre(ops, k); }
  }

  lemma {:induction false} NotLosing(ops: seq<S.Op>, k: nat)
    requires k < |CommittedLog(ops)|
    ensures !Loser(CommittedLog(ops), k)
  {
    LogsAre(ops, k);
    LogsAre(ops, |ops|);
  }

  lemma {:induction false} CommittedHasNoLosers(ops: seq<S.Op>, n: nat, kv: KV)
    requires n <= |CommittedLog(ops)|
    ensures UndoOps(CommittedLog(ops), n) == [] && UndoKV(CommittedLog(ops), n, kv) == kv
  {
    if n > 0 {
      CommittedHasNoLosers(ops, n - 1, kv);
      NotLosing(ops, n - 1);
    }
  }

  lemma {:induction false} LogCalls(ops: seq<S.Op>)
    requires OnlyWrites(ops)
    ensures RecoveryOps(CommittedLog(ops)) == ops
  {
    var log := CommittedLog(ops);
    RowsRedo(ops);
    RedoOpsSnoc(Rows(ops), log[|ops|]);
    CommittedHasNoLosers(ops, |log|, map[]);
  }

  /** Such a log is one the redo scan and the undo walk accept. */
  lemma {:induction false} LogIsProper(ops: seq<S.Op>)
    requires OnlyWrites(ops) && |ops| < 0x1000
    requires forall i :: 0 <= i < |ops| ==> |ops[i].key| + (if ops[i].PutOp? then |ops[i].value| else 0) <= FILLER + 2
    ensures Scannable(CommittedLog(ops)) && WellFormed(CommittedLog(ops))
  {
    var log := CommittedLog(ops);
    forall k | 0 <= k < |log|
      ensures FitsFields(log[k]) && Supported(log[k].kind) && Size(log[k]) <= LogModel.LOG_BUFFER_SIZE
    {
      if k < |ops| { RowsAre(ops, k); }
    }
    forall k | 0 <= k < |log| ensures log[k].lsn == k { LogsAre(ops, k); }
    forall k | 0 <= k < |log| ensures log[k].prevLsn == PrevFor(log[..k], log[k].txn) {
      LogsAre(ops, k);
      if k > 0 {
        LogsAre(ops, k - 1);
        assert log[..k][k - 1] == log[k - 1];
      }
    }
  }

  lemma {:induction false} CallsAreSmall(key: Str, value: Str)
    requires |key| + |value| <= 17000
    ensures var ops := Calls(key, value);
            && OnlyWrites(ops) && |ops| == 108
            && forall i :: 0 <= i < |ops| ==> |ops[i].key| + (if ops[i].PutOp? then |ops[i].value| else 0) <= FILLER + 2
  {
    FillIsSmall(53);
  }

  lemma {:induction false} FillIsSmall(n: nat)
    ensures |Fill(n)| == n && forall i :: 0 <= i < n ==> Fill(n)[i].PutOp? && |Fill(n)[i].key| + |Fill(n)[i].value| == FILLER + 2
  {
    if n > 0 { FillIsSmall(n - 1); }
  }

  /** A log the scan accepts, of 108 records of one committed transaction: recovery is meant to leave no such key,
      and every get finds it. */
  lemma {:induction false} SpillsResurrect(key: Str, value: Str)
    requires value != [] && |key| != 2 && |key| + |value| <= 17000
    ensures var log := CommittedLog(Calls(key, value));
            && Scannable(log) && WellFormed(log)
            && VisibleAt(Recovered(log), key) == None
            && S.Lookup(RecoveredFrom(S.Store([], []), log), key) == Some(value)
            && !Unspoilt(S.Store([], []), log)
  {
    var ops := Calls(key, value);
    CallsAreSmall(key, value);
    LogIsProper(ops);
    LogCalls(ops);
    Resurrected(key, value);
    DeletedLast(key, value);
    ShownAs(CommittedLog(ops), key);
  }

  lemma {:induction false} ShownAs(log: seq<LogRecord>, key: Str)
    requires S.MapLookup(S.MapAfter(RecoveryOps(log)), key) == None
    ensures VisibleAt(Recovered(log), key) == None
    ensures S.Lookup(RecoveredFrom(S.Store([], []), log), key) != None ==> !Unspoilt(S.Store([], []), log)
  {
    RecoveryShows(log);
    if Unspoilt(S.Store([], []), log) { RecoveredFromNothing(log); }
  }

  /** On a map the key is gone. */
  lemma {:induction false} DeletedLast(key: Str, value: Str)
    requires |key| != 2
    ensures S.MapLookup(S.MapAfter(Calls(key, value)), key) == None
  {
    var before := [S.PutOp(key, value)] + Fill(53);
    FillAvoids(S.MapAfter(before + [S.DelOp(key)]), 53, key);
    MapAfterSplit(map[], before + [S.DelOp(key)], Fill(53));
    MapAfterSplit(map[], before, [S.DelOp(key)]);
    OneOp(S.MapAfter(before), S.DelOp(key));
  }

  lemma {:induction false} FillAvoids(m: map<Str, Str>, n: nat, key: Str)
    requires |key| != 2 && key !in m
    ensures key !in S.MapAfterFrom(m, Fill(n))
  {
    if n > 0 {
      FillAvoids(m, n - 1, key);
      assert Fill(n)[..|Fill(n)| - 1] == Fill(n - 1);
      assert |FillerKey(n - 1)| == 2;
    }
  }
}
