// What a get finds after recovery: redo and undo work through the puts and dels
// of the store, which spills, hides empty values and is not always a map.
module RecoveredStores {
  import opened Options
  import opened Bytes
  import opened LogRecords
  import opened RecoveryModel
  import opened RecoveryCorrect
  import opened RecoveryAgain
  import E = Entries
  import S = StoreModel

  /** Every call recovery makes on the store. */
  function RecoveryOps(records: seq<LogRecord>): seq<S.Op> {
    RedoOps(records) + UndoOps(records, |records|)
  }

  /** What a get shows of a plain map. */
  function VisibleAt(kv: KV, key: Str): Option<Str> {
    if key in kv && kv[key] != [] then Some(kv[key]) else None
  }

  ghost predicate Shows(m: map<Str, Str>, kv: KV) {
    forall key :: S.MapLookup(m, key) == VisibleAt(kv, key)
  }

  // ---- the calls, on plain maps ----

  lemma {:induction false} MapAfterSplit(m: map<Str, Str>, a: seq<S.Op>, b: seq<S.Op>)
    ensures S.MapAfterFrom(m, a + b) == S.MapAfterFrom(S.MapAfterFrom(m, a), b)
  {
    if b == [] {
      assert a + b == a;
    } else {
      MapAfterSplit(m, a, b[..|b| - 1]);
      assert (a + b)[..|a + b| - 1] == a + b[..|b| - 1];
    }
  }

  lemma {:induction false} OneOp(m: map<Str, Str>, op: S.Op)
    ensures S.MapAfterFrom(m, [op]) == S.ApplyToMap(m, op)
  {
    assert [op][..0] == [];
  }

  lemma {:induction false} PutShows(m: map<Str, Str>, kv: KV, key: Str, value: Str)
    requires Shows(m, kv)
    ensures Shows(S.ApplyToMap(m, S.PutOp(key, value)), kv[key := value])
  {
    forall k ensures S.MapLookup(S.ApplyToMap(m, S.PutOp(key, value)), k) == VisibleAt(kv[key := value], k) {
      assert S.MapLookup(m, k) == VisibleAt(kv, k);
    }
  }

  lemma {:induction false} DelShows(m: map<Str, Str>, kv: KV, key: Str)
    requires Shows(m, kv)
    ensures Shows(S.ApplyToMap(m, S.DelOp(key)), kv - {key})
  {
    forall k ensures S.MapLookup(S.ApplyToMap(m, S.DelOp(key)), k) == VisibleAt(kv - {key}, k) {
      assert S.MapLookup(m, k) == VisibleAt(kv, k);
    }
  }

  lemma {:induction false} RedoOneShows(m: map<Str, Str>, kv: KV, r: LogRecord)
    requires Shows(m, kv)
    ensures Shows(S.MapAfterFrom(m, RedoOp(r)), Apply(kv, r))
  {
    match r.kind
    case Insert => OneOp(m, S.PutOp(r.key, r.value)); PutShows(m, kv, r.key, r.value);
    case Delete => OneOp(m, S.DelOp(r.key)); DelShows(m, kv, r.key);
    case _ =>
  }

  lemma {:induction false} RedoShows(records: seq<LogRecord>)
    ensures Shows(S.MapAfter(RedoOps(records)), Replay(records))
  {
    if records != [] {
      var front, r := records[..|records| - 1], records[|records| - 1];
      RedoShows(front);
      MapAfterSplit(map[], RedoOps(front), RedoOp(r));
      RedoOneShows(S.MapAfter(RedoOps(front)), Replay(front), r);
    }
  }

  lemma {:induction false} RevertShows(m: map<Str, Str>, kv: KV, r: LogRecord)
    requires Shows(m, kv)
    ensures Shows(S.MapAfterFrom(m, UndoOp(r)), Revert(kv, r))
  {
    match r.kind
    case Insert => OneOp(m, S.DelOp(r.key)); DelShows(m, kv, r.key);
    case Delete => OneOp(m, S.PutOp(r.key, r.key)); PutShows(m, kv, r.key, r.key);
    case _ =>
  }

  lemma {:induction false} UndoShows(records: seq<LogRecord>, n: nat, m: map<Str, Str>, kv: KV)
    requires n <= |records| && Shows(m, kv)
    ensures Shows(S.MapAfterFrom(m, UndoOps(records, n)), UndoKV(records, n, kv))
  {
    hide Shows, Loser, Revert;
    assert S.MapAfterFrom(m, []) == m;
    if n > 0 {
      var r := records[n - 1];
      if Loser(records, n - 1) {
        RevertShows(m, kv, r);
        MapAfterSplit(m, UndoOp(r), UndoOps(records, n - 1));
        UndoShows(records, n - 1, S.MapAfterFrom(m, UndoOp(r)), Revert(kv, r));
      } else {
        assert [] + UndoOps(records, n - 1) == UndoOps(records, n - 1);
        UndoShows(records, n - 1, m, kv);
      }
    }
  }

  /** On a map the calls build what recovery is meant to, empty values being deletions. */
  lemma {:induction false} RecoveryShows(records: seq<LogRecord>)
    ensures Shows(S.MapAfter(RecoveryOps(records)), Recovered(records))
  {
    RedoShows(records);
    UndoShows(records, |records|, S.MapAfter(RedoOps(records)), Replay(records));
    MapAfterSplit(map[], RedoOps(records), UndoOps(records, |records|));
  }

  // ---- the calls, on the store ----

  predicate Written(records: seq<LogRecord>, key: Str) {
    exists k :: 0 <= k < |records| && Writes(records[k], key)
  }

  /** What a get shows when the keys of the log are as in kv, and all others as the store s showed them. */
  ghost function Over(s: S.Store, records: seq<LogRecord>, kv: KV, key: Str): Option<Str> {
    if Written(records, key) then VisibleAt(kv, key) else S.Lookup(s, key)
  }

  lemma {:induction false} RedoCalls(records: seq<LogRecord>, key: Str)
    ensures S.CallsOn(RedoOps(records), key) <==> Written(records, key)
  {
    if records != [] {
      var front, r := records[..|records| - 1], records[|records| - 1];
      RedoCalls(front, key);
      S.CallsOnAppend(RedoOps(front), RedoOp(r), key);
      CallsOfOne(r, key);
      assert Written(records, key) <==> Written(front, key) || Writes(r, key) by {
        if Written(front, key) {
          var k :| 0 <= k < |front| && Writes(front[k], key);
          assert records[k] == front[k];
        }
      }
    }
  }

  lemma {:induction false} CallsOfOne(r: LogRecord, key: Str)
    ensures S.CallsOn(RedoOp(r), key) <==> Writes(r, key)
    ensures S.CallsOn(UndoOp(r), key) <==> Writes(r, key)
  {
    if HasRow(r.kind) {
      assert RedoOp(r)[0].key == r.key && UndoOp(r)[0].key == r.key;
    }
  }

  lemma {:induction false} UndoCalls(records: seq<LogRecord>, n: nat, key: Str)
    requires n <= |records| && S.CallsOn(UndoOps(records, n), key)
    ensures Written(records, key)
  {
    if n > 0 {
      var ops := if Loser(records, n - 1) then UndoOp(records[n - 1]) else [];
      S.CallsOnAppend(ops, UndoOps(records, n - 1), key);
      CallsOfOne(records[n - 1], key);
      if S.CallsOn(UndoOps(records, n - 1), key) { UndoCalls(records, n - 1, key); }
    }
  }

  lemma {:induction false} RecoveryCalls(records: seq<LogRecord>, key: Str)
    ensures S.CallsOn(RecoveryOps(records), key) <==> Written(records, key)
  {
    RedoCalls(records, key);
    S.CallsOnAppend(RedoOps(records), UndoOps(records, |records|), key);
    if S.CallsOn(UndoOps(records, |records|), key) { UndoCalls(records, |records|, key); }
  }

  /** The store recovery ends with when it begins with s. */
  function RecoveredFrom(s: S.Store, records: seq<LogRecord>): S.Store {
    S.ApplyAll(s, RecoveryOps(records))
  }

  /** No call recovery makes on s lets an older value through. */
  ghost predicate Unspoilt(s: S.Store, records: seq<LogRecord>) {
    S.Ordered(s) && S.AllGuardedFrom(s, RecoveryOps(records))
  }

  /** Whatever store recovery begins with, it looks like a map through redo and undo exactly when every call met its
      guard; then every get shows what recovery is meant to leave, and keys the log does not mention as before. */
  lemma {:induction false} RecoveredLookups(s: S.Store, records: seq<LogRecord>)
    requires S.Ordered(s)
    ensures S.AlwaysLikeMapFrom(s, S.Shown(s), RecoveryOps(records)) <==> Unspoilt(s, records)
    ensures Unspoilt(s, records) ==>
              forall key :: S.Lookup(RecoveredFrom(s, records), key) == Over(s, records, Recovered(records), key)
  {
    S.ShownMirrors(s);
    S.RunRefinesFrom(s, S.Shown(s), RecoveryOps(records));
    if Unspoilt(s, records) {
      forall key ensures S.Lookup(RecoveredFrom(s, records), key) == Over(s, records, Recovered(records), key) {
        MapShowsOver(s, records, key);
      }
    }
  }

  lemma {:induction false} MapShowsOver(s: S.Store, records: seq<LogRecord>, key: Str)
    ensures S.MapLookup(S.MapAfterFrom(S.Shown(s), RecoveryOps(records)), key) == Over(s, records, Recovered(records), key)
  {
    S.ShownMirrors(s);
    S.CallsDecide(S.Shown(s), RecoveryOps(records), key);
    RecoveryCalls(records, key);
    RecoveryShows(records);
    assert S.MapLookup(S.MapAfter(RecoveryOps(records)), key) == VisibleAt(Recovered(records), key);
    assert S.Lookup(s, key) == S.MapLookup(S.Shown(s), key);
  }

  /** A get finds what recovery is meant to leave if the key is still in the memtable, and else the first value of the
      key that was written out, by recovery or before it. */
  ghost predicate FindsCurrentOrFirst(s: S.Store, records: seq<LogRecord>, key: Str) {
    var found, goal := S.Lookup(RecoveredFrom(s, records), key), Over(s, records, Recovered(records), key);
    var first := S.Visible(S.FirstWritten(s, RecoveryOps(records), key));
    var kept := E.Find(RecoveredFrom(s, records).mem, key).Some?;
    found == (if kept then goal else first) && (found == goal <==> kept || first == goal)
  }

  /** So it is after any recovery, guarded or not. */
  lemma {:induction false} FoundInAnyCase(s: S.Store, records: seq<LogRecord>, key: Str)
    requires S.Ordered(s)
    ensures FindsCurrentOrFirst(s, records, key)
  {
    S.ShownMirrors(s);
    S.FinalLookup(s, S.Shown(s), RecoveryOps(records), key);
    MapShowsOver(s, records, key);
  }

  /** The last finished write of the key leaves something to see. */
  predicate FinishedVisible(records: seq<LogRecord>, key: Str) {
    var i := LastFinished(records, |records|, key);
    i >= 0 && records[i].kind == Insert && records[i].value != []
  }

  /** If an unfinished transaction wrote the key, its first write of it is a delete, and of a key that can be seen
      as its own value, exactly when the finished transactions leave something to see. */
  predicate LookupUndoable(records: seq<LogRecord>, key: Str) {
    var f := FirstUndone(records, |records|, key);
    f >= 0 ==> (records[f].kind == Delete && key != [] <==> FinishedVisible(records, key))
  }

  lemma {:induction false} VisibleKeys(records: seq<LogRecord>, key: Str)
    ensures VisibleAt(Finished(records, |records|), key).Some? <==> FinishedVisible(records, key)
    ensures LookupUndoable(records, key) <==>
              (VisibleAt(Recovered(records), key).Some? <==> VisibleAt(Finished(records, |records|), key).Some?)
  {
    RecoveredKey(records, key);
    FinishedKey(records, |records|, key);
  }

  /** The finished transactions' keys, and those the log does not mention, are found; no others. */
  ghost predicate FindsKeys(s: S.Store, records: seq<LogRecord>) {
    forall key :: S.Lookup(RecoveredFrom(s, records), key).Some? <==>
                    Over(s, records, Finished(records, |records|), key).Some?
  }

  /** So it is after a guarded recovery if and only if every key is undoable. */
  lemma {:induction false} FoundKeysExactly(s: S.Store, records: seq<LogRecord>)
    requires Unspoilt(s, records)
    ensures FindsKeys(s, records) <==> forall key :: LookupUndoable(records, key)
  {
    RecoveredLookups(s, records);
    forall key ensures LookupUndoable(records, key) <==>
        (S.Lookup(RecoveredFrom(s, records), key).Some? <==> Over(s, records, Finished(records, |records|), key).Some?)
    {
      VisibleKeys(records, key);
    }
  }

  /** Besides, a key deleted first had itself as value. */
  predicate LookupRestorable(records: seq<LogRecord>, key: Str) {
    var f, i := FirstUndone(records, |records|, key), LastFinished(records, |records|, key);
    LookupUndoable(records, key) && (f >= 0 && FinishedVisible(records, key) ==> records[i].value == key)
  }

  ghost predicate FindsValues(s: S.Store, records: seq<LogRecord>) {
    forall key :: S.Lookup(RecoveredFrom(s, records), key) == Over(s, records, Finished(records, |records|), key)
  }

  /** And they are found with the right values if and only if every key is restorable. */
  lemma {:induction false} FoundValuesExactly(s: S.Store, records: seq<LogRecord>)
    requires Unspoilt(s, records)
    ensures FindsValues(s, records) <==> forall key :: LookupRestorable(records, key)
  {
    RecoveredLookups(s, records);
    forall key ensures LookupRestorable(records, key) <==>
        S.Lookup(RecoveredFrom(s, records), key) == Over(s, records, Finished(records, |records|), key)
    {
      VisibleKeys(records, key);
      RecoveredKey(records, key);
      FinishedKey(records, |records|, key);
    }
  }

  // ---- the discipline, on lookups ----

  /** Unfinished transactions insert keys nobody can see and delete non-empty keys that can be seen,
      and no other transaction writes a key after an unfinished one did. */
  ghost predicate DisciplinedLookups(records: seq<LogRecord>) {
    forall k {:trigger Loser(records, k)} :: 0 <= k < |records| && Loser(records, k) && HasRow(records[k].kind) ==>
      && (VisibleAt(Replay(records[..k]), records[k].key).Some? <==> records[k].kind == Delete)
      && (records[k].kind == Delete ==> records[k].key != [])
      && (forall j :: k < j < |records| && Writes(records[j], records[k].key) ==> records[j].txn == records[k].txn)
  }

  lemma {:induction false} DisciplinedUndoable(records: seq<LogRecord>, key: Str)
    requires DisciplinedLookups(records)
    ensures LookupUndoable(records, key)
  {
    var n := |records|;
    var f := FirstUndone(records, n, key);
    if f >= 0 {
      forall j | f <= j < n && Writes(records[j], key) ensures Loser(records, j) {
        assert records[j].txn == records[f].txn;
      }
      FinishedStays(records, f, n, key);
      UntouchedKey(records, f, key);
      VisibleKeys(records, key);
    }
  }

  /** A guarded recovery of such a log finds exactly the finished transactions' keys, with equal values
      wherever no unfinished transaction deleted. */
  lemma {:induction false} DisciplinedLookupsRecovered(s: S.Store, records: seq<LogRecord>, key: Str)
    requires Unspoilt(s, records) && DisciplinedLookups(records)
    ensures var found, goal := S.Lookup(RecoveredFrom(s, records), key), Over(s, records, Finished(records, |records|), key);
            && (found.Some? <==> goal.Some?)
            && ((forall k :: 0 <= k < |records| && Loser(records, k) && Writes(records[k], key) ==> records[k].kind != Delete)
                ==> found == goal)
  {
    RecoveredLookups(s, records);
    DisciplinedUndoable(records, key);
    VisibleKeys(records, key);
    RecoveredKey(records, key);
  }

  lemma {:induction false} CompensationsWrite(records: seq<LogRecord>, extra: seq<LogRecord>, key: Str)
    requires AllCompensate(records, extra)
    ensures Written(records + extra, key) <==> Written(records, key)
  {
    var log := records + extra;
    if Written(records, key) {
      var k :| 0 <= k < |records| && Writes(records[k], key);
      assert log[k] == records[k];
    }
    if Written(log, key) {
      var k :| 0 <= k < |log| && Writes(log[k], key);
      if k >= |records| {
        assert Compensates(records, extra[k - |records|]);
      } else {
        assert log[k] == records[k];
      }
    }
  }

  /** A crash anywhere in the undo walk: whatever store t it leaves on disk, when both recoveries are guarded every get
      finds the same for a key of the log as if there had been no crash, and any other key as t showed it. */
  lemma {:induction false} CrashInUndoFound(s: S.Store, t: S.Store, records: seq<LogRecord>, nextLsn: int, m: nat, key: Str)
    requires m <= |Undone(records, nextLsn).appended|
    requires Unspoilt(s, records) && Unspoilt(t, records + Undone(records, nextLsn).appended[..m])
    ensures S.Lookup(RecoveredFrom(t, records + Undone(records, nextLsn).appended[..m]), key) ==
              if Written(records, key) then S.Lookup(RecoveredFrom(s, records), key) else S.Lookup(t, key)
  {
    var extra := Undone(records, nextLsn).appended[..m];
    CrashInUndo(records, nextLsn, m);
    RecoveredLookups(s, records);
    RecoveredLookups(t, records + extra);
    UndoCompensates(records, |records|, Start(records, nextLsn));
    CompensationsWrite(records, extra, key);
  }

  // ---- logs too small to spill ----

  /** Key and value bytes put. */
  function Weight(ops: seq<S.Op>): nat {
    if ops == [] then 0 else
      var op := ops[|ops| - 1];
      Weight(ops[..|ops| - 1]) + if op.PutOp? then |op.key| + |op.value| else 0
  }

  lemma {:induction false} WeightAppend(a: seq<S.Op>, b: seq<S.Op>)
    ensures Weight(a + b) == Weight(a) + Weight(b)
  {
    if b == [] {
      assert a + b == a;
    } else {
      WeightAppend(a, b[..|b| - 1]);
      assert (a + b)[..|a + b| - 1] == a + b[..|b| - 1];
    }
  }

  ghost predicate OnlyWrites(ops: seq<S.Op>) {
    forall i :: 0 <= i < |ops| ==> ops[i].PutOp? || ops[i].DelOp?
  }

  lemma {:induction false} SpaceOfWrite(es: seq<E.KV>, key: Str, value: Str)
    ensures E.Space(E.Insert(es, key, value)) <= E.Space(es) + |key| + |value|
    ensures E.Space(E.Remove(es, key)) <= E.Space(es)
  {
    var p := E.FirstGE(es, key);
    E.SpaceInsertAt(es, p, E.KV(key, value));
    if p < |es| {
      E.SpaceUpdate(es, p, value);
      E.SpaceRemoveAt(es, p);
    }
  }

  /** Puts that fit the memtable all together never spill, so nothing older can show through. */
  lemma {:induction false} LightRunsAreGuarded(ops: seq<S.Op>)
    requires OnlyWrites(ops) && Weight(ops) <= S.SSTABLE_SPACE
    ensures S.AllGuarded(ops) && S.StateAfter(ops).tables == [] && E.Space(S.StateAfter(ops).mem) <= Weight(ops)
  {
    if ops != [] {
      var front, op := ops[..|ops| - 1], ops[|ops| - 1];
      LightRunsAreGuarded(front);
      SpaceOfWrite(S.StateAfter(front).mem, op.key, if op.PutOp? then op.value else []);
    }
  }

  lemma {:induction false} WeightOfRedo(records: seq<LogRecord>)
    ensures OnlyWrites(RedoOps(records)) && Weight(RedoOps(records)) <= LogLength(records)
  {
    if records != [] {
      var front, r := records[..|records| - 1], records[|records| - 1];
      WeightOfRedo(front);
      WeightAppend(RedoOps(front), RedoOp(r));
      WeightOfOne(r);
    }
  }

  lemma {:induction false} WeightOfOne(r: LogRecord)
    ensures OnlyWrites(RedoOp(r)) && Weight(RedoOp(r)) <= Size(r)
    ensures OnlyWrites(UndoOp(r)) && Weight(UndoOp(r)) <= 2 * Size(r)
  {
    if HasRow(r.kind) {
      assert RedoOp(r)[..0] == [] && UndoOp(r)[..0] == [];
    }
  }

  lemma {:induction false} WeightOfNone()
    ensures OnlyWrites([]) && Weight([]) == 0
  {
  }

  lemma {:induction false} OnlyWritesAppend(a: seq<S.Op>, b: seq<S.Op>)
    ensures OnlyWrites(a) && OnlyWrites(b) ==> OnlyWrites(a + b)
  {
  }

  lemma {:induction false} WeightOfUndo(records: seq<LogRecord>, n: nat)
    requires n <= |records|
    ensures OnlyWrites(UndoOps(records, n)) && Weight(UndoOps(records, n)) <= 2 * LogLength(records[..n])
  {
    hide Loser, Weight, OnlyWrites, Size;
    if n == 0 {
      WeightOfNone();
    } else {
      var ops := if Loser(records, n - 1) then UndoOp(records[n - 1]) else [];
      WeightOfNone();
      OnlyWritesAppend(ops, UndoOps(records, n - 1));
      WeightOfUndo(records, n - 1);
      WeightOfOne(records[n - 1]);
      WeightAppend(ops, UndoOps(records, n - 1));
      assert records[..n][..n - 1] == records[..n - 1];
    }
  }

  lemma {:induction false} RecoveredFromNothing(records: seq<LogRecord>)
    requires Unspoilt(S.Store([], []), records)
    ensures forall key :: S.Lookup(RecoveredFrom(S.Store([], []), records), key) == VisibleAt(Recovered(records), key)
  {
    RecoveredLookups(S.Store([], []), records);
    forall key ensures S.Lookup(RecoveredFrom(S.Store([], []), records), key) == VisibleAt(Recovered(records), key) {
      VisibleKeys(records, key);
      RecoveredKey(records, key);
      FinishedKey(records, |records|, key);
    }
  }

  /** A log of at most a third of the memtable's space recovers guarded: what the lookups show is then unconditional. */
  lemma {:induction false} SmallLogsAreGuarded(records: seq<LogRecord>)
    requires 3 * LogLength(records) <= S.SSTABLE_SPACE
    ensures Unspoilt(S.Store([], []), records)
    ensures forall key :: S.Lookup(RecoveredFrom(S.Store([], []), records), key) == VisibleAt(Recovered(records), key)
  {
    WeightOfRedo(records);
    WeightOfUndo(records, |records|);
    assert records[..|records|] == records;
    WeightAppend(RedoOps(records), UndoOps(records, |records|));
    LightRunsAreGuarded(RecoveryOps(records));
    RecoveredFromNothing(records);
  }

  // ---- where lookups and map keys part ----

  lemma {:induction false} RedoOpsSnoc(records: seq<LogRecord>, r: LogRecord)
    ensures RedoOps(records + [r]) == RedoOps(records) + RedoOp(r)
  {
    assert (records + [r])[..|records|] == records;
  }

  lemma {:induction false} OpsOfTwoWriters(key: Str, value: Str)
    ensures RecoveryOps(TwoWriters(key, value, Delete)) == [S.PutOp(key, value)] + [S.DelOp(key)] + [S.PutOp(key, key)]
  {
    hide RedoOps, UndoOps;
    RedoOpsOfTwoWriters(key, value);
    UndoOpsOfTwoWriters(key, value);
  }

  lemma {:induction false} RedoOpsOfTwoWriters(key: Str, value: Str)
    ensures RedoOps(TwoWriters(key, value, Delete)) == [S.PutOp(key, value)] + [S.DelOp(key)]
  {
    hide RedoOps;
    var r := TwoWriters(key, value, Delete);
    var a := [] + [r[0]];
    var b := a + [r[1]];
    var c := b + [r[2]];
    var d := c + [r[3]];
    assert r == d + [r[4]];
    assert RedoOps([]) == [] by { NoOps(); }
    RedoOpsSnoc([], r[0]);
    RedoOpsSnoc(a, r[1]);
    RedoOpsSnoc(b, r[2]);
    RedoOpsSnoc(c, r[3]);
    RedoOpsSnoc(d, r[4]);
  }

  lemma {:induction false} NoOps()
    ensures RedoOps([]) == []
  {
  }

  lemma {:induction false} UndoOpsOfTwoWriters(key: Str, value: Str)
    ensures UndoOps(TwoWriters(key, value, Delete), 5) == [S.PutOp(key, key)]
  {
    var r := TwoWriters(key, value, Delete);
    assert r[2].txn == r[1].txn == r[0].txn;
    assert !Loser(r, 0) && !Loser(r, 1) && !Loser(r, 2);
    assert UndoOps(r, 1) == [];
    assert UndoOps(r, 2) == [];
    assert UndoOps(r, 3) == [];
    assert UndoOp(r[3]) == [] && UndoOps(r, 4) == [];
    TwoWritersReplay(key, value, Delete);
    assert UndoOps(r, 5) == UndoOp(r[4]) + [];
  }

  /** The empty key: an unfinished delete of it is undone by a put of the empty value, which no get shows. */
  lemma {:induction false} EmptyKeyIsLost(value: Str)
    requires 0 < |value| <= S.SSTABLE_SPACE
    ensures var records := TwoWriters([], value, Delete);
            && KeyUndoable(records, []) && !LookupUndoable(records, [])
            && VisibleAt(Finished(records, |records|), []) == Some(value)
            && S.Lookup(RecoveredFrom(S.Store([], []), records), []) == None
  {
    var records := TwoWriters([], value, Delete);
    TwoWritersReplay([], value, Delete);
    FinishedKey(records, 5, []);
    VisibleKeys(records, []);
    OpsOfTwoWriters([], value);
    DelAfterPut([], value);
    var ops := [S.PutOp([], value)] + [S.DelOp([])];
    S.OneMore(ops, S.PutOp([], []));
    assert E.Insert([], [], []) == [E.KV([], [])];
  }

  lemma {:induction false} DelAfterPut(key: Str, value: Str)
    requires |key| + |value| <= S.SSTABLE_SPACE
    ensures S.StateAfter([S.PutOp(key, value)] + [S.DelOp(key)]) == S.Store([], [])
  {
    var put := S.PutOp(key, value);
    S.OneMore([], put);
    assert [] + [put] == [put];
    var one := [E.KV(key, value)];
    assert E.Insert([], key, value) == one;
    assert one[1..] == [] && E.Space(one) == |key| + |value|;
    assert S.StateAfter([put]) == S.Store([E.KV(key, value)], []);
    S.OneMore([put], S.DelOp(key));
    LessIrreflexive(key);
    assert E.Find(one, key).Some? && E.FirstGE(one, key) == 0 && E.Remove(one, key) == [];
  }
}
