// Which store recovery ends with, compared with replaying the finished
// transactions alone, and what a second recovery makes of the log it leaves.
module RecoveryCorrect {
  import opened Bytes
  import opened LogRecords
  import opened RecoveryModel

  /** Recovery's store: redo everything, then undo the unfinished transactions. */
  function Recovered(records: seq<LogRecord>): KV {
    UndoKV(records, |records|, Replay(records))
  }

  /** The reference: only the finished transactions' records, in log order. */
  function Finished(records: seq<LogRecord>, n: nat): KV
    requires n <= |records|
  {
    if n == 0 then map[]
    else if Loser(records, n - 1) then Finished(records, n - 1)
    else Apply(Finished(records, n - 1), records[n - 1])
  }

  predicate SameAt(a: KV, b: KV, key: Str) {
    (key in a <==> key in b) && (key in a ==> a[key] == b[key])
  }

  predicate Writes(r: LogRecord, key: Str) {
    HasRow(r.kind) && r.key == key
  }

  /** The first record below n in which an unfinished transaction writes key, or -1. */
  function FirstUndone(records: seq<LogRecord>, n: nat, key: Str): (f: int)
    requires n <= |records|
    ensures -1 <= f < n
    ensures f >= 0 ==> Loser(records, f) && Writes(records[f], key)
    ensures forall j :: 0 <= j < (if f >= 0 then f else n) ==> !(Loser(records, j) && Writes(records[j], key))
  {
    if n == 0 then -1 else
      var f := FirstUndone(records, n - 1, key);
      if f >= 0 then f
      else if Loser(records, n - 1) && Writes(records[n - 1], key) then n - 1
      else -1
  }

  // ---- one key ----

  /** The undo walk leaves a key as the first unfinished write of it says, or alone. */
  lemma {:induction false} UndoneKey(records: seq<LogRecord>, n: nat, before: KV, key: Str)
    requires n <= |records|
    ensures var f, kv := FirstUndone(records, n, key), UndoKV(records, n, before);
            if f < 0 then SameAt(kv, before, key)
            else if records[f].kind == Delete then key in kv && kv[key] == key
            else key !in kv
  {
    hide Loser;
    if n > 0 {
      UndoneKey(records, n - 1, if Loser(records, n - 1) then Revert(before, records[n - 1]) else before, key);
    }
  }

  /** Where no unfinished transaction wrote the key, the whole log and its finished part agree on it. */
  lemma {:induction false} UntouchedKey(records: seq<LogRecord>, n: nat, key: Str)
    requires n <= |records| && forall j :: 0 <= j < n ==> !(Loser(records, j) && Writes(records[j], key))
    ensures SameAt(Replay(records[..n]), Finished(records, n), key)
  {
    if n > 0 {
      UntouchedKey(records, n - 1, key);
      assert records[..n][..n - 1] == records[..n - 1];
    }
  }

  /** What recovery does to each key, for every log. */
  lemma {:induction false} RecoveredKey(records: seq<LogRecord>, key: Str)
    ensures var f, kv := FirstUndone(records, |records|, key), Recovered(records);
            if f < 0 then SameAt(kv, Finished(records, |records|), key)
            else if records[f].kind == Delete then key in kv && kv[key] == key
            else key !in kv
  {
    var n := |records|;
    UndoneKey(records, n, Replay(records), key);
    if FirstUndone(records, n, key) < 0 {
      UntouchedKey(records, n, key);
      assert records[..n] == records;
    }
  }

  /** Position of the last finished write of key below n, or -1. */
  function LastFinished(records: seq<LogRecord>, n: nat, key: Str): (i: int)
    requires n <= |records|
    ensures -1 <= i < n
    ensures i >= 0 ==> !Loser(records, i) && Writes(records[i], key)
  {
    if n == 0 then -1
    else if !Loser(records, n - 1) && Writes(records[n - 1], key) then n - 1
    else LastFinished(records, n - 1, key)
  }

  lemma {:induction false} FinishedKey(records: seq<LogRecord>, n: nat, key: Str)
    requires n <= |records|
    ensures var i, kv := LastFinished(records, n, key), Finished(records, n);
            && (key in kv <==> i >= 0 && records[i].kind == Insert)
            && (key in kv ==> kv[key] == records[i].value)
  {
    if n > 0 { FinishedKey(records, n - 1, key); }
  }

  /** For one key: its first unfinished write, if any, is a delete exactly when its last finished write is an insert. */
  predicate KeyUndoable(records: seq<LogRecord>, key: Str) {
    var f, i := FirstUndone(records, |records|, key), LastFinished(records, |records|, key);
    f >= 0 ==> (records[f].kind == Delete <==> i >= 0 && records[i].kind == Insert)
  }

  // ---- whole stores ----

  /** Recovery keeps exactly the keys of the finished transactions if and only if every key is undoable. */
  lemma {:induction false} KeySetRecovered(records: seq<LogRecord>)
    ensures Recovered(records).Keys == Finished(records, |records|).Keys
            <==> forall key :: KeyUndoable(records, key)
  {
    var n := |records|;
    var kv, goal := Recovered(records), Finished(records, n);
    forall key ensures KeyUndoable(records, key) <==> (key in kv.Keys <==> key in goal.Keys) {
      RecoveredKey(records, key);
      FinishedKey(records, n, key);
    }
  }

  /** An unfinished insert found the key missing, an unfinished delete found it with itself as value. */
  predicate KeyRestorable(records: seq<LogRecord>, key: Str) {
    var f, i := FirstUndone(records, |records|, key), LastFinished(records, |records|, key);
    && KeyUndoable(records, key)
    && (f >= 0 && records[f].kind == Delete && i >= 0 ==> records[i].value == key)
  }

  /** It restores the whole store of the finished transactions, values included, if and only if, besides,
      every key an unfinished transaction deleted first had itself as value. */
  lemma {:induction false} StoreRecovered(records: seq<LogRecord>)
    ensures Recovered(records) == Finished(records, |records|) <==> forall key :: KeyRestorable(records, key)
  {
    var n := |records|;
    var kv, goal := Recovered(records), Finished(records, n);
    forall key ensures KeyRestorable(records, key) <==> SameAt(kv, goal, key) {
      RecoveredKey(records, key);
      FinishedKey(records, n, key);
    }
    SameEverywhere(kv, goal);
  }

  lemma {:induction false} SameEverywhere(a: KV, b: KV)
    ensures a == b <==> forall key :: SameAt(a, b, key)
  {
    if forall key :: SameAt(a, b, key) {
      forall key ensures key in a.Keys <==> key in b.Keys { assert SameAt(a, b, key); }
      forall key | key in a ensures a[key] == b[key] { assert SameAt(a, b, key); }
    }
  }

  // ---- the discipline under which it works ----

  /** Unfinished transactions insert absent keys and delete present ones, and no other transaction
      writes a key after an unfinished one did. */
  ghost predicate Disciplined(records: seq<LogRecord>) {
    forall k {:trigger Loser(records, k)} :: 0 <= k < |records| && Loser(records, k) && HasRow(records[k].kind) ==>
      && (records[k].kind == Insert ==> records[k].key !in Replay(records[..k]))
      && (records[k].kind == Delete ==> records[k].key in Replay(records[..k]))
      && (forall j :: k < j < |records| && Writes(records[j], records[k].key) ==> records[j].txn == records[k].txn)
  }

  /** From f on only losers write the key. */
  lemma {:induction false} FinishedStays(records: seq<LogRecord>, f: nat, n: nat, key: Str)
    requires f <= n <= |records|
    requires forall j :: f <= j < n && Writes(records[j], key) ==> Loser(records, j)
    ensures SameAt(Finished(records, f), Finished(records, n), key)
    decreases n
  {
    if f < n { FinishedStays(records, f, n - 1, key); }
  }

  lemma {:induction false} DisciplinedKey(records: seq<LogRecord>, key: Str)
    requires Disciplined(records)
    ensures var f := FirstUndone(records, |records|, key);
            f >= 0 ==> (records[f].kind == Delete <==> key in Finished(records, |records|))
  {
    var n := |records|;
    var f := FirstUndone(records, n, key);
    if f >= 0 {
      forall j | f <= j < n && Writes(records[j], key) ensures Loser(records, j) {
        assert records[j].txn == records[f].txn;
      }
      FinishedStays(records, f, n, key);
      UntouchedKey(records, f, key);
    }
  }

  /** Redo then undo yields the same keys as replaying only the finished transactions, with equal
      values for every key no unfinished transaction deleted. */
  lemma {:induction false} DisciplinedRecovery(records: seq<LogRecord>)
    requires Disciplined(records)
    ensures Recovered(records).Keys == Finished(records, |records|).Keys
    ensures forall key ::
              (forall k :: 0 <= k < |records| && Loser(records, k) && Writes(records[k], key) ==> records[k].kind != Delete) ==>
              SameAt(Recovered(records), Finished(records, |records|), key)
  {
    var n := |records|;
    var kv, goal := Recovered(records), Finished(records, n);
    forall key ensures key in kv.Keys <==> key in goal.Keys {
      RecoveredKey(records, key);
      DisciplinedKey(records, key);
    }
    forall key | forall k :: 0 <= k < n && Loser(records, k) && Writes(records[k], key) ==> records[k].kind != Delete
      ensures SameAt(kv, goal, key)
    {
      RecoveredKey(records, key);
      DisciplinedKey(records, key);
    }
  }

  // ---- where it does not ----

  /** A committed key, then an unfinished transaction's record about it. */
  function TwoWriters(key: Str, value: Str, kind: LogType): seq<LogRecord> {
    [LogRecord(0, 1, INVALID_LSN, Begin, [], []), LogRecord(1, 1, 0, Insert, key, value),
     LogRecord(2, 1, 1, Commit, [], []),
     LogRecord(3, 2, INVALID_LSN, Begin, [], []), LogRecord(4, 2, 3, kind, key, value)]
  }

  lemma {:induction false} TwoWritersReplay(key: Str, value: Str, kind: LogType)
    requires HasRow(kind)
    ensures var records := TwoWriters(key, value, kind);
            && Finished(records, 5) == map[key := value]
            && Loser(records, 4) && FirstUndone(records, 5, key) == 4
  {
    var records := TwoWriters(key, value, kind);
    assert records[2].txn == records[0].txn == records[1].txn;
    assert !Loser(records, 0) && !Loser(records, 1) && !Loser(records, 2);
    assert Loser(records, 3) && Loser(records, 4);
    assert Finished(records, 1) == map[];
    assert Finished(records, 2) == map[key := value];
    assert Finished(records, 3) == map[key := value];
    assert FirstUndone(records, 1, key) == -1;
    assert FirstUndone(records, 2, key) == -1;
    assert FirstUndone(records, 3, key) == -1;
    assert FirstUndone(records, 4, key) == -1;
  }

  /** Undoing an insert that overwrote a committed value deletes the key: there is no before-image. */
  lemma {:induction false} OverwriteIsLost(key: Str, value: Str)
    ensures var records := TwoWriters(key, value, Insert);
            key in Finished(records, |records|) && key !in Recovered(records)
  {
    var records := TwoWriters(key, value, Insert);
    TwoWritersReplay(key, value, Insert);
    RecoveredKey(records, key);
  }

  /** Undoing a delete brings the key back with itself as value, whatever its value was. */
  lemma {:induction false} DeletedValueIsLost(key: Str, value: Str)
    ensures var records := TwoWriters(key, value, Delete);
            && key in Finished(records, |records|) && Finished(records, |records|)[key] == value
            && key in Recovered(records) && Recovered(records)[key] == key
  {
    var records := TwoWriters(key, value, Delete);
    TwoWritersReplay(key, value, Delete);
    RecoveredKey(records, key);
  }
}
