// What the store of src/storage/KVStore_beta.cpp and LevelZero.cpp means, as
// plain values: a memtable over a list of spilled tables searched oldest first.
module StoreModel {
  import opened Options
  import opened Bytes
  import opened Entries

  const SSTABLE_SPACE: nat := 2 * 1024 * 1024

  datatype Store = Store(mem: seq<KV>, tables: seq<seq<KV>>)

  ghost predicate Ordered(s: Store) {
    Sorted(s.mem) && forall i :: 0 <= i < |s.tables| ==> Sorted(s.tables[i])
  }

  /** LevelZero::search: the first table, from the oldest, that has the key. */
  function Search(tables: seq<seq<KV>>, key: Str): Option<Str> {
    if tables == [] then None
    else if Find(tables[0], key).Some? then Find(tables[0], key)
    else Search(tables[1..], key)
  }

  /** An empty value stands for a deleted key. */
  function Visible(r: Option<Str>): Option<Str> {
    if r.Some? && r.value != [] then r else None
  }

  /** KVStore_beta::get */
  function Lookup(s: Store, key: Str): Option<Str> {
    Visible(if Find(s.mem, key).Some? then Find(s.mem, key) else Search(s.tables, key))
  }

  /** diskstorage_.add(memtable_); memtable_.clear() */
  function Spill(s: Store): Store {
    Store([], s.tables + [s.mem])
  }

  /** KVStore_beta::put */
  function Put(s: Store, key: Str, value: Str): Store {
    var t := s.(mem := Insert(s.mem, key, value));
    if Space(t.mem) > SSTABLE_SPACE then Spill(t) else t
  }

  /** KVStore_beta::del: a memtable entry is dropped outright; a spilled one gets an empty value over it. */
  function Del(s: Store, key: Str): Store {
    if Find(s.mem, key).Some? then s.(mem := Remove(s.mem, key))
    else if Visible(Search(s.tables, key)).Some? then s.(mem := Insert(s.mem, key, []))
    else s
  }

  /** KVStore_beta::flush: the memtable is written out but not cleared. */
  function Flush(s: Store): Store {
    if s.mem == [] then s else s.(tables := s.tables + [s.mem])
  }

  /** Closing the store, which flushes it, and opening it again on the tables it left. */
  function Reopen(s: Store): Store {
    Store([], Flush(s).tables)
  }

  lemma {:induction false} SearchSnoc(tables: seq<seq<KV>>, t: seq<KV>, key: Str)
    ensures Search(tables + [t], key) == if Search(tables, key).Some? then Search(tables, key) else Find(t, key)
  {
    if tables == [] {
      assert [] + [t] == [t] && [t][1..] == [];
    } else {
      assert (tables + [t])[1..] == tables[1..] + [t];
      SearchSnoc(tables[1..], t, key);
    }
  }

  // ---- spilling ----

  /** The memtable entry of key, if any, agrees with the oldest spilled value of key, if any. */
  predicate Agrees(s: Store, key: Str) {
    Find(s.mem, key).Some? && Search(s.tables, key).Some? ==> Find(s.mem, key) == Search(s.tables, key)
  }

  /** For one key, a spill is invisible exactly when the oldest spilled value agrees. */
  lemma {:induction false} SpillInvisibleAt(s: Store, key: Str)
    ensures Lookup(Spill(s), key) == Lookup(s, key) <==> Agrees(s, key)
  {
    SearchSnoc(s.tables, s.mem, key);
  }

  /** A spill leaves every lookup unchanged exactly when each memtable entry agrees with the oldest table holding its key. */
  lemma {:induction false} SpillInvisible(s: Store)
    requires Sorted(s.mem)
    ensures (forall k :: Lookup(Spill(s), k) == Lookup(s, k)) <==>
            (forall i :: 0 <= i < |s.mem| ==>
               Search(s.tables, s.mem[i].key) == None || Search(s.tables, s.mem[i].key) == Some(s.mem[i].value))
  {
    forall k ensures Lookup(Spill(s), k) == Lookup(s, k) <==> Agrees(s, k) { SpillInvisibleAt(s, k); }
    forall i | 0 <= i < |s.mem| ensures Find(s.mem, s.mem[i].key) == Some(s.mem[i].value) {
      FindAt(s.mem, i);
    }
    if forall i :: 0 <= i < |s.mem| ==>
         Search(s.tables, s.mem[i].key) == None || Search(s.tables, s.mem[i].key) == Some(s.mem[i].value) {
      forall k ensures Agrees(s, k) {
        FindIsMember(s.mem, k);
      }
    }
    if forall k :: Lookup(Spill(s), k) == Lookup(s, k) {
      forall i | 0 <= i < |s.mem|
        ensures Search(s.tables, s.mem[i].key) == None || Search(s.tables, s.mem[i].key) == Some(s.mem[i].value)
      {
        assert Lookup(Spill(s), s.mem[i].key) == Lookup(s, s.mem[i].key);
        assert Agrees(s, s.mem[i].key);
      }
    }
  }

  lemma {:induction false} FindAt(es: seq<KV>, i: nat)
    requires Sorted(es) && i < |es|
    ensures Find(es, es[i].key) == Some(es[i].value)
  {
    FindIsMember(es, es[i].key);
    var j :| 0 <= j < |es| && es[j] == KV(es[i].key, Find(es, es[i].key).value);
    UniqueIndex(es, i, j);
  }

  /** Flush never changes a lookup: the memtable still shadows the new table. */
  lemma {:induction false} FlushInvisible(s: Store, key: Str)
    ensures Lookup(Flush(s), key) == Lookup(s, key)
  {
    SearchSnoc(s.tables, s.mem, key);
  }

  /** Closing and reopening leaves a lookup unchanged exactly when the oldest spilled value agrees. */
  lemma {:induction false} ReopenInvisibleAt(s: Store, key: Str)
    ensures Lookup(Reopen(s), key) == Lookup(s, key) <==> Agrees(s, key)
  {
    if s.mem != [] { SpillInvisibleAt(s, key); }
  }

  /** The logged store flushes twice when it is closed; the second copy of the table is never seen. */
  lemma {:induction false} ClosingTwiceIsOnce(s: Store, key: Str)
    ensures Lookup(Reopen(Flush(s)), key) == Lookup(Reopen(s), key)
  {
    SearchSnoc(s.tables, s.mem, key);
    SearchSnoc(s.tables + [s.mem], s.mem, key);
  }

  /** A store that dies without flushing shows a key as before exactly when the tables alone do. */
  lemma {:induction false} CrashInvisibleAt(s: Store, key: Str)
    ensures Lookup(Store([], s.tables), key) == Lookup(s, key) <==>
              (Find(s.mem, key).Some? ==> Visible(Search(s.tables, key)) == Visible(Find(s.mem, key)))
  {
    assert Find([], key) == None;
  }

  // ---- put and del against a map ----

  /** What a map lookup would give after key is set to value (an empty value deletes). */
  function Updated(s: Store, key: Str, value: Str, k: Str): Option<Str> {
    if k == key then Visible(Some(value)) else Lookup(s, k)
  }

  /** put acts like a map update on k exactly when it does not spill or the spill is invisible at k. */
  lemma {:induction false} PutRefines(s: Store, key: Str, value: Str, k: Str)
    requires Ordered(s)
    ensures var t := s.(mem := Insert(s.mem, key, value));
            Lookup(Put(s, key, value), k) == Updated(s, key, value, k) <==>
              (Space(t.mem) > SSTABLE_SPACE ==> Agrees(t, k))
  {
    FindInsert(s.mem, key, value, k);
    SpillInvisibleAt(s.(mem := Insert(s.mem, key, value)), k);
  }

  /** del acts like a map removal on every other key; on its own key exactly when no spilled value resurfaces. */
  lemma {:induction false} DelRefines(s: Store, key: Str, k: Str)
    requires Ordered(s)
    ensures Lookup(Del(s, key), k) == Updated(s, key, [], k) <==>
              (k == key && Find(s.mem, key).Some? ==> Visible(Search(s.tables, key)) == None)
  {
    FindRemove(s.mem, key, k);
    FindInsert(s.mem, key, [], k);
  }

  /** Deleting twice brings a spilled value back: the second del removes the tombstone the first one wrote. */
  lemma {:induction false} DeleteTwiceResurrects(s: Store, key: Str)
    requires Ordered(s) && Find(s.mem, key) == None && Lookup(s, key).Some?
    ensures Lookup(Del(s, key), key) == None
    ensures Lookup(Del(Del(s, key), key), key) == Lookup(s, key)
  {
    FindInsert(s.mem, key, [], key);
    InsertSorted(s.mem, key, []);
    FindRemove(Insert(s.mem, key, []), key, key);
  }

  // ---- whole runs against a map ----

  datatype Op = PutOp(key: Str, value: Str) | DelOp(key: Str) | FlushOp | ReopenOp

  function Apply(s: Store, op: Op): Store {
    match op
    case PutOp(key, value) => Put(s, key, value)
    case DelOp(key) => Del(s, key)
    case FlushOp => Flush(s)
    case ReopenOp => Reopen(s)
  }

  function ApplyAll(s: Store, ops: seq<Op>): Store {
    if ops == [] then s else Apply(ApplyAll(s, ops[..|ops| - 1]), ops[|ops| - 1])
  }

  lemma {:induction false} OneCall(s: Store, op: Op)
    ensures ApplyAll(s, [op]) == Apply(s, op)
  {
    assert [op][..0] == [];
  }

  lemma {:induction false} CallsAppend(s: Store, a: seq<Op>, b: seq<Op>)
    ensures ApplyAll(s, a + b) == ApplyAll(ApplyAll(s, a), b)
  {
    if b == [] {
      assert a + b == a;
    } else {
      CallsAppend(s, a, b[..|b| - 1]);
      assert (a + b)[..|a + b| - 1] == a + b[..|b| - 1];
    }
  }

  /** The map the same run makes of m; putting an empty value deletes. */
  function MapAfterFrom(m: map<Str, Str>, ops: seq<Op>): map<Str, Str> {
    if ops == [] then m else ApplyToMap(MapAfterFrom(m, ops[..|ops| - 1]), ops[|ops| - 1])
  }

  function MapAfter(ops: seq<Op>): map<Str, Str> {
    MapAfterFrom(map[], ops)
  }

  function ApplyToMap(m: map<Str, Str>, op: Op): map<Str, Str> {
    match op
    case PutOp(key, value) => if value != [] then m[key := value] else m - {key}
    case DelOp(key) => m - {key}
    case FlushOp => m
    case ReopenOp => m
  }

  function MapLookup(m: map<Str, Str>, key: Str): Option<Str> {
    if key in m then Some(m[key]) else None
  }

  function StateAfter(ops: seq<Op>): Store {
    ApplyAll(Store([], []), ops)
  }

  /** What can be checked before an operation: a put or a reopening does not spill an entry an older table
      contradicts, and a del of a memtable key uncovers no spilled value. */
  ghost predicate Guard(s: Store, op: Op) {
    match op
    case PutOp(key, value) =>
      var t := s.(mem := Insert(s.mem, key, value));
      Space(t.mem) > SSTABLE_SPACE ==> forall k :: Agrees(t, k)
    case DelOp(key) =>
      Find(s.mem, key).Some? ==> Visible(Search(s.tables, key)) == None
    case FlushOp => true
    case ReopenOp => forall k :: Agrees(s, k)
  }

  /** The store looks up every key as the map does. */
  ghost predicate Mirrors(s: Store, m: map<Str, Str>) {
    forall k :: Lookup(s, k) == MapLookup(m, k)
  }

  lemma {:induction false} StateOrdered(s: Store, ops: seq<Op>)
    requires Ordered(s)
    ensures Ordered(ApplyAll(s, ops))
  {
    if ops != [] {
      var t := ApplyAll(s, ops[..|ops| - 1]);
      StateOrdered(s, ops[..|ops| - 1]);
      match ops[|ops| - 1]
      case PutOp(key, value) => InsertSorted(t.mem, key, value);
      case DelOp(key) => InsertSorted(t.mem, key, []); RemoveSorted(t.mem, key);
      case FlushOp =>
      case ReopenOp =>
    }
  }

  lemma {:induction false} OneStep(s: Store, op: Op, m: map<Str, Str>)
    requires Ordered(s) && Mirrors(s, m)
    ensures Mirrors(Apply(s, op), ApplyToMap(m, op)) <==> Guard(s, op)
  {
    var m' := ApplyToMap(m, op);
    match op
    case PutOp(key, value) =>
      forall k ensures Lookup(Apply(s, op), k) == MapLookup(m', k) <==>
                       (Space(Insert(s.mem, key, value)) > SSTABLE_SPACE ==> Agrees(s.(mem := Insert(s.mem, key, value)), k))
      {
        PutRefines(s, key, value, k);
        assert Updated(s, key, value, k) == MapLookup(m', k);
      }
    case DelOp(key) =>
      forall k ensures Lookup(Apply(s, op), k) == MapLookup(m', k) <==>
                       (k == key && Find(s.mem, key).Some? ==> Visible(Search(s.tables, key)) == None)
      {
        DelRefines(s, key, k);
        assert Updated(s, key, [], k) == MapLookup(m', k);
      }
      assert Lookup(Apply(s, op), key) == MapLookup(m', key) <==> Guard(s, op);
    case FlushOp =>
      forall k ensures Lookup(Apply(s, op), k) == MapLookup(m', k) { FlushInvisible(s, k); }
    case ReopenOp =>
      forall k ensures Lookup(Apply(s, op), k) == MapLookup(m', k) <==> Agrees(s, k) { ReopenInvisibleAt(s, k); }
  }

  /** After every operation of the run, the store looks like the map. */
  ghost predicate AlwaysLikeMapFrom(s: Store, m: map<Str, Str>, ops: seq<Op>) {
    Mirrors(ApplyAll(s, ops), MapAfterFrom(m, ops)) && (ops != [] ==> AlwaysLikeMapFrom(s, m, ops[..|ops| - 1]))
  }

  ghost predicate AlwaysLikeMap(ops: seq<Op>) {
    AlwaysLikeMapFrom(Store([], []), map[], ops)
  }

  /** Every operation of the run met its guard when it was called. */
  ghost predicate AllGuardedFrom(s: Store, ops: seq<Op>) {
    ops != [] ==> AllGuardedFrom(s, ops[..|ops| - 1]) && Guard(ApplyAll(s, ops[..|ops| - 1]), ops[|ops| - 1])
  }

  ghost predicate AllGuarded(ops: seq<Op>) {
    AllGuardedFrom(Store([], []), ops)
  }

  /** A run on any store looks like a map at every moment exactly when every operation met its guard. */
  lemma {:induction false} RunRefinesFrom(s: Store, m: map<Str, Str>, ops: seq<Op>)
    requires Ordered(s) && Mirrors(s, m)
    ensures AlwaysLikeMapFrom(s, m, ops) <==> AllGuardedFrom(s, ops)
  {
    if ops != [] {
      var front := ops[..|ops| - 1];
      RunRefinesFrom(s, m, front);
      StateOrdered(s, front);
      if Mirrors(ApplyAll(s, front), MapAfterFrom(m, front)) {
        OneStep(ApplyAll(s, front), ops[|ops| - 1], MapAfterFrom(m, front));
      }
    }
  }

  lemma {:induction false} RunRefinesExactly(ops: seq<Op>)
    ensures AlwaysLikeMap(ops) <==> AllGuarded(ops)
  {
    RunRefinesFrom(Store([], []), map[], ops);
  }

  // ---- what a store shows, as a map ----

  function TablesMap(tables: seq<seq<KV>>): map<Str, Str> {
    if tables == [] then map[] else TablesMap(tables[1..]) + ToMap(tables[0])
  }

  function Shown(s: Store): map<Str, Str> {
    var m := TablesMap(s.tables) + ToMap(s.mem);
    map k | k in m && m[k] != [] :: m[k]
  }

  lemma {:induction false} SearchIsTablesMap(tables: seq<seq<KV>>, key: Str)
    ensures Search(tables, key) == MapLookup(TablesMap(tables), key)
  {
    if tables != [] {
      FindIsToMap(tables[0], key);
      SearchIsTablesMap(tables[1..], key);
    }
  }

  lemma {:induction false} ShownMirrors(s: Store)
    ensures Mirrors(s, Shown(s))
  {
    forall k ensures Lookup(s, k) == MapLookup(Shown(s), k) {
      FindIsToMap(s.mem, k);
      SearchIsTablesMap(s.tables, k);
    }
  }

  ghost predicate CallsOn(ops: seq<Op>, key: Str) {
    exists i :: 0 <= i < |ops| && (ops[i].PutOp? || ops[i].DelOp?) && ops[i].key == key
  }

  lemma {:induction false} CallsOnAppend(a: seq<Op>, b: seq<Op>, key: Str)
    ensures CallsOn(a + b, key) <==> CallsOn(a, key) || CallsOn(b, key)
  {
    var s := a + b;
    if CallsOn(a, key) {
      var i :| 0 <= i < |a| && (a[i].PutOp? || a[i].DelOp?) && a[i].key == key;
      assert s[i] == a[i];
    }
    if CallsOn(b, key) {
      var i :| 0 <= i < |b| && (b[i].PutOp? || b[i].DelOp?) && b[i].key == key;
      assert s[|a| + i] == b[i];
    }
  }

  /** The calls on a key decide what the map shows for it; without any it is as before. */
  lemma {:induction false} CallsDecide(m: map<Str, Str>, ops: seq<Op>, key: Str)
    ensures MapLookup(MapAfterFrom(m, ops), key) == MapLookup(if CallsOn(ops, key) then MapAfter(ops) else m, key)
  {
    if ops != [] {
      var front, op := ops[..|ops| - 1], ops[|ops| - 1];
      CallsDecide(m, front, key);
      assert ops == front + [op];
      CallsOnAppend(front, [op], key);
      assert [op][0] == op;
    }
  }

  // ---- any run, guarded or not ----

  /** An entry the memtable has at the end of a run is up to date: only tables show what is old. */
  lemma {:induction false} EntriesAreCurrent(s: Store, m: map<Str, Str>, ops: seq<Op>, key: Str)
    requires Ordered(s) && Mirrors(s, m)
    ensures var r := Find(ApplyAll(s, ops).mem, key);
            r.Some? ==> Visible(r) == MapLookup(MapAfterFrom(m, ops), key)
  {
    if ops == [] {
      assert Lookup(s, key) == MapLookup(m, key);
    } else {
      var front, op := ops[..|ops| - 1], ops[|ops| - 1];
      var t := ApplyAll(s, front);
      EntriesAreCurrent(s, m, front, key);
      StateOrdered(s, front);
      match op
      case PutOp(k, value) => FindInsert(t.mem, k, value, key);
      case DelOp(k) => FindRemove(t.mem, k, key); FindInsert(t.mem, k, [], key);
      case FlushOp =>
      case ReopenOp =>
    }
  }

  /** The memtable that a call writes to a new table, if it writes one. */
  function WrittenOut(s: Store, op: Op): Option<seq<KV>> {
    match op
    case PutOp(key, value) =>
      var mem := Insert(s.mem, key, value);
      if Space(mem) > SSTABLE_SPACE then Some(mem) else None
    case DelOp(key) => None
    case FlushOp => if s.mem == [] then None else Some(s.mem)
    case ReopenOp => if s.mem == [] then None else Some(s.mem)
  }

  /** The value of key in the first memtable written out that has it, after what is on disk already. */
  function FirstWritten(s: Store, ops: seq<Op>, key: Str): Option<Str> {
    if ops == [] then Search(s.tables, key)
    else
      var front := ops[..|ops| - 1];
      var before, table := FirstWritten(s, front, key), WrittenOut(ApplyAll(s, front), ops[|ops| - 1]);
      if before.Some? || table.None? then before else Find(table.value, key)
  }

  lemma {:induction false} DiskKeepsFirst(s: Store, ops: seq<Op>, key: Str)
    ensures Search(ApplyAll(s, ops).tables, key) == FirstWritten(s, ops, key)
  {
    if ops != [] {
      var front, op := ops[..|ops| - 1], ops[|ops| - 1];
      var t := ApplyAll(s, front);
      DiskKeepsFirst(s, front, key);
      match op
      case PutOp(k, value) => SearchSnoc(t.tables, Insert(t.mem, k, value), key);
      case DelOp(k) =>
      case FlushOp => SearchSnoc(t.tables, t.mem, key);
      case ReopenOp => SearchSnoc(t.tables, t.mem, key);
    }
  }

  /** What get finds after any run on any store, guarded or not: what the plain map has if the key is still in the
      memtable, and else the first value of the key that was written out. */
  lemma {:induction false} FinalLookup(s: Store, m: map<Str, Str>, ops: seq<Op>, key: Str)
    requires Ordered(s) && Mirrors(s, m)
    ensures var found, goal := Lookup(ApplyAll(s, ops), key), MapLookup(MapAfterFrom(m, ops), key);
            && found == (if Find(ApplyAll(s, ops).mem, key).Some? then goal else Visible(FirstWritten(s, ops, key)))
            && (found == goal <==>
                  Find(ApplyAll(s, ops).mem, key).Some? || Visible(FirstWritten(s, ops, key)) == goal)
  {
    EntriesAreCurrent(s, m, ops, key);
    DiskKeepsFirst(s, ops, key);
  }

  // ---- runs that stay away from spilled keys ----

  /** Values are non-empty, and no key is put or deleted once a table holds it. */
  ghost predicate StaysAway(ops: seq<Op>) {
    forall i :: 0 <= i < |ops| ==> KeepsAway(StateAfter(ops[..i]), ops[i])
  }

  predicate KeepsAway(s: Store, op: Op) {
    match op
    case PutOp(key, value) => Search(s.tables, key) == None && value != []
    case DelOp(key) => Search(s.tables, key) == None
    case FlushOp => true
    case ReopenOp => true
  }

  /** What memtable and tables both hold they agree on, and no value is empty. */
  ghost predicate Separate(s: Store) {
    && Ordered(s)
    && (forall k :: Agrees(s, k))
    && (forall k :: Find(s.mem, k).Some? ==> Find(s.mem, k).value != [])
    && (forall k :: Search(s.tables, k).Some? ==> Search(s.tables, k).value != [])
  }

  lemma {:induction false} SpillSeparate(s: Store)
    requires Separate(s)
    ensures Separate(Spill(s))
    ensures forall k :: Lookup(Spill(s), k) == Lookup(s, k)
  {
    forall k ensures Lookup(Spill(s), k) == Lookup(s, k) && (Search(Spill(s).tables, k).Some? ==> Search(Spill(s).tables, k).value != [])
    {
      SpillInvisibleAt(s, k);
      SearchSnoc(s.tables, s.mem, k);
    }
  }

  lemma {:induction false} FlushSeparate(s: Store)
    requires Separate(s)
    ensures Separate(Flush(s)) && Separate(Reopen(s))
  {
    if s.mem != [] {
      SpillSeparate(s);
      forall k ensures Agrees(Flush(s), k) {
        SearchSnoc(s.tables, s.mem, k);
        assert Agrees(s, k);
      }
    }
  }

  lemma {:induction false} WriteSeparate(s: Store, op: Op)
    requires Separate(s) && KeepsAway(s, op) && (op.PutOp? || op.DelOp?)
    ensures Separate(Apply(s, op)) && Guard(s, op)
  {
    match op
    case PutOp(key, value) =>
      var t := s.(mem := Insert(s.mem, key, value));
      InsertSorted(s.mem, key, value);
      forall k ensures Find(t.mem, k) == if k == key then Some(value) else Find(s.mem, k) { FindInsert(s.mem, key, value, k); }
      forall k ensures Agrees(t, k) { assert Agrees(s, k); }
      SpillSeparate(t);
    case DelOp(key) =>
      var t := s.(mem := Remove(s.mem, key));
      RemoveSorted(s.mem, key);
      forall k ensures Find(t.mem, k) == if k == key then None else Find(s.mem, k) { FindRemove(s.mem, key, k); }
      forall k ensures Agrees(t, k) { assert Agrees(s, k); }
  }

  lemma {:induction false} ApplySeparate(s: Store, op: Op)
    requires Separate(s) && KeepsAway(s, op)
    ensures Separate(Apply(s, op)) && Guard(s, op)
  {
    if op.PutOp? || op.DelOp? { WriteSeparate(s, op); } else { FlushSeparate(s); }
  }

  /** A run that stays away from spilled keys is a plain map, spills, flushes and reopenings and all. */
  lemma {:induction false} RunRefinesMap(ops: seq<Op>)
    requires StaysAway(ops)
    ensures Separate(StateAfter(ops)) && AllGuarded(ops) && AlwaysLikeMap(ops)
  {
    if ops != [] {
      var n := |ops| - 1;
      var front := ops[..n];
      assert forall i :: 0 <= i < n ==> front[..i] == ops[..i];
      assert StaysAway(front) by {
        forall i | 0 <= i < n ensures KeepsAway(StateAfter(front[..i]), front[i]) { assert KeepsAway(StateAfter(ops[..i]), ops[i]); }
      }
      RunRefinesMap(front);
      assert KeepsAway(StateAfter(ops[..n]), ops[n]);
      ApplySeparate(StateAfter(front), ops[n]);
    }
    RunRefinesExactly(ops);
  }

  // ---- runs that do not look like a map ----

  lemma {:induction false} OneMore(ops: seq<Op>, op: Op)
    ensures StateAfter(ops + [op]) == Apply(StateAfter(ops), op)
  {
    assert (ops + [op])[..|ops|] == ops;
  }

  /** A value too large for the memtable goes straight to a table; later values of its key are never seen. */
  lemma {:induction false} StaleReads(key: Str, v1: Str, v2: Str)
    requires |v1| > SSTABLE_SPACE && |v2| > SSTABLE_SPACE && v1 != v2
    ensures Lookup(StateAfter([PutOp(key, v1)] + [PutOp(key, v2)]), key) == Some(v1)
  {
    LargePut(key, v1);
    OneMore([PutOp(key, v1)], PutOp(key, v2));
    assert Insert([], key, v2) == [KV(key, v2)];
    SearchSnoc([[KV(key, v1)]], [KV(key, v2)], key);
  }

  lemma {:induction false} LargePut(key: Str, value: Str)
    requires |value| > SSTABLE_SPACE
    ensures StateAfter([PutOp(key, value)]) == Store([], [[KV(key, value)]])
  {
    OneMore([], PutOp(key, value));
    assert [] + [PutOp(key, value)] == [PutOp(key, value)];
    assert Insert([], key, value) == [KV(key, value)];
  }

  /** After any run: deleting a spilled key twice brings its value back. */
  lemma {:induction false} DeletedTwice(ops: seq<Op>, key: Str)
    requires Find(StateAfter(ops).mem, key) == None && Lookup(StateAfter(ops), key).Some?
    ensures Lookup(StateAfter(ops + [DelOp(key)]), key) == None
    ensures Lookup(StateAfter(ops + [DelOp(key)] + [DelOp(key)]), key) == Lookup(StateAfter(ops), key)
  {
    StateOrdered(Store([], []), ops);
    OneMore(ops, DelOp(key));
    OneMore(ops + [DelOp(key)], DelOp(key));
    DeleteTwiceResurrects(StateAfter(ops), key);
  }

  /** The shortest such run. */
  lemma {:induction false} DeletedTwiceAfterPut(key: Str, value: Str)
    requires |value| > SSTABLE_SPACE
    ensures Lookup(StateAfter([PutOp(key, value)] + [DelOp(key)]), key) == None
    ensures Lookup(StateAfter([PutOp(key, value)] + [DelOp(key)] + [DelOp(key)]), key) == Some(value)
  {
    LargePut(key, value);
    DeletedTwice([PutOp(key, value)], key);
  }
}
