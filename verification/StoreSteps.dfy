// get and del of src/storage/KVStore_beta.cpp give up the mutex between their
// look at the memtable and their search of the tables. What other calls do in
// between is any sequence of states each of which follows from the one before.
module StoreSteps {
  import opened Options
  import opened Bytes
  import opened Entries
  import opened StoreModel

  /** One critical section: the tables stay, or the memtable is written out, and then cleared or kept. */
  ghost predicate Follows(s: Store, t: Store) {
    t.tables == s.tables || (t.tables != [] && t.tables == s.tables + [Last(t)] && (t.mem == [] || t.mem == Last(t)))
  }

  function Last(t: Store): seq<KV>
    requires t.tables != []
  {
    t.tables[|t.tables| - 1]
  }

  /** The last critical section of a del that has found its key on disk: put(key, ""). */
  function Cover(s: Store, key: Str): Store {
    s.(mem := Insert(s.mem, key, []))
  }

  /** Whole puts, dels and flushes, and the last step of other dels, are such steps. */
  lemma {:induction false} CallsFollow(s: Store, op: Op, key: Str)
    ensures !op.ReopenOp? ==> Follows(s, Apply(s, op))
    ensures Follows(s, Cover(s, key))
  {
  }

  ghost predicate Steps(ss: seq<Store>) {
    ss != [] && forall i {:trigger ss[i]} :: 0 < i < |ss| ==> Follows(ss[i - 1], ss[i])
  }

  /** Where a get that missed the memtable at the first state may be taken to happen. */
  ghost predicate ReadAt(ss: seq<Store>, n: nat, key: Str, result: Option<Str>) {
    n < |ss| && result == Lookup(ss[n], key)
  }

  /** get is linearizable: what it finds in the last state's tables, having missed the memtable in the first,
      is what an undisturbed get would have returned at some moment in between. */
  lemma {:induction false} GetIsLinearizable(ss: seq<Store>, key: Str) returns (n: nat)
    requires Steps(ss) && Find(ss[0].mem, key) == None
    ensures ReadAt(ss, n, key, Visible(Search(ss[|ss| - 1].tables, key)))
    ensures Search(ss[|ss| - 1].tables, key) == None ==> n == 0 && Search(ss[0].tables, key) == None
  {
    n := 0;
    if |ss| > 1 {
      var front, t := ss[..|ss| - 1], ss[|ss| - 1];
      var s := front[|front| - 1];
      assert Follows(s, t);
      n := GetIsLinearizable(front, key);
      if t.tables != s.tables {
        SearchSnoc(s.tables, Last(t), key);
        if Search(s.tables, key) == None && Search(t.tables, key).Some? { n := |ss| - 1; }
      }
    }
  }

  /** However long a del has waited for its last step, that step removes its key and nothing else. */
  lemma {:induction false} CoverRemoves(s: Store, key: Str, k: Str)
    requires Ordered(s)
    ensures Lookup(Cover(s, key), k) == if k == key then None else Lookup(s, k)
  {
    FindInsert(s.mem, key, [], k);
  }

  // ---- what del returns ----

  /** A del that missed the memtable at the first state returns whether its search of the last state's tables found
      something to see: so it does whether the key could be found at some moment of the call. */
  lemma {:induction false} DelReports(ss: seq<Store>, key: Str) returns (n: nat)
    requires Steps(ss) && Find(ss[0].mem, key) == None
    ensures n < |ss|
    ensures Visible(Search(ss[|ss| - 1].tables, key)).Some? <==> Lookup(ss[n], key).Some?
  {
    n := GetIsLinearizable(ss, key);
  }

  /** What an undisturbed del returns. */
  predicate Deleted(s: Store, key: Str) {
    Find(s.mem, key).Some? || Visible(Search(s.tables, key)).Some?
  }

  /** Two dels of a key that only tables hold: both return true, one after the other or with both searches first.
      One after the other the second uncovers the key again; with both searches first it stays deleted. */
  lemma {:induction false} TwoDels(s: Store, key: Str)
    requires Ordered(s) && Find(s.mem, key) == None && Lookup(s, key).Some?
    ensures Deleted(s, key) && Deleted(Del(s, key), key)
    ensures Lookup(Del(Del(s, key), key), key) == Lookup(s, key)
    ensures Steps([s, Cover(s, key), Cover(Cover(s, key), key)]) && Deleted(Cover(s, key), key)
    ensures Visible(Search(s.tables, key)).Some? && Lookup(Cover(Cover(s, key), key), key) == None
  {
    DeleteTwiceResurrects(s, key);
    FindInsert(s.mem, key, [], key);
    InsertSorted(s.mem, key, []);
    CoverRemoves(Cover(s, key), key, key);
  }
}
