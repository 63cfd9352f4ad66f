// src/storage/KVStore_beta.cpp: a memtable in front of the spilled tables.
module KVStores {
  import opened Options
  import opened Bytes
  import opened Entries
  import opened TableFormat
  import opened StoreModel
  import opened LevelZeros
  import opened SkipLists

  class KVStore {
    const memtable: SkipList
    const level0: LevelZero

    ghost predicate Valid()
      reads this, memtable, memtable.Repr, level0
    {
      && memtable.Valid() && level0.Valid()
      && level0 !in memtable.Repr && this !in memtable.Repr
    }

    /** The store as a value. */
    ghost function View(): Store
      reads memtable, level0
    {
      Store(memtable.contents, level0.tables)
    }

    constructor (codec: Codec)
      ensures Valid() && fresh(memtable) && fresh(memtable.Repr) && fresh(level0)
      ensures View() == Store([], []) && level0.codec == codec
    {
      memtable := new SkipList();
      level0 := new LevelZero(codec);
    }

    /** A store opened on the tables an earlier one has left. */
    constructor Open(level0: LevelZero)
      requires level0.Valid()
      ensures Valid() && fresh(memtable) && fresh(memtable.Repr) && this.level0 == level0
      ensures View() == Store([], level0.tables)
    {
      memtable := new SkipList();
      this.level0 := level0;
    }

    /** A spill needs the table it writes to fit 64-bit lengths. */
    method Put(key: Str, value: Str, heads: nat)
      requires Valid()
      requires Space(Insert(memtable.contents, key, value)) > SSTABLE_SPACE ==>
                 Fits(level0.codec, Insert(memtable.contents, key, value))
      modifies memtable, memtable.Repr, level0
      ensures Valid() && fresh(memtable.Repr - old(memtable.Repr))
      ensures View() == StoreModel.Put(old(View()), key, value)
    {
      hide Insert, Space, Fits;
      memtable.Put(key, value, heads);
      if memtable.Bytes() > SSTABLE_SPACE {
        level0.Add(memtable);
        memtable.Clear();
      }
    }

    method Get(key: Str) returns (r: Option<Str>)
      requires Valid()
      ensures r == StoreModel.Lookup(View(), key)
    {
      FindIsToMap(memtable.contents, key);
      var present := memtable.Contains(key);
      if present {
        r := memtable.Get(key);
      } else {
        r := level0.Lookup(key);
      }
      if r.Some? && r.value != [] {
        return r;
      }
      return None;
    }

    method Del(key: Str, heads: nat) returns (deleted: bool)
      requires Valid()
      modifies memtable, memtable.Repr
      ensures Valid() && fresh(memtable.Repr - old(memtable.Repr))
      ensures View() == StoreModel.Del(old(View()), key)
      ensures deleted <==> Find(old(memtable.contents), key).Some? || StoreModel.Lookup(old(View()), key).Some?
    {
      FindIsToMap(memtable.contents, key);
      var present := memtable.Contains(key);
      if present {
        var removed := memtable.Del(key);
        return true;
      }
      var result := level0.Lookup(key);
      if result.Some? && result.value != [] {
        memtable.Put(key, [], heads);
        return true;
      } else {
        return false;
      }
    }

    method Flush()
      requires Valid()
      requires memtable.contents != [] ==> Fits(level0.codec, memtable.contents)
      modifies level0
      ensures Valid()
      ensures View() == StoreModel.Flush(old(View()))
      ensures level0.tables == old(level0.tables) + if memtable.contents == [] then [] else [memtable.contents]
    {
      if memtable.Size() != 0 {
        level0.Add(memtable);
      }
    }
  }
}
