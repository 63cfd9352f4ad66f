// src/storage/LevelZero.cpp behind src/storage/DiskStorage.cpp: the spilled
// tables, oldest first.
module LevelZeros {
  import opened Options
  import opened Bytes
  import opened Entries
  import opened TableFormat
  import opened TableBuilders
  import opened SSTables
  import opened StoreModel
  import SkipLists

  /** The table written for these entries has lengths that fit its 64-bit fields. */
  ghost predicate Fits(c: Codec, es: seq<KV>) {
    NonEmptyBlocks(DataBlocks(es)) && TableFile(TableBytes(c, DataBlocks(es)), c, DataBlocks(es))
  }

  /** File i is the table written for entries i. */
  ghost predicate Files(ssts: seq<Str>, c: Codec, tables: seq<seq<KV>>) {
    |ssts| == |tables| && forall i :: 0 <= i < |ssts| ==> IsFileOf(ssts[i], c, tables[i])
  }

  ghost predicate IsFileOf(file: Str, c: Codec, es: seq<KV>) {
    Sorted(es) && Fits(c, es) && file == TableBytes(c, DataBlocks(es))
  }

  /** Searching a written table file finds exactly what its entries hold. */
  method SearchFile(file: Str, c: Codec, key: Str, ghost es: seq<KV>) returns (r: Option<Str>)
    requires IsFileOf(file, c, es)
    ensures r == Find(es, key)
  {
    DataBlocksExactly(es, DataBlocks(es));
    var table := new SSTable(file, c, DataBlocks(es));
    r := table.Get(key);
  }

  /** End to end: a memtable written out as a table file answers every search as the memtable itself does. */
  method FileAgreesWithMemtable(memtable: SkipLists.SkipList, c: Codec, key: Str) returns (fromFile: Option<Str>, fromMemtable: Option<Str>)
    requires memtable.Valid() && Fits(c, memtable.contents)
    ensures fromFile == fromMemtable == Find(memtable.contents, key)
  {
    fromMemtable := memtable.Get(key);
    var file := CreateTable(memtable, c);
    fromFile := SearchFile(file, c, key, memtable.contents);
  }

  class LevelZero {
    var ssts: seq<Str>
    var numEntries: nat
    const codec: Codec

    ghost var tables: seq<seq<KV>>

    ghost predicate Valid()
      reads this
    {
      Files(ssts, codec, tables)
    }

    constructor (codec: Codec)
      ensures Valid() && tables == [] && this.codec == codec
    {
      this.codec := codec;
      ssts, tables, numEntries := [], [], 0;
    }

    method Add(memtable: SkipLists.SkipList)
      requires Valid() && memtable.Valid() && this !in memtable.Repr
      requires Fits(codec, memtable.contents)
      modifies this
      ensures Valid() && tables == old(tables) + [memtable.contents]
    {
      var file := CreateTable(memtable, codec);
      ssts := ssts + [file];
      tables := tables + [memtable.contents];
      numEntries := numEntries + memtable.Size();
    }

    /** Oldest table first; the first hit wins. */
    method Lookup(key: Str) returns (r: Option<Str>)
      requires Valid()
      ensures r == Search(tables, key)
    {
      var i := 0;
      assert tables[0..] == tables;
      while i < |ssts|
        invariant 0 <= i <= |ssts|
        invariant Search(tables, key) == Search(tables[i..], key)
      {
        var result := SearchFile(ssts[i], codec, key, tables[i]);
        assert tables[i..][1..] == tables[i + 1..];
        if result.Some? {
          return result;
        }
        i := i + 1;
      }
      return None;
    }
  }
}
