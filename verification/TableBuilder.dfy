// src/storage/TableBuilder.cpp: writing a table file.
module TableBuilders {
  import opened Bytes
  import opened Entries
  import opened BlockFormat
  import opened Splitting
  import opened TableFormat
  import opened BlockBuilders
  import SkipLists
  import SkipListIterators

  class TableBuilder {
    var file: Str        // what has been written to the output stream
    var offset: nat
    var size: nat
    var lastKey: Str
    var numEntries: nat
    const datablock: BlockBuilder
    const indexblock: BlockBuilder
    const codec: Codec

    ghost var added: seq<KV>
    ghost var blocks: seq<seq<KV>>   // the data blocks written so far

    /** The file and the index describe the written blocks; the rest is in the open data block. */
    ghost predicate Layout()
      reads this, datablock, indexblock
    {
      && datablock != indexblock
      && datablock.Valid() && !datablock.finished
      && indexblock.Valid() && !indexblock.finished
      && offset == |file| && numEntries == |added|
      && Written(codec, blocks, datablock.entries, added, file, indexblock.entries, lastKey)
    }

    ghost predicate Valid()
      reads this, datablock, indexblock
    {
      Layout() && Split(blocks, datablock.entries) == Feed(added, BlockFull)
    }

    constructor (codec: Codec)
      ensures Valid() && fresh(datablock) && fresh(indexblock)
      ensures added == [] && this.codec == codec
    {
      this.codec := codec;
      datablock := new BlockBuilder();
      indexblock := new BlockBuilder();
      file, lastKey, offset, size, numEntries := [], [], 0, 0, 0;
      added, blocks := [], [];
    }

    lemma {:induction false} LastAdded()
      requires Valid()
      ensures added != [] ==> lastKey == LastKey(added)
    {
    }

    /** writeBlock, common part: compress and append a finished block, and say where it is. */
    method Emit(content: Str) returns (handle: Str)
      modifies this`file, this`size, this`offset
      ensures file == old(file) + codec.compress(content)
      ensures size == |codec.compress(content)| && offset == old(offset) + size
      ensures handle == Handle(old(offset), size)
    {
      var compressed := codec.compress(content);
      file := file + compressed;
      size := |compressed|;
      handle := Handle(offset, size);
      offset := offset + size;
    }

    /** The open data block, finished and appended. */
    method EmitDataBlock() returns (handle: Str)
      requires datablock.Valid() && !datablock.finished && offset == |file|
      modifies this`file, this`size, this`offset, datablock
      ensures file == old(file) + Chunk(codec, old(datablock.entries)) && offset == |file|
      ensures handle == Handle(old(|file|), |Chunk(codec, old(datablock.entries))|)
    {
      var content := datablock.Finish();
      handle := Emit(content);
    }

    /** writeBlock for the data block: its handle becomes an index entry under the last key. */
    method WriteDataBlock()
      requires Layout() && datablock.entries != []
      modifies this`file, this`size, this`offset, this`blocks, datablock, indexblock
      ensures Layout() && datablock.entries == []
      ensures blocks == old(blocks) + [old(datablock.entries)]
    {
      ghost var es := datablock.entries;
      WriteStep(codec, blocks, es, added, file, indexblock.entries, lastKey);
      indexblock.LastEntry();
      var s := EmitDataBlock();
      indexblock.Add(lastKey, s);
      blocks := blocks + [es];
      datablock.Reset();
    }

    /** writeBlock for the index block: its handle closes the file. */
    method WriteIndexBlock()
      requires Layout() && datablock.entries == []
      modifies this`file, this`size, this`offset, indexblock
      ensures file == TableBytes(codec, blocks)
    {
      var content := indexblock.Finish();
      var s := Emit(content);
      file := file + s;
      indexblock.Reset();
    }

    method Flush()
      requires Layout()
      modifies this`file, this`size, this`offset, this`blocks, datablock, indexblock
      ensures Layout() && datablock.entries == []
      ensures blocks == if old(datablock.entries) == [] then old(blocks) else old(blocks) + [old(datablock.entries)]
    {
      EmptyBuffer(datablock);
      if datablock.Empty() {
        return;
      }
      WriteDataBlock();
    }

    lemma {:induction false} EmptyBuffer(b: BlockBuilder)
      requires b.Valid() && !b.finished
      ensures b.Empty() <==> b.entries == []
    {
    }

    /** The first half of add: the entry joins the open data block. */
    method AddPending(key: Str, value: Str)
      requires Valid()
      requires added == [] || Less(lastKey, key)
      modifies this`lastKey, this`numEntries, this`added, datablock
      ensures Layout() && added == old(added) + [KV(key, value)]
      ensures datablock.entries == old(datablock.entries) + [KV(key, value)]
      ensures Feed(added, BlockFull) ==
                if BlockLength(datablock.entries) >= BLOCK_SPACE
                then Split(blocks + [datablock.entries], []) else Split(blocks, datablock.entries)
    {
      ghost var e := KV(key, value);
      AddStep(codec, blocks, datablock.entries, added, file, indexblock.entries, lastKey, e);
      lastKey := key;
      datablock.Add(key, value);
      numEntries := numEntries + 1;
      added := added + [e];
    }

    /** The second half of add: a full data block is written out. */
    method CloseIfFull()
      requires Layout() && datablock.entries != []
      requires Feed(added, BlockFull) ==
                 if BlockLength(datablock.entries) >= BLOCK_SPACE
                 then Split(blocks + [datablock.entries], []) else Split(blocks, datablock.entries)
      modifies this`file, this`size, this`offset, this`blocks, datablock, indexblock
      ensures Valid()
    {
      var n := datablock.EstimatedSize();
      if n >= BLOCK_SPACE {
        Flush();
      }
    }

    /** Keys must arrive in increasing order. */
    method Add(key: Str, value: Str)
      requires Valid()
      requires added == [] || Less(lastKey, key)
      modifies this, datablock, indexblock
      ensures Valid()
      ensures added == old(added) + [KV(key, value)]
    {
      AddPending(key, value);
      CloseIfFull();
    }

    /** The last data block, the index block, and the handle on the index. */
    method Finish()
      requires Valid()
      modifies this`file, this`size, this`offset, this`blocks, datablock, indexblock
      ensures NonEmptyBlocks(DataBlocks(added)) && file == TableBytes(codec, DataBlocks(added))
    {
      Flush();
      WriteIndexBlock();
    }
  }

  /** The builder's state, field by field, for the written blocks and the pending entries. */
  ghost predicate Written(c: Codec, blocks: seq<seq<KV>>, pending: seq<KV>, added: seq<KV>,
                          file: Str, index: seq<KV>, lastKey: Str)
  {
    && NonEmptyBlocks(blocks)
    && added == Flatten(blocks) + pending && Sorted(added)
    && file == DataBytes(c, blocks)
    && index == Index(c, blocks)
    && (added != [] ==> lastKey == LastKey(added))
  }

  lemma {:induction false} WriteStep(c: Codec, blocks: seq<seq<KV>>, es: seq<KV>, added: seq<KV>,
                  file: Str, index: seq<KV>, lastKey: Str)
    requires Written(c, blocks, es, added, file, index, lastKey) && es != []
    ensures index != [] ==> Less(LastKey(index), lastKey)
    ensures Written(c, blocks + [es], [], added, file + Chunk(c, es),
                    index + [KV(lastKey, Handle(|file|, |Chunk(c, es)|))], lastKey)
  {
    IndexSnoc(c, blocks, es);
    DataBytesSnoc(c, blocks, es);
    FlattenSnoc(blocks, es);
    LastOfConcat(Flatten(blocks), es);
    assert Flatten(blocks + [es]) + [] == Flatten(blocks) + es;
    IndexKeysGrow(c, blocks, es);
  }

  lemma {:induction false} IndexKeysGrow(c: Codec, blocks: seq<seq<KV>>, es: seq<KV>)
    requires NonEmptyBlocks(blocks) && |es| > 0 && Sorted(Flatten(blocks) + es)
    ensures |blocks| > 0 ==> Less(LastKey(Index(c, blocks)), LastKey(es))
  {
    if |blocks| > 0 {
      var n := |blocks| - 1;
      assert Index(c, blocks)[n] == IndexEntry(c, blocks, n);
      KeysGrow(Flatten(blocks[..n]), blocks[n], es);
    }
  }

  lemma {:induction false} AddStep(c: Codec, blocks: seq<seq<KV>>, pending: seq<KV>, added: seq<KV>,
                file: Str, index: seq<KV>, lastKey: Str, e: KV)
    requires Written(c, blocks, pending, added, file, index, lastKey)
    requires added == [] || Less(lastKey, e.key)
    ensures Written(c, blocks, pending + [e], added + [e], file, index, e.key)
    ensures pending == [] || Less(LastKey(pending), e.key)
    ensures Feed(added + [e], BlockFull) == Step(Feed(added, BlockFull), e, BlockFull)
  {
    SortedSnoc(added, e);
    assert (added + [e])[..|added|] == added;
    assert Flatten(blocks) + pending + [e] == Flatten(blocks) + (pending + [e]);
    if pending != [] { LastOfConcat(Flatten(blocks), pending); }
  }

  lemma {:induction false} LastOfConcat(a: seq<KV>, b: seq<KV>)
    requires |b| > 0
    ensures LastKey(a + b) == LastKey(b)
  {
  }

  lemma {:induction false} KeysGrow(a: seq<KV>, b: seq<KV>, c: seq<KV>)
    requires |b| > 0 && |c| > 0 && Sorted(a + b + c)
    ensures Less(LastKey(b), LastKey(c))
  {
    SortedPieces(a, b, c);
  }

  lemma {:induction false} SortedSnoc(es: seq<KV>, e: KV)
    requires Sorted(es) && (es == [] || Less(LastKey(es), e.key))
    ensures Sorted(es + [e])
  {
    forall i | 0 <= i < |es| ensures Less(es[i].key, e.key) {
      if i < |es| - 1 { LessTransitive(es[i].key, es[|es| - 1].key, e.key); }
    }
  }

  /** Adding entry i of es after those before it. */
  method AddEntry(builder: TableBuilder, key: Str, value: Str, ghost es: seq<KV>, ghost i: nat)
    requires Sorted(es) && i < |es| && es[i] == KV(key, value)
    requires builder.Valid() && builder.added == es[..i]
    modifies builder, builder.datablock, builder.indexblock
    ensures builder.Valid() && builder.added == es[..i + 1]
  {
    SortedPrefix(es, i);
    builder.LastAdded();
    builder.Add(key, value);
  }

  /** One round of create_sstable's loop. */
  method Round(iter: SkipListIterators.ListIterator, builder: TableBuilder, ghost i: nat)
    requires iter.list.Walkable() && iter.At(i) && i < |iter.list.contents|
    requires Sorted(iter.list.contents)
    requires builder.Valid() && builder.added == iter.list.contents[..i]
    modifies iter, builder, builder.datablock, builder.indexblock
    ensures iter.list.Walkable() && iter.list.contents == old(iter.list.contents) && iter.At(i + 1)
    ensures iter.node != null <==> i + 1 < |iter.list.contents|
    ensures builder.Valid() && builder.added == iter.list.contents[..i + 1]
  {
    hide TableBuilder.Valid, Sorted;
    iter.OnEntry(i);
    AddEntry(builder, iter.Key(), iter.Value(), iter.list.contents, i);
    iter.Next(i);
    iter.OnEntry(i + 1);
  }

  /** create_sstable's loop. */
  method AddAll(iter: SkipListIterators.ListIterator, builder: TableBuilder)
    requires iter.list.Walkable() && iter.At(0)
    requires Sorted(iter.list.contents)
    requires builder.Valid() && builder.added == []
    modifies iter, builder, builder.datablock, builder.indexblock
    ensures builder.Valid() && builder.added == old(iter.list.contents)
  {
    ghost var es := iter.list.contents;
    ghost var i := 0;
    iter.OnEntry(0);
    hide TableBuilder.Valid, SkipLists.SkipList.Walkable, Sorted;
    while iter.node != null
      invariant iter.list.Walkable() && iter.list.contents == es
      invariant iter.At(i)
      invariant builder.Valid() && builder.added == es[..i]
      invariant iter.node != null <==> i < |es|
      decreases |es| - i
    {
      Round(iter, builder, i);
      i := i + 1;
    }
    assert es[..i] == es;
  }

  /** An empty builder and a cursor on the first entry. */
  method Start(memtable: SkipLists.SkipList, codec: Codec)
    returns (iter: SkipListIterators.ListIterator, builder: TableBuilder)
    requires memtable.Walkable()
    ensures fresh(iter) && fresh(builder) && fresh(builder.datablock) && fresh(builder.indexblock)
    ensures iter.list == memtable && memtable.Walkable() && iter.At(0)
    ensures builder.Valid() && builder.codec == codec && builder.added == []
  {
    builder := new TableBuilder(codec);
    iter := SkipListIterators.Begin(memtable);
  }

  method WriteTable(memtable: SkipLists.SkipList, codec: Codec) returns (file: Str)
    requires memtable.Walkable() && Sorted(memtable.contents)
    ensures NonEmptyBlocks(DataBlocks(memtable.contents))
    ensures file == TableBytes(codec, DataBlocks(memtable.contents))
  {
    hide TableBuilder.Valid, SkipLists.SkipList.Walkable, Sorted, DataBlocks, NonEmptyBlocks;
    ghost var es := memtable.contents;
    var iter, builder := Start(memtable, codec);
    AddAll(iter, builder);
    assert builder.added == es;
    builder.Finish();
    file := builder.file;
    assert memtable.contents == es;
  }

  /** create_sstable: every entry of the memtable, in order, through the builder. */
  method CreateTable(memtable: SkipLists.SkipList, codec: Codec) returns (file: Str)
    requires memtable.Valid()
    ensures NonEmptyBlocks(DataBlocks(memtable.contents))
    ensures file == TableBytes(codec, DataBlocks(memtable.contents))
  {
    memtable.IsWalkable();
    file := WriteTable(memtable, codec);
  }

  lemma {:induction false} SortedPrefix(es: seq<KV>, i: nat)
    requires Sorted(es) && i < |es|
    ensures i > 0 ==> Less(LastKey(es[..i]), es[i].key)
    ensures es[..i] + [es[i]] == es[..i + 1]
  {
  }
}
