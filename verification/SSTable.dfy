// src/storage/SSTable.cpp: opening a table file and searching it, on the path
// without a block cache.
module SSTables {
  import opened Options
  import opened Bytes
  import opened Entries
  import opened BlockFormat
  import opened Splitting
  import opened TableFormat
  import opened Blocks

  /** The file is a table of these blocks, and every length in it fits its 64-bit field. */
  ghost predicate TableFile(file: Str, c: Codec, blocks: seq<seq<KV>>) {
    && RoundTrips(c)
    && NonEmptyBlocks(blocks)
    && file == TableBytes(c, blocks) && |file| < TWO_64
    && |BlockBytes(Index(c, blocks))| < TWO_64
    && forall i :: 0 <= i < |blocks| ==> |BlockBytes(blocks[i])| < TWO_64
  }

  /** loadBlock: cut the chunk out, uncompress it, parse it. */
  method LoadBlock(file: Str, c: Codec, offset: nat, size: nat, ghost es: seq<KV>) returns (block: Block)
    requires RoundTrips(c) && |BlockBytes(es)| < TWO_64
    requires size == |Chunk(c, es)| && InFile(file, offset, Chunk(c, es))
    ensures fresh(block) && block.Valid() && block.entries == es
  {
    var buffer := file[offset..offset + size];
    block := new Block(c.uncompress(buffer), es);
  }

  class SSTable {
    const file: Str
    const codec: Codec
    const indexBlock: Block
    const indexIter: BlockIterator
    ghost const blocks: seq<seq<KV>>

    ghost predicate Valid()
      reads this, indexBlock, indexIter
    {
      && TableFile(file, codec, blocks)
      && indexBlock.Valid() && indexBlock.entries == Index(codec, blocks)
      && indexIter.block == indexBlock
    }

    constructor (file: Str, codec: Codec, ghost blocks: seq<seq<KV>>)
      requires TableFile(file, codec, blocks)
      ensures Valid() && this.blocks == blocks && fresh(indexBlock) && fresh(indexIter)
    {
      Footer(DataBytes(codec, blocks), Chunk(codec, Index(codec, blocks)));
      var offset := ReadU64(file, |file| - 16);
      var size := ReadU64(file, |file| - 8);
      var index := LoadBlock(file, codec, offset, size, Index(codec, blocks));
      this.file, this.codec, this.blocks := file, codec, blocks;
      indexBlock := index;
      indexIter := new BlockIterator(index);
    }

    /** The index entry of block j leads to its chunk. */
    lemma {:induction false} HandleOf(j: nat)
      requires TableFile(file, codec, blocks) && j < |blocks|
      ensures var e := Index(codec, blocks)[j];
              && e.key == LastKey(blocks[j])
              && |e.value| == 16
              && FieldAt(e.value, 8, |Chunk(codec, blocks[j])|)
              && 8 <= |e.value|
              && InFile(file, ReadU64(e.value, 0), Chunk(codec, blocks[j]))
    {
      ChunkInFile(codec, blocks, j);
      assert Index(codec, blocks)[j] == IndexEntry(codec, blocks, j);
      HandleBack(|DataBytes(codec, blocks[..j])|, |Chunk(codec, blocks[j])|);
    }

    /** Read the block an index entry points at and search it. */
    method SearchBlock(handle: Str, key: Str, ghost j: nat) returns (r: Option<Str>)
      requires TableFile(file, codec, blocks) && j < |blocks|
      requires handle == Index(codec, blocks)[j].value
      ensures r == Find(blocks[j], key)
    {
      HandleOf(j);
      var offset := ReadU64(handle, 0);
      var size := ReadU64(handle, 8);
      var block := LoadBlock(file, codec, offset, size, blocks[j]);
      r := block.Get(key);
    }

    method FirstBlock()
      requires Valid()
      modifies indexIter
      ensures Valid() && AtBlock(0)
    {
      indexIter.SeekToFirst();
      indexIter.ValidIff(0);
    }

    method NextBlock(ghost j: nat)
      requires Valid() && AtBlock(j) && j < |blocks|
      modifies indexIter
      ensures Valid() && AtBlock(j + 1)
    {
      indexIter.Next(j);
      indexIter.ValidIff(j + 1);
    }

    /** The index cursor is on the entry of block j, or past the last one. */
    ghost predicate AtBlock(j: nat)
      requires Valid()
      reads this, indexBlock, indexIter
    {
      && j <= |blocks| && (indexIter.IsValid() <==> j < |blocks|)
      && (j < |blocks| ==> KV(indexIter.key, indexIter.value) == Index(codec, blocks)[j])
      && indexIter.At(j)
    }

    /** The index entry of block j decides whether to go on. */
    lemma {:induction false} Decide(j: nat, key: Str)
      requires TableFile(file, codec, blocks) && Sorted(Flatten(blocks)) && j < |blocks|
      requires Find(Flatten(blocks), key) == Find(Flatten(blocks[j..]), key)
      ensures if Less(Index(codec, blocks)[j].key, key)
              then Find(Flatten(blocks), key) == Find(Flatten(blocks[j + 1..]), key)
              else Find(Flatten(blocks), key) == Find(blocks[j], key)
    {
      HandleOf(j);
      if Less(LastKey(blocks[j]), key) { SkipBlock(blocks, j, key); } else { StopAtBlock(blocks, j, key); }
    }

    lemma {:induction false} NothingLeft(j: nat, key: Str)
      requires j == |blocks|
      ensures blocks[0..] == blocks && Find(Flatten(blocks[j..]), key) == None
    {
      assert blocks[j..] == [];
    }

    /** The first block whose last key is not below key decides. */
    method Get(key: Str) returns (r: Option<Str>)
      requires Valid() && Sorted(Flatten(blocks))
      modifies indexIter
      ensures Valid()
      ensures r == Find(Flatten(blocks), key)
    {
      NothingLeft(|blocks|, key);
      hide Find, Flatten, Sorted, Less;
      FirstBlock();
      ghost var j := 0;
      while indexIter.IsValid()
        invariant Valid() && AtBlock(j)
        invariant Find(Flatten(blocks), key) == Find(Flatten(blocks[j..]), key)
        decreases |blocks| - j
      {
        Decide(j, key);
        if !Less(indexIter.key, key) {
          r := SearchBlock(indexIter.value, key, j);
          return;
        } else {
          NextBlock(j);
          j := j + 1;
        }
      }
      return None;
    }
  }
}
