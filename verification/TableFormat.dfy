// The layout of a table file: compressed data blocks, the compressed index
// block, and a 16-byte handle on the index.
module TableFormat {
  import opened Options
  import opened Bytes
  import opened Entries
  import opened BlockFormat
  import opened Splitting
  import opened Sequences

  /** snappy as a pair of functions. */
  datatype Codec = Codec(compress: Str -> Str, uncompress: Str -> Str)

  ghost predicate RoundTrips(c: Codec) {
    forall x {:trigger c.compress(x)} :: c.uncompress(c.compress(x)) == x
  }

  predicate BlockFull(es: seq<KV>) {
    BlockLength(es) >= BLOCK_SPACE
  }

  /** The data blocks the builder makes of these entries. */
  function DataBlocks(es: seq<KV>): seq<seq<KV>> {
    Cut(es, BlockFull)
  }

  lemma {:induction false} BlockGrows(es: seq<KV>, n: nat)
    requires n <= |es|
    ensures BlockLength(es[..n]) <= BlockLength(es)
  {
    if n < |es| {
      var fs := es[..|es| - 1];
      BlockGrows(fs, n);
      assert fs[..n] == es[..n];
      OffsetOfPrefix(es, fs, |fs|);
    } else {
      assert es[..n] == es;
    }
  }

  lemma {:induction false} BlockFullGrows()
    ensures Monotone(BlockFull) && !BlockFull([])
  {
    forall s: seq<KV>, n | 0 <= n <= |s| && BlockFull(s[..n]) ensures BlockFull(s) {
      BlockGrows(s, n);
    }
  }

  /** The builder's split is greedy, loses nothing, and is the only such split. */
  lemma {:induction false} DataBlocksExactly(es: seq<KV>, blocks: seq<seq<KV>>)
    ensures blocks == DataBlocks(es) <==> Greedy(blocks, BlockFull) && Flatten(blocks) == es
    ensures forall b {:trigger BlockFull(b)} :: BlockFull(b) <==> |BlockBytes(b)| >= BLOCK_SPACE
  {
    forall b ensures BlockFull(b) <==> |BlockBytes(b)| >= BLOCK_SPACE { BlockSize(b); }
    BlockFullGrows();
    CutIsGreedy(es, BlockFull);
    if Greedy(blocks, BlockFull) && Flatten(blocks) == es {
      GreedyIsUnique(blocks, DataBlocks(es), BlockFull);
    }
  }

  // ---- the file ----

  function Chunk(c: Codec, es: seq<KV>): Str {
    c.compress(BlockBytes(es))
  }

  function Chunks(c: Codec, blocks: seq<seq<KV>>): (chunks: seq<Str>)
    ensures |chunks| == |blocks|
  {
    seq(|blocks|, i requires 0 <= i < |blocks| => Chunk(c, blocks[i]))
  }

  function Join(parts: seq<Str>): Str {
    if parts == [] then [] else Join(parts[..|parts| - 1]) + parts[|parts| - 1]
  }

  function DataBytes(c: Codec, blocks: seq<seq<KV>>): Str {
    Join(Chunks(c, blocks))
  }

  lemma {:induction false} DataBytesSnoc(c: Codec, blocks: seq<seq<KV>>, b: seq<KV>)
    ensures DataBytes(c, blocks + [b]) == DataBytes(c, blocks) + Chunk(c, b)
  {
    assert Chunks(c, blocks + [b])[..|blocks|] == Chunks(c, blocks);
  }

  /** The 16 bytes that say where a block is: offset and compressed size. */
  function Handle(offset: nat, size: nat): (s: Str)
    ensures |s| == 16
  {
    U64(offset) + U64(size)
  }

  predicate NonEmptyBlocks(blocks: seq<seq<KV>>) {
    forall i :: 0 <= i < |blocks| ==> |blocks[i]| > 0
  }

  function LastKey(b: seq<KV>): Str
    requires |b| > 0
  {
    b[|b| - 1].key
  }

  /** The index entry of a block: its last key and its handle. */
  function IndexEntry(c: Codec, blocks: seq<seq<KV>>, i: nat): KV
    requires NonEmptyBlocks(blocks) && i < |blocks|
  {
    KV(LastKey(blocks[i]), Handle(|DataBytes(c, blocks[..i])|, |Chunk(c, blocks[i])|))
  }

  function Index(c: Codec, blocks: seq<seq<KV>>): (ix: seq<KV>)
    requires NonEmptyBlocks(blocks)
    ensures |ix| == |blocks|
  {
    seq(|blocks|, i requires 0 <= i < |blocks| => IndexEntry(c, blocks, i))
  }

  function TableBytes(c: Codec, blocks: seq<seq<KV>>): Str
    requires NonEmptyBlocks(blocks)
  {
    TableOf(DataBytes(c, blocks), Chunk(c, Index(c, blocks)))
  }

  function TableOf(data: Str, index: Str): Str {
    data + index + Handle(|data|, |index|)
  }

  lemma {:induction false} IndexSnoc(c: Codec, blocks: seq<seq<KV>>, b: seq<KV>)
    requires NonEmptyBlocks(blocks) && |b| > 0
    ensures Index(c, blocks + [b]) == Index(c, blocks) + [KV(LastKey(b), Handle(|DataBytes(c, blocks)|, |Chunk(c, b)|))]
  {
    var more := blocks + [b];
    assert more[..|blocks|] == blocks;
    forall i | 0 <= i < |blocks| ensures IndexEntry(c, more, i) == IndexEntry(c, blocks, i) {
      assert more[..i] == blocks[..i];
    }
  }

  lemma {:induction false} JoinSplit(parts: seq<Str>, i: nat) returns (rest: Str)
    requires i < |parts|
    ensures Join(parts) == Join(parts[..i]) + parts[i] + rest
  {
    var n := |parts| - 1;
    if i == n {
      rest := [];
    } else {
      var r := JoinSplit(parts[..n], i);
      assert parts[..n][..i] == parts[..i];
      rest := r + parts[n];
      AssocEnd(Join(parts[..i]), parts[i], r, parts[n]);
    }
  }

  /** These bytes of the file are exactly this chunk. */
  ghost predicate InFile(file: Str, at: nat, chunk: Str) {
    at + |chunk| <= |file| && file[at..at + |chunk|] == chunk
  }

  /** A block's handle cuts exactly its chunk out of the file. */
  lemma {:induction false} ChunkInFile(c: Codec, blocks: seq<seq<KV>>, i: nat)
    requires NonEmptyBlocks(blocks) && i < |blocks|
    ensures InFile(TableBytes(c, blocks), |DataBytes(c, blocks[..i])|, Chunk(c, blocks[i]))
  {
    assert Chunks(c, blocks)[..i] == Chunks(c, blocks[..i]);
    PartInFile(Chunks(c, blocks), i, Chunk(c, Index(c, blocks)));
  }

  lemma {:induction false} PartInFile(parts: seq<Str>, i: nat, index: Str)
    requires i < |parts|
    ensures InFile(TableOf(Join(parts), index), |Join(parts[..i])|, parts[i])
  {
    var rest := JoinSplit(parts, i);
    PieceInFile(Join(parts[..i]), parts[i], rest, index);
  }

  lemma {:induction false} PieceInFile(pre: Str, chunk: Str, rest: Str, index: Str)
    ensures InFile(TableOf(pre + chunk + rest, index), |pre|, chunk)
  {
  }

  lemma {:induction false} HandleBack(offset: nat, size: nat)
    requires offset < TWO_64 && size < TWO_64
    ensures FieldAt(Handle(offset, size), 0, offset) && FieldAt(Handle(offset, size), 8, size)
  {
    U64RoundTrip(offset);
    U64RoundTrip(size);
    FourPieces([], U64(offset), U64(size), [], [], []);
    assert Handle(offset, size) == [] + (U64(offset) + U64(size) + [] + []) + [];
  }

  /** The footer read: the last 16 bytes cut the index chunk out of the file. */
  lemma {:induction false} Footer(data: Str, index: Str)
    requires |TableOf(data, index)| < TWO_64
    ensures var file := TableOf(data, index);
            && |file| == |data| + |index| + 16
            && FieldAt(file, |file| - 16, |data|) && FieldAt(file, |file| - 8, |index|)
            && InFile(file, |data|, index)
  {
    U64RoundTrip(|data|);
    U64RoundTrip(|index|);
    FooterPieces(data, index, U64(|data|), U64(|index|));
  }

  lemma {:induction false} FooterPieces(data: Str, index: Str, a: Str, b: Str)
    requires |a| == |b| == 8
    ensures var s := data + index + (a + b);
            && |s| == |data| + |index| + 16
            && s[|s| - 16..|s| - 16 + 8] == a && s[|s| - 8..|s| - 8 + 8] == b
            && s[|data|..|data| + |index|] == index
  {
  }

  // ---- which block holds a key ----

  lemma {:induction false} FlattenAt(blocks: seq<seq<KV>>, j: nat)
    requires j < |blocks|
    ensures Flatten(blocks) == Flatten(blocks[..j]) + blocks[j] + Flatten(blocks[j + 1..])
  {
    if j == 0 {
      FlattenFront(blocks);
      assert blocks[..0] == [];
      assert Flatten(blocks) == [] + blocks[0] + Flatten(blocks[1..]);
    } else {
      FlattenFront(blocks);
      FlattenAt(blocks[1..], j - 1);
      assert blocks[..j][1..] == blocks[1..][..j - 1];
      FlattenFront(blocks[..j]);
      assert blocks[1..][j..] == blocks[j + 1..];
      AssocStart(blocks[0], Flatten(blocks[1..][..j - 1]), blocks[j], Flatten(blocks[j + 1..]));
    }
  }

  lemma {:induction false} SortedPieces(a: seq<KV>, b: seq<KV>, c: seq<KV>)
    requires Sorted(a + b + c)
    ensures Sorted(a) && Sorted(b) && Sorted(c)
    ensures forall i, j :: 0 <= i < |a| && 0 <= j < |b| ==> Less(a[i].key, b[j].key)
    ensures forall i, j :: 0 <= i < |b| && 0 <= j < |c| ==> Less(b[i].key, c[j].key)
  {
    var s := a + b + c;
    forall i, j | 0 <= i < j < |a| ensures Less(a[i].key, a[j].key) { assert s[i] == a[i] && s[j] == a[j]; }
    forall i, j | 0 <= i < j < |b| ensures Less(b[i].key, b[j].key) {
      assert s[|a| + i] == b[i] && s[|a| + j] == b[j];
    }
    forall i, j | 0 <= i < j < |c| ensures Less(c[i].key, c[j].key) {
      assert s[|a| + |b| + i] == c[i] && s[|a| + |b| + j] == c[j];
    }
    forall i, j | 0 <= i < |a| && 0 <= j < |b| ensures Less(a[i].key, b[j].key) {
      assert s[i] == a[i] && s[|a| + j] == b[j];
    }
    forall i, j | 0 <= i < |b| && 0 <= j < |c| ensures Less(b[i].key, c[j].key) {
      assert s[|a| + i] == b[i] && s[|a| + |b| + j] == c[j];
    }
  }

  lemma {:induction false} NotIn(es: seq<KV>, key: Str)
    requires forall i :: 0 <= i < |es| ==> es[i].key != key
    ensures Find(es, key) == None
  {
    FindIsMember(es, key);
  }

  /** All blocks so far end below key, so the key can only be in the rest. */
  lemma {:induction false} SkipBlock(blocks: seq<seq<KV>>, j: nat, key: Str)
    requires Sorted(Flatten(blocks)) && j < |blocks| && |blocks[j]| > 0
    requires Find(Flatten(blocks), key) == Find(Flatten(blocks[j..]), key)
    requires Less(blocks[j][|blocks[j]| - 1].key, key)
    ensures Find(Flatten(blocks), key) == Find(Flatten(blocks[j + 1..]), key)
  {
    var b := blocks[j];
    FlattenAt(blocks, j);
    SortedPieces(Flatten(blocks[..j]), b, Flatten(blocks[j + 1..]));
    FlattenFront(blocks[j..]);
    assert blocks[j..][1..] == blocks[j + 1..];
    FindConcat(b, Flatten(blocks[j + 1..]), key);
    forall i | 0 <= i < |b| ensures b[i].key != key {
      if i < |b| - 1 {
        assert Less(b[i].key, b[|b| - 1].key);
        LessTransitive(b[i].key, b[|b| - 1].key, key);
      }
      LessIrreflexive(key);
    }
    NotIn(b, key);
  }

  /** The first block not ending below key decides the search. */
  lemma {:induction false} StopAtBlock(blocks: seq<seq<KV>>, j: nat, key: Str)
    requires Sorted(Flatten(blocks)) && j < |blocks| && |blocks[j]| > 0
    requires Find(Flatten(blocks), key) == Find(Flatten(blocks[j..]), key)
    requires !Less(blocks[j][|blocks[j]| - 1].key, key)
    ensures Find(Flatten(blocks), key) == Find(blocks[j], key)
  {
    var b, rest := blocks[j], Flatten(blocks[j + 1..]);
    FlattenAt(blocks, j);
    SortedPieces(Flatten(blocks[..j]), b, rest);
    FlattenFront(blocks[j..]);
    assert blocks[j..][1..] == blocks[j + 1..];
    FindConcat(b, rest, key);
    forall i | 0 <= i < |rest| ensures rest[i].key != key {
      assert Less(b[|b| - 1].key, rest[i].key);
    }
    NotIn(rest, key);
  }
}
