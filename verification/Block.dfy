// src/storage/Block.cpp: reading a finished block.
module Blocks {
  import opened Options
  import opened Bytes
  import opened Entries
  import opened BlockFormat

  /** The reader's fields, for the entries its content encodes. */
  ghost predicate Loaded(content: Str, entries: seq<KV>, restartOffset: nat, restartSize: nat, restarts: seq<nat>) {
    && content == BlockBytes(entries) && |content| < TWO_64
    && restartOffset == Offset(entries, |entries|)
    && restartSize == |Restarts(entries)|
    && restarts == Restarts(entries)
  }

  class Block {
    const content: Str
    var restartOffset: nat
    var restartSize: nat
    var restarts: seq<nat>

    ghost const entries: seq<KV>   // the entries the content encodes

    ghost predicate Valid()
      reads this
    {
      Loaded(content, entries, restartOffset, restartSize, restarts)
    }

    /** Reads the trailing offset, the count it points at, and the table in between. */
    constructor (content: Str, ghost entries: seq<KV>)
      requires content == BlockBytes(entries) && |content| < TWO_64
      ensures Valid() && this.content == content && this.entries == entries
    {
      this.content := content;
      this.entries := entries;
      var offset, size, table := ReadTrailer(content, entries);
      restartOffset, restartSize, restarts := offset, size, table;
    }

    static method ReadTrailer(content: Str, ghost entries: seq<KV>) returns (offset: nat, size: nat, table: seq<nat>)
      requires content == BlockBytes(entries) && |content| < TWO_64
      ensures Loaded(content, entries, offset, size, table)
    {
      DecodeTrailer(entries);
      offset := ReadU64(content, |content| - 8);
      size := ReadU64(content, offset);
      table := ReadTable(content, offset + 8, |content| - 8, Restarts(entries));
    }

    static method ReadTable(content: Str, start: nat, end: nat, ghost r: seq<nat>) returns (table: seq<nat>)
      requires end == start + 8 * |r| <= |content|
      requires forall j :: 0 <= j < |r| ==> FieldAt(content, start + 8 * j, r[j])
      ensures table == r
    {
      table := [];
      var i := start;
      while i < end
        invariant start <= i <= end && i == start + 8 * |table|
        invariant |table| <= |r| && table == r[..|table|]
      {
        assert FieldAt(content, start + 8 * |table|, r[|table|]);
        var entry := ReadU64(content, i);
        table := table + [entry];
        i := i + 8;
      }
    }

    lemma {:induction false} EntryFields(i: nat)
      requires Valid() && i < |entries|
      ensures EntryAt(content, Offset(entries, i), entries[i])
      ensures Offset(entries, i + 1) == Offset(entries, i) + 16 + |entries[i].key| + |entries[i].value|
      ensures Offset(entries, i + 1) <= restartOffset <= |content|
      ensures Offset(entries, i + 1) == restartOffset <==> i + 1 == |entries|
    {
      BlockSize(entries);
      DecodeBlockEntry(entries, i);
      if i + 1 < |entries| { OffsetMonotone(entries, i + 1, |entries|); }
    }

    /** Two length-prefixed fields, and the offset behind them. */
    static method ReadFields(content: Str, pos: nat, ghost e: KV) returns (key: Str, value: Str, next: nat)
      requires EntryAt(content, pos, e)
      ensures KV(key, value) == e && next == pos + 16 + |e.key| + |e.value|
    {
      var keySize := ReadU64(content, pos);
      key := content[pos + 8..pos + 8 + keySize];
      var valueOffset := pos + 8 + keySize;
      var valueSize := ReadU64(content, valueOffset);
      value := content[valueOffset + 8..valueOffset + 8 + valueSize];
      next := valueOffset + valueSize + 8;
    }

    /** Entry i at its offset, and the offset behind it. */
    method ReadEntry(pos: nat, ghost i: nat) returns (key: Str, value: Str, next: nat)
      requires Valid() && i < |entries| && pos == Offset(entries, i)
      ensures KV(key, value) == entries[i] && next == Offset(entries, i + 1) <= restartOffset
      ensures next == restartOffset <==> i + 1 == |entries|
    {
      EntryFields(i);
      key, value, next := ReadFields(content, pos, entries[i]);
    }

    lemma {:induction false} EmptyArea()
      requires Valid()
      ensures restartOffset == 0 <==> entries == []
    {
      if entries != [] { OffsetMonotone(entries, 1, |entries|); }
    }

    /** A front-to-back scan of the entry area. */
    method Get(key: Str) returns (r: Option<Str>)
      requires Valid()
      ensures r == Find(entries, key)
    {
      var pos := 0;
      ghost var i := 0;
      EmptyArea();
      while pos < restartOffset
        invariant 0 <= i <= |entries| && pos == Offset(entries, i)
        invariant Find(entries, key) == Find(entries[i..], key)
        invariant pos < restartOffset <==> i < |entries|
        decreases |entries| - i
      {
        assert entries[i..][1..] == entries[i + 1..];
        var entryKey, value, next := ReadEntry(pos, i);
        if entryKey == key {
          return Some(value);
        }
        pos := next;
        i := i + 1;
      }
      return None;
    }
  }

  /** Block::Iter */
  class BlockIterator {
    const block: Block
    var current: nat
    var key: Str
    var value: Str

    constructor (block: Block)
      requires block.Valid()
      ensures this.block == block && At(|block.entries|)
    {
      this.block := block;
      current := block.restartOffset;
      key, value := [], [];
    }

    predicate IsValid()
      reads this, block
    {
      current < block.restartOffset
    }

    /** The cursor is on entry i, or past the entry area when i is the entry count. */
    ghost predicate At(i: nat)
      requires block.Valid()
      reads this, block
    {
      && i <= |block.entries|
      && (i < |block.entries| ==> current == Offset(block.entries, i) && KV(key, value) == block.entries[i])
      && (i == |block.entries| ==> current >= block.restartOffset)
    }

    lemma {:induction false} ValidIff(i: nat)
      requires block.Valid() && At(i)
      ensures IsValid() <==> i < |block.entries|
    {
      if i < |block.entries| { OffsetMonotone(block.entries, i, |block.entries|); }
    }

    method Extract(ghost i: nat)
      requires block.Valid() && i < |block.entries| && current == Offset(block.entries, i)
      modifies this`key, this`value
      ensures At(i)
    {
      var next;
      key, value, next := block.ReadEntry(current, i);
    }

    method SeekToFirst()
      requires block.Valid()
      modifies this
      ensures At(0)
    {
      current := 0;
      if |block.entries| > 0 { OffsetMonotone(block.entries, 0, |block.entries|); }
      if IsValid() {
        Extract(0);
      }
    }

    /** Past the last entry, Next moves further past it and stays invalid. */
    method Next(ghost i: nat)
      requires block.Valid() && At(i)
      modifies this
      ensures At(if i < |block.entries| then i + 1 else i)
    {
      ValidIff(i);
      if i < |block.entries| { block.EntryFields(i); }
      current := current + 16 + |key| + |value|;
      if IsValid() {
        Extract(i + 1);
      }
    }

    /** From the last restart point, step while another entry follows. */
    method SeekToLast()
      requires block.Valid() && |block.entries| > 0
      modifies this
      ensures At(|block.entries| - 1)
    {
      hide BlockBytes, Offset;
      ghost var n := |block.entries|;
      ghost var i := LastRestart(block.entries);
      current := block.restarts[|block.restarts| - 1];
      Extract(i);
      while true
        invariant 0 <= i < n && At(i)
        decreases n - i
      {
        block.EntryFields(i);
        var next := current + 16 + |key| + |value|;
        if next >= block.restartOffset {
          return;
        }
        Next(i);
        i := i + 1;
      }
    }

    /** Stops at the first key >= target, or becomes invalid when there is none. */
    method Seek(target: Str)
      requires block.Valid() && |block.entries| > 0 && Sorted(block.entries)
      modifies this
      ensures At(FirstGE(block.entries, target))
    {
      ghost var es := block.entries;
      SeekToLast();
      if Less(key, target) {
        current := block.restartOffset;
        AllBelow(es, target);
        return;
      }
      SeekToFirst();
      ghost var i := 0;
      while Less(key, target)
        invariant 0 <= i < |es| && At(i)
        invariant forall j {:trigger Less(es[j].key, target)} :: 0 <= j < i ==> Less(es[j].key, target)
        decreases |es| - i
      {
        Next(i);
        i := i + 1;
        ValidIff(i);
        if !IsValid() {
          return;
        }
      }
      FirstGEUnique(es, target, i);
    }
  }

  lemma {:induction false} AllBelow(es: seq<KV>, key: Str)
    requires Sorted(es) && |es| > 0 && Less(es[|es| - 1].key, key)
    ensures FirstGE(es, key) == |es|
  {
    forall j | 0 <= j < |es| ensures Less(es[j].key, key) {
      if j < |es| - 1 { LessTransitive(es[j].key, es[|es| - 1].key, key); }
    }
    FirstGEUnique(es, key, |es|);
  }

  /** SeekToFirst followed by Next until invalid yields the added pairs, in order. */
  method Enumerate(it: BlockIterator) returns (out: seq<KV>)
    requires it.block.Valid()
    modifies it
    ensures out == it.block.entries
  {
    out := [];
    it.SeekToFirst();
    it.ValidIff(0);
    while it.IsValid()
      invariant it.block.Valid() && it.At(|out|)
      invariant it.IsValid() <==> |out| < |it.block.entries|
      invariant out == it.block.entries[..|out|]
      decreases |it.block.entries| - |out|
    {
      out := out + [KV(it.key, it.value)];
      it.Next(|out| - 1);
      it.ValidIff(|out|);
    }
  }
}
