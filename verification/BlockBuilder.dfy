// src/storage/BlockBuilder.cpp
module BlockBuilders {
  import opened Bytes
  import opened Entries
  import opened BlockFormat
  import opened Sequences

  /** The builder's fields, for the entries added so far. */
  ghost predicate Built(buffer: Str, lastKey: Str, restarts: seq<nat>, counter: nat, finished: bool, entries: seq<KV>) {
    && buffer == (if finished then BlockBytes(entries) else EncodeEntries(entries))
    && restarts == Restarts(entries)
    && counter == Counter(|entries|)
    && lastKey == (if |entries| == 0 then [] else entries[|entries| - 1].key)
  }

  class BlockBuilder {
    var buffer: Str
    var lastKey: Str
    var restarts: seq<nat>
    var counter: nat
    var finished: bool

    ghost var entries: seq<KV>   // what has been added since the last reset

    ghost predicate Valid()
      reads this
    {
      Built(buffer, lastKey, restarts, counter, finished, entries)
    }

    lemma {:induction false} LastEntry()
      requires Valid()
      ensures entries != [] ==> lastKey == entries[|entries| - 1].key
    {
    }

    constructor ()
      ensures Valid() && !finished && entries == []
    {
      buffer, lastKey, counter, finished := [], [], 0, false;
      restarts, entries := [0], [];
    }

    function Empty(): bool
      reads this
    {
      buffer == []
    }

    /** Keys must arrive in increasing order; the source asserts it. */
    method Add(key: Str, value: Str)
      requires Valid() && !finished
      requires entries == [] || Less(lastKey, key)
      modifies this
      ensures Valid() && !finished
      ensures entries == old(entries) + [KV(key, value)]
    {
      ghost var es := entries + [KV(key, value)];
      EncodeOneMore(entries, KV(key, value));
      if counter == RESTART_INTERVAL {
        restarts := restarts + [|buffer|];
        counter := 0;
      }
      buffer := buffer + EncodeEntry(KV(key, value));
      lastKey := key;
      counter := counter + 1;
      assert buffer == EncodeEntries(es) && restarts == Restarts(es) && counter == Counter(|es|);
      entries := es;
    }

    method Finish() returns (block: Str)
      requires Valid() && !finished
      modifies this`buffer, this`finished
      ensures Valid() && finished
      ensures block == BlockBytes(entries)
    {
      EntriesSize(entries);
      var position := |buffer|;
      ghost var start := buffer + U64(|restarts|);
      buffer := buffer + U64(|restarts|);
      var i := 0;
      while i < |restarts|
        invariant 0 <= i <= |restarts|
        invariant buffer == start + EncodeRestarts(restarts[..i])
      {
        RestartsOneMore(restarts, i);
        Assoc(start, EncodeRestarts(restarts[..i]), U64(restarts[i]));
        buffer := buffer + U64(restarts[i]);
        i := i + 1;
      }
      assert restarts[..i] == restarts;
      buffer := buffer + U64(position);
      finished := true;
      block := buffer;
    }

    method Reset()
      modifies this
      ensures Valid() && !finished && entries == []
    {
      buffer, lastKey, counter, finished := [], [], 0, false;
      restarts, entries := [0], [];
    }

    /** What the builder reports is the length Finish will return. */
    method EstimatedSize() returns (n: nat)
      requires Valid() && !finished
      ensures n == |BlockBytes(entries)| == BlockLength(entries)
    {
      BlockSize(entries);
      n := |buffer| + 8 * |restarts| + 16;
    }
  }
}
