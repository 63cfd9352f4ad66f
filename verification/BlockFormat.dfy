// The bytes of a block: length-prefixed entries, then the restart table.
//
//   entries | number of restarts | restart offsets ... | offset of the count
//
// Every integer is an unsigned 64-bit little-endian field.
module BlockFormat {
  import opened Bytes
  import opened Entries
  import opened Sequences

  const RESTART_INTERVAL: nat := 20
  const BLOCK_SPACE: nat := 4096

  function EncodeEntry(e: KV): (s: Str)
    ensures |s| == 16 + |e.key| + |e.value|
  {
    U64(|e.key|) + e.key + U64(|e.value|) + e.value
  }

  /** Offset, in the entry area, of entry i. */
  function Offset(es: seq<KV>, i: nat): (n: nat)
    requires i <= |es|
  {
    if i == 0 then 0 else Offset(es, i - 1) + 16 + |es[i - 1].key| + |es[i - 1].value|
  }

  function EncodeEntries(es: seq<KV>): Str {
    if es == [] then [] else EncodeEntries(es[..|es| - 1]) + EncodeEntry(es[|es| - 1])
  }

  lemma {:induction false} EntriesSize(es: seq<KV>)
    ensures |EncodeEntries(es)| == Offset(es, |es|)
  {
    if es != [] {
      EntriesSize(es[..|es| - 1]);
      OffsetOfPrefix(es, es[..|es| - 1], |es| - 1);
    }
  }

  lemma {:induction false} OffsetOfPrefix(es: seq<KV>, fs: seq<KV>, i: nat)
    requires i <= |fs| <= |es| && fs == es[..|fs|]
    ensures Offset(fs, i) == Offset(es, i)
  {
    if i > 0 { OffsetOfPrefix(es, fs, i - 1); }
  }

  lemma {:induction false} OffsetMonotone(es: seq<KV>, i: nat, j: nat)
    requires i <= j <= |es|
    ensures Offset(es, i) + 16 * (j - i) <= Offset(es, j)
  {
    if i < j { OffsetMonotone(es, i, j - 1); }
  }

  /** The restart table after these entries: one offset for every RESTART_INTERVAL entries. */
  function Restarts(es: seq<KV>): (r: seq<nat>)
    ensures |r| >= 1
  {
    if |es| == 0 then [0]
    else
      var r := Restarts(es[..|es| - 1]);
      if |es| > 1 && (|es| - 1) % RESTART_INTERVAL == 0 then r + [Offset(es, |es| - 1)] else r
  }

  function EncodeRestarts(r: seq<nat>): Str {
    if r == [] then [] else EncodeRestarts(r[..|r| - 1]) + U64(r[|r| - 1])
  }

  /** What finish() returns for these entries. */
  function BlockBytes(es: seq<KV>): Str {
    EncodeEntries(es) + U64(|Restarts(es)|) + EncodeRestarts(Restarts(es)) + U64(Offset(es, |es|))
  }

  lemma {:induction false} RestartsSize(r: seq<nat>)
    ensures |EncodeRestarts(r)| == 8 * |r|
  {
    if r != [] { RestartsSize(r[..|r| - 1]); }
  }

  function RestartCount(n: nat): nat {
    if n == 0 then 1 else (n - 1) / RESTART_INTERVAL + 1
  }

  /** The length of a block, without building it: what estimated_size adds up. */
  function BlockLength(es: seq<KV>): nat {
    Offset(es, |es|) + 8 * RestartCount(|es|) + 16
  }

  lemma {:induction false} BlockSize(es: seq<KV>)
    ensures |EncodeEntries(es)| == Offset(es, |es|)
    ensures |Restarts(es)| == RestartCount(|es|)
    ensures |BlockBytes(es)| == BlockLength(es)
  {
    EntriesSize(es);
    RestartsSize(Restarts(es));
    RestartsClosedForm(es);
  }

  // ---- reading fields back ----

  function ReadU64(s: Str, at: nat): nat
    requires at + 8 <= |s|
  {
    FromLE(s[at..at + 8])
  }

  /** The field at this offset holds n. */
  predicate FieldAt(s: Str, at: nat, n: nat) {
    at + 8 <= |s| && ReadU64(s, at) == n
  }

  lemma {:induction false} ReadBack(a: Str, n: nat, b: Str)
    requires n < TWO_64
    ensures FieldAt(a + U64(n) + b, |a|, n)
  {
    Middle(a, U64(n), b);
    U64RoundTrip(n);
  }

  lemma {:induction false} EntriesSplit(es: seq<KV>, i: nat) returns (rest: Str)
    requires i < |es|
    ensures EncodeEntries(es) == EncodeEntries(es[..i]) + EncodeEntry(es[i]) + rest
  {
    var n := |es| - 1;
    if i == n {
      rest := [];
    } else {
      var r := EntriesSplit(es[..n], i);
      assert es[..n][..i] == es[..i];
      rest := r + EncodeEntry(es[n]);
      AssocEnd(EncodeEntries(es[..i]), EncodeEntry(es[i]), r, EncodeEntry(es[n]));
    }
  }

  /** The entry e, field by field, at offset at of s. */
  ghost predicate EntryAt(s: Str, at: nat, e: KV) {
    && at + 16 + |e.key| + |e.value| <= |s|
    && FieldAt(s, at, |e.key|)
    && s[at + 8..at + 8 + |e.key|] == e.key
    && FieldAt(s, at + 8 + |e.key|, |e.value|)
    && s[at + 16 + |e.key|..at + 16 + |e.key| + |e.value|] == e.value
  }

  /** Decoding at an entry's offset gives that entry, whatever follows the entry area. */
  lemma {:induction false} DecodeEntry(es: seq<KV>, i: nat, tail: Str)
    requires i < |es|
    requires Offset(es, |es|) < TWO_64
    ensures EntryAt(EncodeEntries(es) + tail, Offset(es, i), es[i])
    ensures Offset(es, i + 1) == Offset(es, i) + 16 + |es[i].key| + |es[i].value| <= Offset(es, |es|)
  {
    OffsetMonotone(es, i + 1, |es|);
    OffsetOfPrefix(es, es[..i], i);
    EntriesSize(es[..i]);
    var rest := EntriesSplit(es, i);
    var pre := EncodeEntries(es[..i]);
    FieldsOf(pre, es[i], rest + tail);
    AssocEnd(pre, EncodeEntry(es[i]), rest, tail);
  }

  lemma {:induction false} FieldsOf(pre: Str, e: KV, rest: Str)
    requires |e.key| < TWO_64 && |e.value| < TWO_64
    ensures EntryAt(pre + EncodeEntry(e) + rest, |pre|, e)
  {
    FourPieces(pre, U64(|e.key|), e.key, U64(|e.value|), e.value, rest);
    U64RoundTrip(|e.key|);
    U64RoundTrip(|e.value|);
  }

  /** The builder's counter after n entries: entries since the last restart point. */
  function Counter(n: nat): nat {
    if n == 0 then 0 else (n - 1) % RESTART_INTERVAL + 1
  }

  lemma {:induction false} CounterStep(n: nat)
    ensures Counter(n) == RESTART_INTERVAL <==> n > 0 && n % RESTART_INTERVAL == 0
    ensures Counter(n + 1) == if Counter(n) == RESTART_INTERVAL then 1 else Counter(n) + 1
  {
  }

  lemma {:induction false} EncodeOneMore(es: seq<KV>, e: KV)
    ensures EncodeEntries(es + [e]) == EncodeEntries(es) + EncodeEntry(e)
    ensures Restarts(es + [e]) ==
              if Counter(|es|) == RESTART_INTERVAL then Restarts(es) + [|EncodeEntries(es)|] else Restarts(es)
    ensures Counter(|es| + 1) == if Counter(|es|) == RESTART_INTERVAL then 1 else Counter(|es|) + 1
  {
    CounterStep(|es|);
    assert (es + [e])[..|es|] == es;
    EntriesSize(es);
    OffsetOfPrefix(es + [e], es, |es|);
  }

  // ---- the restart table ----

  /** Restart j is the offset of entry j * RESTART_INTERVAL. */
  lemma {:induction false} RestartsClosedForm(es: seq<KV>)
    ensures |Restarts(es)| == RestartCount(|es|)
    ensures forall j :: 0 <= j < |Restarts(es)| ==>
              j * RESTART_INTERVAL <= |es| && Restarts(es)[j] == Offset(es, j * RESTART_INTERVAL)
  {
    if |es| > 0 {
      var fs := es[..|es| - 1];
      RestartsClosedForm(fs);
      forall j | 0 <= j < |Restarts(fs)| ensures Offset(fs, j * RESTART_INTERVAL) == Offset(es, j * RESTART_INTERVAL) {
        OffsetOfPrefix(es, fs, j * RESTART_INTERVAL);
      }
    }
  }

  lemma {:induction false} DecodeRestart(r: seq<nat>, pre: Str, post: Str, j: nat)
    requires j < |r| && forall k :: 0 <= k < |r| ==> r[k] < TWO_64
    ensures FieldAt(pre + EncodeRestarts(r) + post, |pre| + 8 * j, r[j])
  {
    var n := |r| - 1;
    var s := pre + EncodeRestarts(r) + post;
    var front := EncodeRestarts(r[..n]);
    RestartsSize(r[..n]);
    assert pre + (front + U64(r[n])) == pre + front + U64(r[n]);
    if j == n {
      ReadBack(pre + front, r[n], post);
    } else {
      AssocEnd(pre, front, U64(r[n]), post);
      DecodeRestart(r[..n], pre, U64(r[n]) + post, j);
    }
  }

  lemma {:induction false} DecodeRestarts(r: seq<nat>, pre: Str, post: Str)
    requires forall k :: 0 <= k < |r| ==> r[k] < TWO_64
    ensures forall j :: 0 <= j < |r| ==> FieldAt(pre + EncodeRestarts(r) + post, |pre| + 8 * j, r[j])
  {
    forall j | 0 <= j < |r| ensures FieldAt(pre + EncodeRestarts(r) + post, |pre| + 8 * j, r[j]) {
      DecodeRestart(r, pre, post, j);
    }
  }

  lemma {:induction false} LastField(a: Str, n: nat)
    requires n < TWO_64
    ensures FieldAt(a + U64(n), |a|, n)
  {
    ReadBack(a, n, []);
    assert a + U64(n) + [] == a + U64(n);
  }

  lemma {:induction false} TrailerPieces(area: Str, count: Str, table: Str, last: Str)
    requires |count| == |last| == 8
    ensures var s := area + count + table + last;
            && s[|s| - 8..|s| - 8 + 8] == last
            && s[|area|..|area| + 8] == count
            && s == (area + count) + table + last == area + (count + table + last)
  {
  }

  lemma {:induction false} TrailerOf(area: Str, r: seq<nat>, at: nat)
    requires at == |area| && |r| < TWO_64 && at < TWO_64 && forall k :: 0 <= k < |r| ==> r[k] < TWO_64
    ensures var s := area + U64(|r|) + EncodeRestarts(r) + U64(at);
            && |s| == at + 8 * |r| + 16
            && FieldAt(s, |s| - 8, at) && FieldAt(s, at, |r|)
            && forall j :: 0 <= j < |r| ==> FieldAt(s, at + 8 + 8 * j, r[j])
  {
    var count, table, last := U64(|r|), EncodeRestarts(r), U64(at);
    RestartsSize(r);
    TrailerPieces(area, count, table, last);
    LastField(area + count + table, at);
    U64RoundTrip(|r|);
    DecodeRestarts(r, area + count, last);
  }

  /** The three places the Block constructor reads: the last field, the count it points at, the table. */
  lemma {:induction false} DecodeTrailer(es: seq<KV>)
    requires |BlockBytes(es)| < TWO_64
    ensures var s, r, at := BlockBytes(es), Restarts(es), Offset(es, |es|);
            && |s| == at + 8 * |r| + 16
            && FieldAt(s, |s| - 8, at) && FieldAt(s, at, |r|)
            && forall j :: 0 <= j < |r| ==> FieldAt(s, at + 8 + 8 * j, r[j])
  {
    BlockSize(es);
    RestartsBelow(es);
    TrailerOf(EncodeEntries(es), Restarts(es), Offset(es, |es|));
  }

  /** The last restart point is the offset of some entry of a non-empty block. */
  lemma {:induction false} LastRestart(es: seq<KV>) returns (i: nat)
    requires |es| > 0
    ensures i < |es| && Restarts(es)[|Restarts(es)| - 1] == Offset(es, i)
  {
    RestartsClosedForm(es);
    i := (|es| - 1) / RESTART_INTERVAL * RESTART_INTERVAL;
  }

  lemma {:induction false} RestartsBelow(es: seq<KV>)
    ensures forall j :: 0 <= j < |Restarts(es)| ==> Restarts(es)[j] <= Offset(es, |es|)
  {
    RestartsClosedForm(es);
    forall j | 0 <= j < |Restarts(es)| ensures Restarts(es)[j] <= Offset(es, |es|) {
      OffsetMonotone(es, j * RESTART_INTERVAL, |es|);
    }
  }

  lemma {:induction false} RestartsOneMore(r: seq<nat>, i: nat)
    requires i < |r|
    ensures EncodeRestarts(r[..i + 1]) == EncodeRestarts(r[..i]) + U64(r[i])
  {
    assert r[..i + 1][..i] == r[..i];
  }

  lemma {:induction false} DecodeBlockEntry(es: seq<KV>, i: nat)
    requires i < |es| && |BlockBytes(es)| < TWO_64
    ensures EntryAt(BlockBytes(es), Offset(es, i), es[i])
    ensures Offset(es, i + 1) == Offset(es, i) + 16 + |es[i].key| + |es[i].value| <= Offset(es, |es|)
  {
    BlockSize(es);
    var area, count, table, last := EncodeEntries(es), U64(|Restarts(es)|), EncodeRestarts(Restarts(es)), U64(Offset(es, |es|));
    DecodeEntry(es, i, count + table + last);
    TrailerPieces(area, count, table, last);
  }
}
