// Cutting a sequence into runs, closing a run as soon as it is full.
module Splitting {

  /** Closed runs and the elements still in the open one. */
  datatype Split<T> = Split(blocks: seq<seq<T>>, pending: seq<T>)

  function Step<T>(s: Split<T>, e: T, full: seq<T> -> bool): Split<T> {
    var p := s.pending + [e];
    if full(p) then Split(s.blocks + [p], []) else Split(s.blocks, p)
  }

  function Feed<T>(es: seq<T>, full: seq<T> -> bool): Split<T> {
    if es == [] then Split([], []) else Step(Feed(es[..|es| - 1], full), es[|es| - 1], full)
  }

  function Cut<T>(es: seq<T>, full: seq<T> -> bool): seq<seq<T>> {
    var s := Feed(es, full);
    if |s.pending| == 0 then s.blocks else s.blocks + [s.pending]
  }

  function Flatten<T>(blocks: seq<seq<T>>): seq<T> {
    if blocks == [] then [] else Flatten(blocks[..|blocks| - 1]) + blocks[|blocks| - 1]
  }

  /** Non-empty, and not full before its final element. */
  ghost predicate Tight<T>(block: seq<T>, full: seq<T> -> bool) {
    |block| > 0 && !full(block[..|block| - 1])
  }

  /** Every run but the last is full, and none was before its final element. */
  ghost predicate Greedy<T>(blocks: seq<seq<T>>, full: seq<T> -> bool) {
    && (forall i :: 0 <= i < |blocks| ==> Tight(blocks[i], full))
    && (forall i :: 0 <= i < |blocks| - 1 ==> full(blocks[i]))
  }

  /** Adding elements never makes a full run not full. */
  ghost predicate Monotone<T(!new)>(full: seq<T> -> bool) {
    forall s, n {:trigger full(s[..n])} :: 0 <= n <= |s| && full(s[..n]) ==> full(s)
  }

  lemma {:induction false} FlattenSnoc<T>(blocks: seq<seq<T>>, p: seq<T>)
    ensures Flatten(blocks + [p]) == Flatten(blocks) + p
  {
  }

  lemma {:induction false} FeedLosesNothing<T>(es: seq<T>, full: seq<T> -> bool)
    ensures Flatten(Feed(es, full).blocks) + Feed(es, full).pending == es
  {
    if es != [] {
      var n := |es| - 1;
      FeedLosesNothing(es[..n], full);
      var s := Feed(es[..n], full);
      FlattenSnoc(s.blocks, s.pending + [es[n]]);
      assert Flatten(s.blocks) + (s.pending + [es[n]]) == es[..n] + [es[n]] == es;
    }
  }

  /** Closed runs are full and tight; the open one is not full. */
  ghost predicate Proper<T>(s: Split<T>, full: seq<T> -> bool) {
    && (forall i :: 0 <= i < |s.blocks| ==> Tight(s.blocks[i], full) && full(s.blocks[i]))
    && !full(s.pending)
    && (|s.pending| > 0 ==> Tight(s.pending, full))
  }

  lemma {:induction false} StepIsProper<T>(s: Split<T>, e: T, full: seq<T> -> bool)
    requires Proper(s, full) && !full([])
    ensures Proper(Step(s, e, full), full)
  {
  }

  lemma {:induction false} FeedIsProper<T>(es: seq<T>, full: seq<T> -> bool)
    requires !full([])
    ensures Proper(Feed(es, full), full)
  {
    if es != [] {
      FeedIsProper(es[..|es| - 1], full);
      StepIsProper(Feed(es[..|es| - 1], full), es[|es| - 1], full);
    }
  }

  /** The cut loses nothing, and it is greedy. */
  lemma {:induction false} CutIsGreedy<T>(es: seq<T>, full: seq<T> -> bool)
    requires !full([])
    ensures Flatten(Cut(es, full)) == es
    ensures Greedy(Cut(es, full), full)
  {
    FeedLosesNothing(es, full);
    FeedIsProper(es, full);
    FlattenSnoc(Feed(es, full).blocks, Feed(es, full).pending);
  }

  lemma {:induction false} FlattenFront<T>(blocks: seq<seq<T>>)
    requires blocks != []
    ensures Flatten(blocks) == blocks[0] + Flatten(blocks[1..])
  {
    var n := |blocks| - 1;
    if n > 0 {
      FlattenFront(blocks[..n]);
      assert blocks[..n][1..] == blocks[1..][..n - 1];
    } else {
      assert blocks[1..] == [] && blocks[..0] == [];
    }
  }

  lemma {:induction false} FirstRunNotShorter<T(!new)>(a: seq<seq<T>>, b: seq<seq<T>>, full: seq<T> -> bool)
    requires Monotone(full)
    requires |a| > 0 && |b| > 0 && Greedy(a, full) && Greedy(b, full) && Flatten(a) == Flatten(b)
    ensures |a[0]| >= |b[0]|
  {
    FlattenFront(a);
    FlattenFront(b);
    if |a| == 1 {
      assert a[1..] == [];
    } else {
      var front := b[0][..|b[0]| - 1];
      var n := if |a[0]| < |b[0]| then |a[0]| else 0;
      assert full(front[..n]) ==> full(front);
      assert Flatten(a)[..n] == a[0][..n] && Flatten(b)[..n] == front[..n];
      assert a[0][..|a[0]|] == a[0];
    }
  }

  /** Greediness determines the cut: there is only one greedy way to cut a sequence. */
  lemma {:induction false} GreedyIsUnique<T(!new)>(a: seq<seq<T>>, b: seq<seq<T>>, full: seq<T> -> bool)
    requires Monotone(full)
    requires Greedy(a, full) && Greedy(b, full) && Flatten(a) == Flatten(b)
    ensures a == b
    decreases |a|
  {
    if |a| == 0 {
      if |b| > 0 { FlattenFront(b); }
    } else {
      FlattenFront(a);
      assert Tight(a[0], full);
      FlattenFront(b);
      FirstRunNotShorter(a, b, full);
      FirstRunNotShorter(b, a, full);
      assert a[0] == Flatten(a)[..|a[0]|] == b[0];
      assert Flatten(a[1..]) == Flatten(a)[|a[0]|..] == Flatten(b[1..]);
      GreedyTail(a, full);
      GreedyTail(b, full);
      GreedyIsUnique(a[1..], b[1..], full);
      assert a == [a[0]] + a[1..] && b == [b[0]] + b[1..];
    }
  }

  lemma {:induction false} GreedyTail<T>(a: seq<seq<T>>, full: seq<T> -> bool)
    requires |a| > 0 && Greedy(a, full)
    ensures Greedy(a[1..], full)
  {
  }
}
