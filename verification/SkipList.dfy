// src/storage/SkipList.cpp: the memtable.
module SkipLists {
  import opened Options
  import opened Bytes
  import opened Entries
  import opened SkipListLinks

  const MAX_HEIGHT: nat := 12

  class Node {
    const key: Str
    var value: Str
    var nexts: seq<Node?>
    var height: nat

    constructor (key: Str, value: Str, height: nat)
      ensures this.key == key && this.value == value && this.height == height
      ensures |nexts| == height
    {
      this.key, this.value, this.height := key, value, height;
      nexts := seq(height, _ => null);
    }
  }

  class SkipList {
    var head: Node
    var tail: Node
    var numEntries: nat
    var numBytes: nat

    ghost var Repr: set<object>
    ghost var contents: seq<KV>          // what the list holds, in key order
    ghost var ns: seq<Node>              // head, interior nodes, tail
    ghost var hs: seq<nat>               // their heights
    ghost var links: seq<seq<Node?>>     // their forward pointers

    /** The chain of nodes is where the ghost fields say it is. */
    ghost predicate Shape()
      reads this, Repr
    {
      && this in Repr
      && 2 <= |ns| == |hs| == |links|
      && head == ns[0] && tail == ns[|ns| - 1]
      && (forall a :: 0 <= a < |ns| ==>
            ns[a] in Repr && ns[a].height == hs[a] == |links[a]| && ns[a].nexts == links[a])
      && (forall a, b :: 0 <= a < b < |ns| ==> ns[a] != ns[b])
    }

    /** The interior nodes carry these entries. */
    static ghost predicate Holds(ns: seq<Node>, es: seq<KV>)
      reads ns
    {
      |es| == |ns| - 2 && forall a :: 0 <= a < |es| ==> es[a] == KV(ns[a + 1].key, ns[a + 1].value)
    }

    static lemma {:induction false} HoldsInsert(ns: seq<Node>, es: seq<KV>, p: nat, node: Node)
      requires Holds(ns, es) && p <= |es|
      ensures Holds(InsertAt(ns, p + 1, node), InsertAt(es, p, KV(node.key, node.value)))
    {
    }

    /** Whether or not the type allows null. */
    static lemma {:induction false} SameNodes(ns: seq<Node>, q: nat, node: Node)
      requires q <= |ns|
      ensures InsertAt<Node?>(ns, q, node) == InsertAt<Node>(ns, q, node)
    {
    }

    static lemma {:induction false} SameNodesLeft(ns: seq<Node>, q: nat)
      requires q < |ns|
      ensures RemoveAt<Node?>(ns, q) == RemoveAt<Node>(ns, q)
    {
    }

    static lemma {:induction false} HoldsRemove(ns: seq<Node>, es: seq<KV>, p: nat)
      requires Holds(ns, es) && p < |es|
      ensures Holds(RemoveAt(ns, p + 1), RemoveAt(es, p))
    {
    }

    /** Every level links the right nodes. */
    ghost predicate Tower()
      reads this, Repr
    {
      && Shape()
      && Heights(hs, MAX_HEIGHT)
      && Chain<Node?>(ns, hs, links)
    }

    ghost predicate Valid()
      reads this, Repr
      ensures Valid() ==> this in Repr
    {
      && Tower()
      && Holds(ns, contents)
      && Sorted(contents)
      && numEntries == |contents|
      && numBytes == Space(contents)
    }

    /** The bottom level read front to back is the contents: all that a forward scan relies on. */
    ghost predicate Walkable()
      reads this, ns
    {
      && |ns| == |contents| + 2
      && head == ns[0] && tail == ns[|ns| - 1]
      && (forall a :: 0 <= a < |ns| - 1 ==> ns[a] != tail)
      && (forall a {:trigger ns[a].nexts} :: 0 <= a < |ns| - 1 ==> |ns[a].nexts| > 0 && ns[a].nexts[0] == ns[a + 1])
      && (forall a :: 0 <= a < |contents| ==> contents[a] == KV(ns[a + 1].key, ns[a + 1].value))
    }

    lemma {:induction false} IsWalkable()
      requires Valid()
      ensures Walkable()
    {
      forall a | 0 <= a < |ns| - 1 ensures ns[a] != tail && |ns[a].nexts| > 0 && ns[a].nexts[0] == ns[a + 1] {
        assert IsNext(hs, a, 0, a + 1);
        assert links[a][0] == ns[a + 1];
      }
    }

    constructor ()
      ensures Valid() && fresh(Repr)
      ensures contents == []
    {
      head := new Node([], [], 1);
      tail := new Node([], [], 1);
      numEntries, numBytes := 0, 0;
      new;
      Link();
    }

    /** init(): an empty list between fresh head and tail nodes. */
    method Init()
      modifies this
      ensures Valid() && fresh(Repr - {this})
      ensures contents == []
    {
      head := new Node([], [], 1);
      tail := new Node([], [], 1);
      numEntries, numBytes := 0, 0;
      Link();
    }

    method Link()
      requires head != tail && head.height == tail.height == 1
      requires numEntries == numBytes == 0
      modifies this`Repr, this`contents, this`ns, this`hs, this`links, head, tail
      ensures Valid() && Repr == {this, head, tail}
      ensures contents == []
    {
      head.nexts := [tail];
      tail.nexts := [null];
      Repr := {this, head, tail};
      contents, ns, hs := [], [head, tail], [1, 1];
      links := [[tail], [null]];
    }

    method Clear()
      requires Valid()
      modifies this
      ensures Valid() && fresh(Repr - old(Repr))
      ensures contents == []
    {
      Init();
    }

    function Size(): nat
      reads this
    {
      numEntries
    }

    function Bytes(): nat
      reads this
    {
      numBytes
    }

    /** What following the level-i pointer of position a leads to. */
    lemma {:induction false} Follow(a: nat, i: nat) returns (b: nat)
      requires Valid()
      requires a < |ns| - 1 && i < hs[a]
      ensures IsNext(hs, a, i, b)
      ensures i < |ns[a].nexts| && ns[a].nexts[i] == ns[b]
    {
      b := NextExists(hs, a, i);
    }

    /** The nodes higher than i run from the head to the tail. */
    lemma {:induction false} LevelEnds(i: nat)
      requires Valid() && i < hs[0]
      ensures var t := Tall(hs, i, 0); |t| > 0 && t[0] == 0 && t[|t| - 1] == |ns| - 1
      ensures forall a: nat :: a in Tall(hs, i, 0) <==> a < |hs| && hs[a] > i
    {
      TallIsChain(hs, i, 0);
      TallIsAll(hs, i, 0);
    }

    /** The level-i pointer of each of them leads to the next one: the level-i chain is exactly these nodes, in key order. */
    lemma {:induction false} LevelStep(i: nat, j: nat)
      requires Valid() && i < hs[0] && j + 1 < |Tall(hs, i, 0)|
      ensures var a, b := Tall(hs, i, 0)[j], Tall(hs, i, 0)[j + 1];
              a < b < |ns| && i < |ns[a].nexts| && ns[a].nexts[i] == ns[b]
    {
      TallStep(hs, i, j);
      var a, b := Tall(hs, i, 0)[j], Tall(hs, i, 0)[j + 1];
      assert links[a][i] == ns[b];
    }

    /** Whether position b is still below key. */
    lemma {:induction false} BelowKey(b: nat, key: Str)
      requires Valid()
      requires 0 < b < |ns|
      ensures b <= FirstGE(contents, key) <==> ns[b] != tail && Less(ns[b].key, key)
    {
      if b < |ns| - 1 {
        assert contents[b - 1] == KV(ns[b].key, ns[b].value);
        AboveFirstGE(contents, key, b - 1);
      }
    }

    lemma {:induction false} KeyAt(b: nat, key: Str)
      requires Valid()
      requires 0 < b < |ns|
      ensures ns[b] != tail && ns[b].key == key <==> b - 1 < |contents| && contents[b - 1].key == key
      ensures ns[b] != tail ==> b - 1 < |contents| && contents[b - 1] == KV(ns[b].key, ns[b].value)
    {
    }

    /** What the search sees at level i from position a, which is before key: the next position there is still below
        key, or a precedes the place of key at this level. */
    lemma {:induction false} Look(a: nat, i: nat, key: Str) returns (b: nat)
      requires Valid() && i < hs[0] && a <= FirstGE(contents, key) && i < hs[a]
      ensures a < b < |ns| && i < |ns[a].nexts| && ns[a].nexts[i] == ns[b]
      ensures ns[b] != tail && Less(ns[b].key, key) <==> b <= FirstGE(contents, key)
      ensures b <= FirstGE(contents, key) ==> i < hs[b]
      ensures b > FirstGE(contents, key) ==>
                a == PredOf(hs, i, FirstGE(contents, key) + 1) && (i == 0 ==> b == a + 1)
    {
      b := Follow(a, i);
      BelowKey(b, key);
      if b > FirstGE(contents, key) { StopsAt(hs, a, i, b, FirstGE(contents, key) + 1); }
    }

    /** The first node at or after key, and its predecessor at every level. */
    method FindGreaterOrEqual(key: Str) returns (x: Node, prevs: seq<Node>, ghost p: nat)
      requires Valid()
      ensures p == FirstGE(contents, key) && x == ns[p + 1]
      ensures |prevs| == MAX_HEIGHT
      ensures forall i :: 0 <= i < hs[0] ==> prevs[i] == ns[PredOf(hs, i, p + 1)]
    {
      hide PredOf;
      p := FirstGE(contents, key);
      x := head;
      var height := head.height - 1;
      prevs := seq(MAX_HEIGHT, _ => x);
      ghost var a := 0;
      while true
        invariant 0 <= height < hs[0]
        invariant 0 <= a <= p && x == ns[a] && height < hs[a]
        invariant |prevs| == MAX_HEIGHT
        invariant forall i :: height < i < hs[0] ==> prevs[i] == ns[PredOf(hs, i, p + 1)]
        decreases height, |ns| - a
      {
        ghost var b := Look(a, height, key);
        var next := x.nexts[height];
        if next != tail && Less(next.key, key) {
          x, a := next, b;
        } else {
          prevs := prevs[height := x];
          if height == 0 {
            x := next;
            return;
          }
          height := height - 1;
        }
      }
    }

    method Get(key: Str) returns (r: Option<Str>)
      requires Valid()
      ensures r == Find(contents, key)
    {
      var x, prevs, p := FindGreaterOrEqual(key);
      SortedFind(contents, key);
      r := if x != tail && x.key == key then Some(x.value) else None;
    }

    method Contains(key: Str) returns (b: bool)
      requires Valid()
      ensures b <==> key in ToMap(contents)
    {
      var x, prevs, p := FindGreaterOrEqual(key);
      SortedFind(contents, key);
      FindIsToMap(contents, key);
      b := x != tail && x.key == key;
    }

    /** enlargeHeight: new, taller pointer arrays for head and tail. */
    method EnlargeHeight(height: nat)
      requires Tower()
      requires hs[0] < height <= MAX_HEIGHT
      modifies this`hs, this`links, head`height, head`nexts, tail`height, tail`nexts
      ensures Tower()
      ensures hs == old(hs)[0 := height][|ns| - 1 := height]
    {
      var headNexts := EnlargedHeadNexts(height);
      var tailNexts := seq(height, _ => null);
      RaiseLinked<Node?>(ns, hs, links, height, headNexts, tailNexts);
      head.height, tail.height := height, height;
      head.nexts := headNexts;
      tail.nexts := tailNexts;
      hs := hs[0 := height][|ns| - 1 := height];
      links := links[0 := headNexts][|ns| - 1 := tailNexts];
    }

    /** The old head pointers, then the tail on every new level. */
    method EnlargedHeadNexts(height: nat) returns (nexts: seq<Node?>)
      requires Tower() && hs[0] < height
      ensures |nexts| == height
      ensures forall j :: 0 <= j < hs[0] ==> nexts[j] == links[0][j]
      ensures forall j :: hs[0] <= j < height ==> nexts[j] == ns[|ns| - 1]
    {
      var oldNexts := head.nexts;
      nexts := seq(height, _ => null);
      var i := 0;
      while i < head.height
        invariant 0 <= i <= head.height == |oldNexts|
        invariant |nexts| == height
        invariant forall j :: 0 <= j < i ==> nexts[j] == oldNexts[j]
      {
        nexts := nexts[i := oldNexts[i]];
        i := i + 1;
      }
      while i < height
        invariant |oldNexts| <= i <= height
        invariant |nexts| == height
        invariant forall j :: 0 <= j < |oldNexts| ==> nexts[j] == oldNexts[j]
        invariant forall j :: |oldNexts| <= j < i ==> nexts[j] == tail
      {
        nexts := nexts[i := tail];
        i := i + 1;
      }
    }

    /** One round of put's loop: the node takes over its predecessor's pointer at level i. */
    method PointToOne(node: Node, prev: Node, i: nat, ghost a: nat)
      requires Shape() && node !in Repr
      requires i < |node.nexts|
      requires a < |ns| && i < hs[a] && prev == ns[a]
      modifies node`nexts, prev`nexts, this`links
      ensures Shape()
      ensures links == RedirectOne<Node?>(old(links), a, i, node)
      ensures node.nexts == old(node.nexts)[i := old(links)[a][i]]
    {
      node.nexts := node.nexts[i := prev.nexts[i]];
      prev.nexts := prev.nexts[i := node];
      links := links[a := links[a][i := node]];
    }

    /** put's loop: thread the node in at every level it has. */
    method PointTo(node: Node, prevs: seq<Node>, ghost at: seq<nat>,
                   ghost own: seq<Node?>, ghost targets: seq<Node?>)
      requires Shape() && node !in Repr
      requires |node.nexts| == |at| == |own| == |targets| <= |prevs|
      requires forall i :: 0 <= i < |at| ==> at[i] < |ns| && i < hs[at[i]] && prevs[i] == ns[at[i]]
      requires forall i :: 0 <= i < |at| ==> own[i] == links[at[i]][i] && targets[i] == node
      modifies node`nexts, this`links, ns`nexts
      ensures Shape()
      ensures node.nexts == own
      ensures links == Redirect(old(links), at, targets, |at|)
    {
      ghost var links0, base := links, node.nexts;
      var i := 0;
      assert Redirect(links0, at, targets, 0) == links0 && Fill(base, own, 0) == base;
      hide Redirect, RedirectOne, Fill;
      while i < |node.nexts|
        invariant 0 <= i <= |at| == |node.nexts|
        invariant Shape()
        invariant node.nexts == Fill(base, own, i)
        invariant links == Redirect(links0, at, targets, i)
      {
        Redirected(links0, at, targets, i, at[i], i);
        RedirectNext(links0, at, targets, i);
        FillNext(base, own, i);
        PointToOne(node, prevs[i], i, at[i]);
        i := i + 1;
      }
      Filled(base, own, |own|);
    }

    /** One round of del's loop: the predecessor at level i skips the node. */
    method BypassOne(node: Node, prev: Node, i: nat, ghost a: nat)
      requires Shape()
      requires a < |ns| && i < hs[a] && prev == ns[a]
      requires i < |node.nexts|
      modifies prev`nexts, this`links
      ensures Shape()
      ensures links == RedirectOne(old(links), a, i, old(node.nexts)[i])
    {
      links := links[a := links[a][i := node.nexts[i]]];
      prev.nexts := prev.nexts[i := node.nexts[i]];
    }

    /** del's loop: take the node at position q out of every level it has. */
    method Bypass(node: Node, prevs: seq<Node>, ghost at: seq<nat>, ghost q: nat)
      requires Shape() && q < |ns| && node == ns[q]
      requires node.height == |at| <= |prevs|
      requires forall i :: 0 <= i < |at| ==> at[i] < q && i < hs[at[i]] && prevs[i] == ns[at[i]]
      modifies this`links, ns`nexts
      ensures Shape()
      ensures links == Redirect(old(links), at, old(links)[q], |at|)
    {
      ghost var links0 := links;
      var height := node.height;
      var i := 0;
      assert Redirect(links0, at, links0[q], 0) == links0;
      hide Redirect, RedirectOne;
      while i < height
        invariant 0 <= i <= |at|
        invariant Shape()
        invariant node.nexts == links0[q]
        invariant links == Redirect(links0, at, links0[q], i)
      {
        RedirectNext(links0, at, links0[q], i);
        assert node != prevs[i];
        BypassOne(node, prevs[i], i, at[i]);
        i := i + 1;
      }
    }

    method UpdateValue(x: Node, value: Str, ghost p: nat)
      requires Valid()
      requires p < |contents| && x == ns[p + 1]
      modifies this`numBytes, this`contents, x`value
      ensures Valid()
      ensures contents == old(contents)[p := KV(x.key, value)]
    {
      assert contents[p] == KV(x.key, x.value);
      SpaceUpdate(contents, p, value);
      numBytes := numBytes - |x.value| + |value|;
      x.value := value;
      contents := contents[p := KV(x.key, value)];
    }

    /** put's branch for a node taller than the list: the head precedes it on the new levels. */
    method Raise(height: nat, prevs: seq<Node>, ghost q: nat) returns (prevs': seq<Node>)
      requires Tower()
      requires hs[0] < height <= MAX_HEIGHT == |prevs|
      requires 0 < q < |ns|
      requires forall i :: 0 <= i < hs[0] ==> prevs[i] == ns[PredOf(hs, i, q)]
      modifies this`hs, this`links, head`height, head`nexts, tail`height, tail`nexts
      ensures Tower() && hs[0] == height
      ensures |prevs'| == MAX_HEIGHT
      ensures forall i :: 0 <= i < hs[0] ==> prevs'[i] == ns[PredOf(hs, i, q)]
    {
      prevs' := prevs;
      ghost var hs0 := hs;
      var i := head.height;
      while i < height
        invariant hs[0] <= i <= height && |prevs'| == MAX_HEIGHT
        invariant forall j :: 0 <= j < hs[0] ==> prevs'[j] == prevs[j]
        invariant forall j :: hs[0] <= j < i ==> prevs'[j] == head
      {
        prevs' := prevs'[i := head];
        i := i + 1;
      }
      EnlargeHeight(height);
      forall j | 0 <= j < hs[0] ensures prevs'[j] == ns[PredOf(hs, j, q)] {
        PredOfRaised(hs0, height, j, q);
      }
    }

    /** Record a node as the one at position q of the chain. */
    ghost method Adopt(node: Node, q: nat)
      requires Shape() && node !in Repr && |node.nexts| == node.height
      requires 0 < q < |ns|
      modifies this`ns, this`hs, this`links, this`Repr
      ensures Shape() && Repr == old(Repr) + {node}
      ensures ns == InsertAt(old(ns), q, node) && hs == InsertAt(old(hs), q, node.height)
      ensures links == InsertAt(old(links), q, node.nexts)
    {
      ns, hs, links := InsertAt(ns, q, node), InsertAt(hs, q, node.height), InsertAt(links, q, node.nexts);
      Repr := Repr + {node};
    }

    /** put's last step: link the node in before position q. */
    method Splice(node: Node, prevs: seq<Node>, ghost q: nat)
      requires Tower() && node !in Repr
      requires 1 <= node.height == |node.nexts| <= hs[0] <= |prevs|
      requires 0 < q < |ns|
      requires forall i :: 0 <= i < hs[0] ==> prevs[i] == ns[PredOf(hs, i, q)]
      modifies node`nexts, ns`nexts, this`ns, this`hs, this`links, this`Repr
      ensures Tower() && Repr == old(Repr) + {node}
      ensures ns == InsertAt(old(ns), q, node)
    {
      ghost var at := PredsOf(hs, node.height, q);
      ghost var own, targets := Pick(links, at), Repeat<Node?>(node, node.height);
      ghost var ns', hs' := InsertAt(ns, q, node), InsertAt(hs, q, node.height);
      ghost var links' := InsertAt(Redirect(links, at, targets, node.height), q, own);
      InsertKeepsChain<Node?>(ns, hs, links, q, node, node.height);
      SameNodes(ns, q, node);
      HeightsChange(hs, MAX_HEIGHT, q, node.height);
      assert Chain<Node?>(ns', hs', links') && Heights(hs', MAX_HEIGHT);
      hide Chain, Heights, Redirect, InsertAt;
      PointTo(node, prevs, at, own, targets);
      Adopt(node, q);
      assert ns == ns' && hs == hs' && links == links';
    }

    /** And with it the node's entry. */
    method ThreadNode(node: Node, prevs: seq<Node>, ghost q: nat)
      requires Tower() && Holds(ns, contents) && node !in Repr
      requires 1 <= node.height == |node.nexts| <= hs[0] <= |prevs|
      requires 0 < q < |ns|
      requires forall i :: 0 <= i < hs[0] ==> prevs[i] == ns[PredOf(hs, i, q)]
      modifies node`nexts, ns`nexts, this`ns, this`hs, this`links, this`Repr
      ensures Tower() && Repr == old(Repr) + {node}
      ensures Holds(ns, InsertAt(contents, q - 1, KV(node.key, node.value)))
    {
      ghost var ns0 := ns;
      Splice(node, prevs, q);
      HoldsInsert(ns0, contents, q - 1, node);
    }

    /** put's last loop: the new node becomes entry p. */
    method LinkNode(node: Node, prevs: seq<Node>, ghost p: nat)
      requires Valid() && node !in Repr
      requires 1 <= node.height == |node.nexts| <= hs[0] <= |prevs|
      requires p <= |contents| && Sorted(InsertAt(contents, p, KV(node.key, node.value)))
      requires forall i :: 0 <= i < hs[0] ==> prevs[i] == ns[PredOf(hs, i, p + 1)]
      modifies this, node`nexts, ns`nexts
      ensures Valid() && Repr == old(Repr) + {node}
      ensures contents == InsertAt(old(contents), p, KV(node.key, node.value))
    {
      ghost var es := InsertAt(contents, p, KV(node.key, node.value));
      SpaceInsertAt(contents, p, KV(node.key, node.value));
      ThreadNode(node, prevs, p + 1);
      CountEntry(es, |node.key| + |node.value|);
    }

    /** The rest of put: one entry more, of so many bytes. */
    method CountEntry(ghost es: seq<KV>, bytes: nat)
      requires Tower() && Holds(ns, es) && Sorted(es)
      requires numEntries + 1 == |es| && numBytes + bytes == Space(es)
      modifies this`contents, this`numEntries, this`numBytes
      ensures Valid() && contents == es
    {
      contents := es;
      numEntries := numEntries + 1;
      numBytes := numBytes + bytes;
    }

    method InsertNode(key: Str, value: Str, height: nat, prevs: seq<Node>, ghost p: nat)
      requires Valid()
      requires 1 <= height <= hs[0] <= |prevs|
      requires p <= |contents| && Sorted(InsertAt(contents, p, KV(key, value)))
      requires forall i :: 0 <= i < hs[0] ==> prevs[i] == ns[PredOf(hs, i, p + 1)]
      modifies this, ns`nexts
      ensures Valid() && fresh(Repr - old(Repr))
      ensures contents == InsertAt(old(contents), p, KV(key, value))
    {
      var node := new Node(key, value, height);
      LinkNode(node, prevs, p);
    }

    /** put for an absent key: a node of the height the coin flips gave, below the cap. */
    method PutNew(key: Str, value: Str, heads: nat, prevs: seq<Node>, ghost p: nat)
      requires Valid() && |prevs| == MAX_HEIGHT
      requires p <= |contents| && Sorted(InsertAt(contents, p, KV(key, value)))
      requires forall i :: 0 <= i < hs[0] ==> prevs[i] == ns[PredOf(hs, i, p + 1)]
      modifies this, ns
      ensures Valid() && fresh(Repr - old(Repr))
      ensures contents == InsertAt(old(contents), p, KV(key, value))
    {
      var preds := prevs;
      var height := if heads + 1 > MAX_HEIGHT then MAX_HEIGHT else heads + 1;
      if height > head.height {
        preds := Raise(height, preds, p + 1);
      }
      InsertNode(key, value, height, preds, p);
    }

    /** put: update the value of a present key, or link in a new node. */
    method Put(key: Str, value: Str, heads: nat)
      requires Valid()
      modifies Repr
      ensures Valid() && fresh(Repr - old(Repr))
      ensures contents == Insert(old(contents), key, value)
    {
      var x, prevs, p := FindGreaterOrEqual(key);
      KeyAt(p + 1, key);
      if x != tail && x.key == key {
        UpdateValue(x, value, p);
      } else {
        InsertSorted(contents, key, value);
        PutNew(key, value, heads, prevs, p);
      }
    }

    /** Forget the node at position q of the chain. */
    ghost method Disown(q: nat)
      requires Shape() && 0 < q < |ns| - 1
      modifies this`ns, this`hs, this`links
      ensures Shape()
      ensures ns == RemoveAt(old(ns), q) && hs == RemoveAt(old(hs), q) && links == RemoveAt(old(links), q)
    {
      ns, hs, links := RemoveAt(ns, q), RemoveAt(hs, q), RemoveAt(links, q);
    }

    /** del's pointer surgery: unlink the node at position q. */
    method Unsplice(node: Node, prevs: seq<Node>, ghost q: nat)
      requires Tower()
      requires 0 < q < |ns| - 1 && node == ns[q] && hs[0] <= |prevs|
      requires forall i :: 0 <= i < hs[0] ==> prevs[i] == ns[PredOf(hs, i, q)]
      modifies ns`nexts, this`ns, this`hs, this`links
      ensures Tower() && ns == RemoveAt(old(ns), q)
    {
      ghost var at := PredsOf(hs, hs[q], q);
      ghost var ns', hs' := RemoveAt(ns, q), RemoveAt(hs, q);
      ghost var links' := RemoveAt(Redirect(links, at, links[q], hs[q]), q);
      RemoveKeepsChain<Node?>(ns, hs, links, q);
      SameNodesLeft(ns, q);
      HeightsChange(hs, MAX_HEIGHT, q, 1);
      assert Chain<Node?>(ns', hs', links') && Heights(hs', MAX_HEIGHT);
      hide Chain, Heights, Redirect, RemoveAt;
      Bypass(node, prevs, at, q);
      Disown(q);
      assert ns == ns' && hs == hs' && links == links';
    }

    /** And with it the node's entry. */
    method UnthreadNode(node: Node, prevs: seq<Node>, ghost q: nat)
      requires Tower() && Holds(ns, contents)
      requires 0 < q < |ns| - 1 && node == ns[q] && hs[0] <= |prevs|
      requires forall i :: 0 <= i < hs[0] ==> prevs[i] == ns[PredOf(hs, i, q)]
      modifies ns`nexts, this`ns, this`hs, this`links
      ensures Tower()
      ensures Holds(ns, RemoveAt(contents, q - 1))
    {
      ghost var ns0 := ns;
      Unsplice(node, prevs, q);
      HoldsRemove(ns0, contents, q - 1);
    }

    /** The rest of del: take entry p out. */
    method DelNode(node: Node, prevs: seq<Node>, ghost p: nat)
      requires Valid()
      requires p < |contents| && node == ns[p + 1] && hs[0] <= |prevs|
      requires Sorted(RemoveAt(contents, p))
      requires forall i :: 0 <= i < hs[0] ==> prevs[i] == ns[PredOf(hs, i, p + 1)]
      modifies this, ns`nexts
      ensures Valid() && Repr == old(Repr)
      ensures contents == RemoveAt(old(contents), p)
    {
      ghost var es := RemoveAt(contents, p);
      assert contents[p] == KV(node.key, node.value);
      SpaceRemoveAt(contents, p);
      UnthreadNode(node, prevs, p + 1);
      DropEntry(es, |node.key| + |node.value|);
    }

    /** The rest of del: one entry less, of so many bytes. */
    method DropEntry(ghost es: seq<KV>, bytes: nat)
      requires Tower() && Holds(ns, es) && Sorted(es)
      requires numEntries == |es| + 1 && numBytes == Space(es) + bytes
      modifies this`contents, this`numEntries, this`numBytes
      ensures Valid() && contents == es
    {
      contents := es;
      numEntries := numEntries - 1;
      numBytes := numBytes - bytes;
    }

    method Del(key: Str) returns (deleted: bool)
      requires Valid()
      modifies Repr
      ensures Valid() && fresh(Repr - old(Repr))
      ensures contents == Remove(old(contents), key)
      ensures deleted <==> key in ToMap(old(contents))
    {
      var node, prevs, p := FindGreaterOrEqual(key);
      KeyAt(p + 1, key);
      SortedFind(contents, key);
      FindIsToMap(contents, key);
      if node == tail || node.key != key {
        return false;
      }
      RemoveSorted(contents, key);
      DelNode(node, prevs, p);
      return true;
    }

    /** The last node below key, or the head. */
    method FindLessThan(key: Str) returns (node: Node)
      requires Valid()
      ensures node == ns[FirstGE(contents, key)]
    {
      node := head;
      var level := head.height - 1;
      ghost var a := 0;
      while true
        invariant 0 <= level < hs[0]
        invariant 0 <= a <= FirstGE(contents, key) && node == ns[a] && level < hs[a]
        decreases level, |ns| - a
      {
        ghost var b := Look(a, level, key);
        var next := node.nexts[level];
        if next != tail && Less(next.key, key) {
          node, a := next, b;
        } else if level == 0 {
          return;
        } else {
          level := level - 1;
        }
      }
    }

    /** The last node, or the head. */
    method FindLast() returns (node: Node)
      requires Valid()
      ensures node == ns[|contents|]
    {
      node := head;
      var level := head.height - 1;
      ghost var a := 0;
      while true
        invariant 0 <= level < hs[0]
        invariant 0 <= a < |ns| - 1 && node == ns[a] && level < hs[a]
        decreases level, |ns| - a
      {
        ghost var b := Follow(a, level);
        var next := node.nexts[level];
        if next != tail {
          node, a := next, b;
        } else if level == 0 {
          StopsAt(hs, a, 0, b, b);
          return;
        } else {
          level := level - 1;
        }
      }
    }
  }

  lemma {:induction false} AboveFirstGE(es: seq<KV>, key: Str, q: nat)
    requires Sorted(es) && q < |es|
    ensures q < FirstGE(es, key) <==> Less(es[q].key, key)
  {
    var p := FirstGE(es, key);
    if p < q && Less(es[q].key, key) { LessTransitive(es[p].key, es[q].key, key); }
  }
}
