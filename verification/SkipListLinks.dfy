// The memtable: a skip list of heap nodes with one forward pointer per level.
//
// Positions run over the whole chain head, interior nodes, tail.  hs[a] is the
// height of the node at position a and links[a] its forward pointers.
module SkipListLinks {
  import opened Entries

  /** b is the next position after a that reaches above level i. */
  ghost predicate IsNext(hs: seq<nat>, a: int, i: int, b: int) {
    0 <= a < b < |hs| && 0 <= i < hs[b] && forall c :: a < c < b ==> hs[c] <= i
  }

  /** a is the last position before q that reaches above level i. */
  ghost predicate IsPred(hs: seq<nat>, a: int, i: int, q: int) {
    0 <= a < q <= |hs| && 0 <= i < hs[a] && forall c :: a < c < q ==> hs[c] <= i
  }

  /** The last position before q that reaches above level i. */
  ghost function PredOf(hs: seq<nat>, i: nat, q: nat): (a: nat)
    requires 0 < q <= |hs| && i < hs[0]
    ensures a < q
  {
    if i < hs[q - 1] then q - 1 else PredOf(hs, i, q - 1)
  }

  lemma {:induction false} PredOfIsPred(hs: seq<nat>, i: nat, q: nat)
    requires 0 < q <= |hs| && i < hs[0]
    ensures IsPred(hs, PredOf(hs, i, q), i, q)
  {
    if hs[q - 1] <= i { PredOfIsPred(hs, i, q - 1); }
  }

  /** A search at level i that must stop before position b has found the predecessor of every q in (a, b]. */
  lemma {:induction false} StopsAt(hs: seq<nat>, a: nat, i: nat, b: nat, q: nat)
    requires IsNext(hs, a, i, b) && a < q <= b && i < hs[a] && i < hs[0]
    ensures a == PredOf(hs, i, q)
    ensures (forall c :: 0 <= c < |hs| ==> 1 <= hs[c]) && i == 0 ==> b == a + 1
  {
    assert IsPred(hs, a, i, q);
    PredOfIsPred(hs, i, q);
    PredUnique(hs, a, PredOf(hs, i, q), i, q);
    if b > a + 1 { assert hs[a + 1] <= i; }
  }

  lemma {:induction false} PredOfRaised(hs: seq<nat>, h: nat, i: nat, q: nat)
    requires 0 < q < |hs| && hs[0] < h && i < h
    requires forall a :: 0 <= a < |hs| ==> hs[a] <= hs[0]
    ensures PredOf(hs[0 := h][|hs| - 1 := h], i, q) == if i < hs[0] then PredOf(hs, i, q) else 0
  {
    if q > 1 { PredOfRaised(hs, h, i, q - 1); }
  }

  /** Level i is exactly the chain of the nodes higher than i, in order. */
  ghost predicate Linked<N>(ns: seq<N>, hs: seq<nat>, links: seq<seq<N>>)
    requires |ns| == |hs| == |links|
    requires forall a :: 0 <= a < |ns| ==> |links[a]| == hs[a]
  {
    forall a, i, b :: IsNext(hs, a, i, b) && i < hs[a] ==> links[a][i] == ns[b]
  }

  lemma {:induction false} NextExists(hs: seq<nat>, a: nat, i: nat) returns (b: nat)
    requires a < |hs| - 1 && i < hs[|hs| - 1]
    ensures IsNext(hs, a, i, b)
  {
    b := a + 1;
    while hs[b] <= i
      invariant a < b < |hs|
      invariant forall c :: a < c < b ==> hs[c] <= i
      decreases |hs| - b
    {
      b := b + 1;
    }
  }

  /** The positions from a on that reach above level i, in order. */
  ghost function Tall(hs: seq<nat>, i: nat, a: nat): seq<nat>
    requires a <= |hs|
    decreases |hs| - a
  {
    if a == |hs| then [] else (if hs[a] > i then [a] else []) + Tall(hs, i, a + 1)
  }

  lemma {:induction false} TallHas(hs: seq<nat>, i: nat, a: nat, c: nat)
    requires a <= |hs|
    ensures c in Tall(hs, i, a) <==> a <= c < |hs| && hs[c] > i
    decreases |hs| - a
  {
    if a < |hs| {
      TallHas(hs, i, a + 1, c);
      assert c in Tall(hs, i, a) <==> (c == a && hs[a] > i) || c in Tall(hs, i, a + 1);
    }
  }

  lemma {:induction false} TallIsAll(hs: seq<nat>, i: nat, a: nat)
    requires a <= |hs|
    ensures forall c: nat :: c in Tall(hs, i, a) <==> a <= c < |hs| && hs[c] > i
  {
    forall c: nat ensures c in Tall(hs, i, a) <==> a <= c < |hs| && hs[c] > i { TallHas(hs, i, a, c); }
  }

  lemma {:induction false} TallSkips(hs: seq<nat>, i: nat, a: nat, b: nat)
    requires a <= b <= |hs| && forall c :: a <= c < b ==> hs[c] <= i
    ensures Tall(hs, i, a) == Tall(hs, i, b)
    decreases b - a
  {
    if a < b { TallSkips(hs, i, a + 1, b); }
  }

  /** Each of them is the next one after the one before. */
  lemma {:induction false} TallIsChain(hs: seq<nat>, i: nat, a: nat)
    requires a < |hs| && hs[a] > i && hs[|hs| - 1] > i
    ensures var t := Tall(hs, i, a);
            && |t| > 0 && t[0] == a && t[|t| - 1] == |hs| - 1
            && forall j :: 0 <= j < |t| - 1 ==> IsNext(hs, t[j], i, t[j + 1])
    decreases |hs| - a
  {
    if a == |hs| - 1 {
      assert Tall(hs, i, |hs|) == [];
    } else {
      var b := NextExists(hs, a, i);
      TallIsChain(hs, i, b);
      TallSkips(hs, i, a + 1, b);
      var t, rest := Tall(hs, i, a), Tall(hs, i, b);
      assert t == [a] + rest;
      forall j | 0 <= j < |t| - 1 ensures IsNext(hs, t[j], i, t[j + 1]) {
        if j > 0 { assert IsNext(hs, rest[j - 1], i, rest[j]); }
      }
    }
  }

  lemma {:induction false} TallStep(hs: seq<nat>, i: nat, j: nat)
    requires |hs| > 0 && hs[0] > i && hs[|hs| - 1] > i && j + 1 < |Tall(hs, i, 0)|
    ensures var a, b := Tall(hs, i, 0)[j], Tall(hs, i, 0)[j + 1];
            IsNext(hs, a, i, b) && i < hs[a]
  {
    TallIsChain(hs, i, 0);
    var a := Tall(hs, i, 0)[j];
    assert a in Tall(hs, i, 0);
    TallHas(hs, i, 0, a);
  }

  // ---- a new position ----

  lemma {:induction false} InsertedAt<T>(s: seq<T>, q: nat, x: T, k: nat)
    requires q <= |s| && k <= |s|
    ensures InsertAt(s, q, x)[k] == if k < q then s[k] else if k == q then x else s[k - 1]
  {
  }

  /** What a next position in the longer list comes from: one before the new position, ... */
  lemma {:induction false} NextBefore(hs: seq<nat>, q: nat, h: nat, a: int, i: int, b: int)
    requires q <= |hs| && IsNext(InsertAt(hs, q, h), a, i, b) && b < q
    ensures IsNext(hs, a, i, b) && !IsPred(hs, a, i, q)
  {
    forall c | a < c <= b ensures InsertAt(hs, q, h)[c] == hs[c] {}
  }

  /** ... the new position itself, ... */
  lemma {:induction false} NextIsNew(hs: seq<nat>, q: nat, h: nat, a: int, i: int)
    requires q <= |hs| && IsNext(InsertAt(hs, q, h), a, i, q)
    ensures i < h && (i < hs[a] ==> IsPred(hs, a, i, q))
  {
    forall c | a < c < q ensures hs[c] <= i { InsertedAt(hs, q, h, c); }
  }

  /** ... the next of the new position, ... */
  lemma {:induction false} NextOfNew(hs: seq<nat>, q: nat, h: nat, p: int, i: int, b: int)
    requires q <= |hs| && IsNext(InsertAt(hs, q, h), q, i, b) && IsPred(hs, p, i, q)
    ensures IsNext(hs, p, i, b - 1)
  {
    InsertedAt(hs, q, h, b);
    forall c | q <= c < b - 1 ensures hs[c] <= i { InsertedAt(hs, q, h, c + 1); }
  }

  /** ... one across the new position, which is lower, ... */
  lemma {:induction false} NextAcross(hs: seq<nat>, q: nat, h: nat, a: int, i: int, b: int)
    requires q <= |hs| && IsNext(InsertAt(hs, q, h), a, i, b) && a < q < b
    ensures h <= i && IsNext(hs, a, i, b - 1)
  {
    InsertedAt(hs, q, h, q);
    InsertedAt(hs, q, h, b);
    forall c | a < c < b - 1 ensures hs[c] <= i { InsertedAt(hs, q, h, if c < q then c else c + 1); }
  }

  /** ... or one after it. */
  lemma {:induction false} NextBeyond(hs: seq<nat>, q: nat, h: nat, a: int, i: int, b: int)
    requires q <= |hs| && IsNext(InsertAt(hs, q, h), a, i, b) && q < a
    ensures IsNext(hs, a - 1, i, b - 1)
  {
    InsertedAt(hs, q, h, b);
    forall c | a - 1 < c < b - 1 ensures hs[c] <= i { InsertedAt(hs, q, h, c + 1); }
  }

  /** links' is links with, on each level below h, the predecessor of position q pointing at the new node;
      own are the pointers these had. */
  ghost predicate Spliced<N>(ns: seq<N>, hs: seq<nat>, links: seq<seq<N>>,
                             q: nat, at: seq<nat>, node: N, h: nat, own: seq<N>, links': seq<seq<N>>) {
    && |ns| == |hs| == |links| == |links'|
    && (forall a :: 0 <= a < |ns| ==> |links[a]| == hs[a] == |links'[a]|)
    && Linked(ns, hs, links)
    && 0 < q < |ns| && |own| == h <= |at|
    && (forall i :: 0 <= i < h ==> IsPred(hs, at[i], i, q) && own[i] == links[at[i]][i])
    && (forall a, i :: 0 <= a < |ns| && 0 <= i < hs[a] ==>
          links'[a][i] == if i < h && a == at[i] then node else links[a][i])
  }

  lemma {:induction false} LinkIs<N>(ns: seq<N>, hs: seq<nat>, links: seq<seq<N>>, a: int, i: int, b: int)
    requires |ns| == |hs| == |links| && forall a :: 0 <= a < |ns| ==> |links[a]| == hs[a]
    requires Linked(ns, hs, links) && IsNext(hs, a, i, b) && i < hs[a]
    ensures links[a][i] == ns[b]
  {
  }

  lemma {:induction false} SplicedLink<N>(ns: seq<N>, hs: seq<nat>, links: seq<seq<N>>,
                        q: nat, at: seq<nat>, node: N, h: nat, own: seq<N>, links': seq<seq<N>>, a: int, i: int)
    requires Spliced(ns, hs, links, q, at, node, h, own, links') && 0 <= a < |ns| && 0 <= i < hs[a]
    ensures links'[a][i] == if i < h && a == at[i] then node else links[a][i]
  {
  }

  lemma {:induction false} SplicedPred<N>(ns: seq<N>, hs: seq<nat>, links: seq<seq<N>>,
                        q: nat, at: seq<nat>, node: N, h: nat, own: seq<N>, links': seq<seq<N>>, i: int)
    requires Spliced(ns, hs, links, q, at, node, h, own, links') && 0 <= i < h
    ensures IsPred(hs, at[i], i, q) && own[i] == links[at[i]][i]
  {
  }

  lemma {:induction false} SplicedShape<N>(ns: seq<N>, hs: seq<nat>, links: seq<seq<N>>,
                        q: nat, at: seq<nat>, node: N, h: nat, own: seq<N>, links': seq<seq<N>>, a: nat)
    requires Spliced(ns, hs, links, q, at, node, h, own, links') && a <= |ns|
    ensures |InsertAt(links', q, own)[a]| == InsertAt(hs, q, h)[a]
  {
    InsertedAt(links', q, own, a);
    InsertedAt(hs, q, h, a);
  }

  /** The pointer of the new node. */
  lemma {:induction false} NewLink<N>(ns: seq<N>, hs: seq<nat>, links: seq<seq<N>>,
                        q: nat, at: seq<nat>, node: N, h: nat, own: seq<N>, links': seq<seq<N>>, i: int, b: int)
    requires Spliced(ns, hs, links, q, at, node, h, own, links')
    requires IsNext(InsertAt(hs, q, h), q, i, b) && i < h
    ensures own[i] == InsertAt(ns, q, node)[b]
  {
    InsertedAt(ns, q, node, b);
    SplicedPred(ns, hs, links, q, at, node, h, own, links', i);
    NextOfNew(hs, q, h, at[i], i, b);
    LinkIs(ns, hs, links, at[i], i, b - 1);
  }

  /** A pointer of a node before it. */
  lemma {:induction false} EarlierLink<N>(ns: seq<N>, hs: seq<nat>, links: seq<seq<N>>,
                        q: nat, at: seq<nat>, node: N, h: nat, own: seq<N>, links': seq<seq<N>>, a: int, i: int, b: int)
    requires Spliced(ns, hs, links, q, at, node, h, own, links')
    requires IsNext(InsertAt(hs, q, h), a, i, b) && a < q && i < hs[a]
    ensures links'[a][i] == InsertAt(ns, q, node)[b]
  {
    InsertedAt(ns, q, node, b);
    SplicedLink(ns, hs, links, q, at, node, h, own, links', a, i);
    if i < h { SplicedPred(ns, hs, links, q, at, node, h, own, links', i); }
    if b < q {
      NextBefore(hs, q, h, a, i, b);
      LinkIs(ns, hs, links, a, i, b);
    } else if b == q {
      NextIsNew(hs, q, h, a, i);
      PredUnique(hs, a, at[i], i, q);
    } else {
      NextAcross(hs, q, h, a, i, b);
      LinkIs(ns, hs, links, a, i, b - 1);
    }
  }

  /** A pointer of a node after it. */
  lemma {:induction false} LaterLink<N>(ns: seq<N>, hs: seq<nat>, links: seq<seq<N>>,
                        q: nat, at: seq<nat>, node: N, h: nat, own: seq<N>, links': seq<seq<N>>, a: int, i: int, b: int)
    requires Spliced(ns, hs, links, q, at, node, h, own, links')
    requires IsNext(InsertAt(hs, q, h), a, i, b) && q < a && i < hs[a - 1]
    ensures links'[a - 1][i] == InsertAt(ns, q, node)[b]
  {
    InsertedAt(ns, q, node, b);
    NextBeyond(hs, q, h, a, i, b);
    SplicedLink(ns, hs, links, q, at, node, h, own, links', a - 1, i);
    if i < h { SplicedPred(ns, hs, links, q, at, node, h, own, links', i); }
    LinkIs(ns, hs, links, a - 1, i, b - 1);
  }

  /** Splicing a node of height h in before position q, at every level below h, keeps every level exact. */
  lemma {:induction false} SpliceLinked<N>(ns: seq<N>, hs: seq<nat>, links: seq<seq<N>>,
                        q: nat, at: seq<nat>, node: N, h: nat, own: seq<N>, links': seq<seq<N>>)
    requires Spliced(ns, hs, links, q, at, node, h, own, links')
    ensures forall a :: 0 <= a < |ns| + 1 ==> |InsertAt(links', q, own)[a]| == InsertAt(hs, q, h)[a]
    ensures Linked(InsertAt(ns, q, node), InsertAt(hs, q, h), InsertAt(links', q, own))
  {
    var ns2, hs2, links2 := InsertAt(ns, q, node), InsertAt(hs, q, h), InsertAt(links', q, own);
    forall a | 0 <= a < |ns| + 1 ensures |links2[a]| == hs2[a] { SplicedShape(ns, hs, links, q, at, node, h, own, links', a); }
    forall a, i, b | IsNext(hs2, a, i, b) && i < hs2[a] ensures links2[a][i] == ns2[b] {
      InsertedAt(links', q, own, a);
      InsertedAt(hs, q, h, a);
      if a < q {
        EarlierLink(ns, hs, links, q, at, node, h, own, links', a, i, b);
      } else if a == q {
        NewLink(ns, hs, links, q, at, node, h, own, links', i, b);
      } else {
        LaterLink(ns, hs, links, q, at, node, h, own, links', a, i, b);
      }
    }
  }

  lemma {:induction false} PredUnique(hs: seq<nat>, a: int, b: int, i: int, q: int)
    requires IsPred(hs, a, i, q) && IsPred(hs, b, i, q)
    ensures a == b
  {
  }

  /** links after the levels below k have been redirected, each at its own position, to targets[level]. */
  ghost function Redirect<N>(links: seq<seq<N>>, at: seq<nat>, targets: seq<N>, k: nat): (r: seq<seq<N>>)
    requires k <= |at| && k <= |targets|
    ensures |r| == |links|
  {
    if k == 0 then links else RedirectOne(Redirect(links, at, targets, k - 1), at[k - 1], k - 1, targets[k - 1])
  }

  ghost function RedirectOne<N>(links: seq<seq<N>>, a: nat, i: nat, target: N): seq<seq<N>> {
    if a < |links| && i < |links[a]| then links[a := links[a][i := target]] else links
  }

  lemma {:induction false} RedirectNext<N>(links: seq<seq<N>>, at: seq<nat>, targets: seq<N>, k: nat)
    requires k < |at| && k < |targets|
    ensures Redirect(links, at, targets, k + 1) == RedirectOne(Redirect(links, at, targets, k), at[k], k, targets[k])
  {
  }

  lemma {:induction false} RedirectShape<N>(links: seq<seq<N>>, at: seq<nat>, targets: seq<N>, k: nat)
    requires k <= |at| && k <= |targets|
    ensures forall a :: 0 <= a < |links| ==> |Redirect(links, at, targets, k)[a]| == |links[a]|
  {
    if k > 0 { RedirectShape(links, at, targets, k - 1); }
  }

  lemma {:induction false} Redirected<N>(links: seq<seq<N>>, at: seq<nat>, targets: seq<N>, k: nat, a: nat, i: nat)
    requires k <= |at| && k <= |targets|
    requires forall i :: 0 <= i < k ==> at[i] < |links| && i < |links[at[i]]|
    requires a < |links| && i < |links[a]|
    ensures |Redirect(links, at, targets, k)[a]| == |links[a]|
    ensures Redirect(links, at, targets, k)[a][i] == if i < k && a == at[i] then targets[i] else links[a][i]
  {
    RedirectShape(links, at, targets, k);
    if k > 0 {
      RedirectShape(links, at, targets, k - 1);
      Redirected(links, at, targets, k - 1, a, i);
    }
  }

  // ---- a position less ----

  lemma {:induction false} RemovedAt<T>(s: seq<T>, q: nat, k: nat)
    requires q < |s| && k < |s| - 1
    ensures RemoveAt(s, q)[k] == if k < q then s[k] else s[k + 1]
  {
  }

  /** What a next position in the shorter list comes from: one before the removed position, ... */
  lemma {:induction false} NextWasBefore(hs: seq<nat>, q: nat, a: int, i: int, b: int)
    requires q < |hs| && IsNext(RemoveAt(hs, q), a, i, b) && b < q
    ensures IsNext(hs, a, i, b) && !IsPred(hs, a, i, q)
  {
    forall c | a < c <= b ensures RemoveAt(hs, q)[c] == hs[c] {}
  }

  /** ... one after it, ... */
  lemma {:induction false} NextWasBeyond(hs: seq<nat>, q: nat, a: int, i: int, b: int)
    requires q < |hs| && IsNext(RemoveAt(hs, q), a, i, b) && q <= a
    ensures IsNext(hs, a + 1, i, b + 1)
  {
    RemovedAt(hs, q, b);
    forall c | a + 1 < c < b + 1 ensures hs[c] <= i { RemovedAt(hs, q, c - 1); }
  }

  /** ... or one across it, which was lower, or else what lay between. */
  lemma {:induction false} NextWasAcross(hs: seq<nat>, q: nat, a: int, i: int, b: int)
    requires q < |hs| && IsNext(RemoveAt(hs, q), a, i, b) && a < q <= b
    ensures hs[q] <= i ==> IsNext(hs, a, i, b + 1)
    ensures i < hs[q] ==> IsNext(hs, q, i, b + 1) && (i < hs[a] ==> IsPred(hs, a, i, q))
  {
    RemovedAt(hs, q, b);
    forall c | a < c < b + 1 && c != q ensures hs[c] <= i { RemovedAt(hs, q, if c < q then c else c - 1); }
  }

  /** links' is links with, on each level the node at position q has, its predecessor taking over its pointer. */
  ghost predicate Bypassed<N>(ns: seq<N>, hs: seq<nat>, links: seq<seq<N>>, q: nat, at: seq<nat>, links': seq<seq<N>>) {
    && |ns| == |hs| == |links| == |links'|
    && (forall a :: 0 <= a < |ns| ==> |links[a]| == hs[a] == |links'[a]|)
    && Linked(ns, hs, links)
    && 0 < q < |ns| - 1 && hs[q] <= |at|
    && (forall i :: 0 <= i < hs[q] ==> IsPred(hs, at[i], i, q))
    && (forall a, i :: 0 <= a < |ns| && 0 <= i < hs[a] ==>
          links'[a][i] == if i < hs[q] && a == at[i] then links[q][i] else links[a][i])
  }

  lemma {:induction false} BypassedLink<N>(ns: seq<N>, hs: seq<nat>, links: seq<seq<N>>, q: nat, at: seq<nat>,
                                           links': seq<seq<N>>, a: int, i: int)
    requires Bypassed(ns, hs, links, q, at, links') && 0 <= a < |ns| && 0 <= i < hs[a]
    ensures links'[a][i] == if i < hs[q] && a == at[i] then links[q][i] else links[a][i]
  {
  }

  lemma {:induction false} BypassedPred<N>(ns: seq<N>, hs: seq<nat>, links: seq<seq<N>>, q: nat, at: seq<nat>,
                                           links': seq<seq<N>>, i: int)
    requires Bypassed(ns, hs, links, q, at, links') && 0 <= i < hs[q]
    ensures IsPred(hs, at[i], i, q)
  {
  }

  lemma {:induction false} EarlierLinkLeft<N>(ns: seq<N>, hs: seq<nat>, links: seq<seq<N>>, q: nat, at: seq<nat>,
                                              links': seq<seq<N>>, a: int, i: int, b: int)
    requires Bypassed(ns, hs, links, q, at, links') && IsNext(RemoveAt(hs, q), a, i, b) && a < q && i < hs[a]
    ensures links'[a][i] == RemoveAt(ns, q)[b]
  {
    RemovedAt(ns, q, b);
    BypassedLink(ns, hs, links, q, at, links', a, i);
    if i < hs[q] { BypassedPred(ns, hs, links, q, at, links', i); }
    if b < q {
      NextWasBefore(hs, q, a, i, b);
      LinkIs(ns, hs, links, a, i, b);
    } else if i < hs[q] {
      NextWasAcross(hs, q, a, i, b);
      PredUnique(hs, a, at[i], i, q);
      LinkIs(ns, hs, links, q, i, b + 1);
    } else {
      NextWasAcross(hs, q, a, i, b);
      LinkIs(ns, hs, links, a, i, b + 1);
    }
  }

  lemma {:induction false} LaterLinkLeft<N>(ns: seq<N>, hs: seq<nat>, links: seq<seq<N>>, q: nat, at: seq<nat>,
                                            links': seq<seq<N>>, a: int, i: int, b: int)
    requires Bypassed(ns, hs, links, q, at, links') && IsNext(RemoveAt(hs, q), a, i, b) && q <= a && i < hs[a + 1]
    ensures links'[a + 1][i] == RemoveAt(ns, q)[b]
  {
    RemovedAt(ns, q, b);
    NextWasBeyond(hs, q, a, i, b);
    BypassedLink(ns, hs, links, q, at, links', a + 1, i);
    if i < hs[q] { BypassedPred(ns, hs, links, q, at, links', i); }
    LinkIs(ns, hs, links, a + 1, i, b + 1);
  }

  /** Bypassing the node at position q at every level it has keeps every level exact. */
  lemma {:induction false} UnspliceLinked<N>(ns: seq<N>, hs: seq<nat>, links: seq<seq<N>>,
                                             q: nat, at: seq<nat>, links': seq<seq<N>>)
    requires Bypassed(ns, hs, links, q, at, links')
    ensures forall a :: 0 <= a < |ns| - 1 ==> |RemoveAt(links', q)[a]| == RemoveAt(hs, q)[a]
    ensures Linked(RemoveAt(ns, q), RemoveAt(hs, q), RemoveAt(links', q))
  {
    var ns2, hs2, links2 := RemoveAt(ns, q), RemoveAt(hs, q), RemoveAt(links', q);
    forall a, i, b | IsNext(hs2, a, i, b) && i < hs2[a] ensures links2[a][i] == ns2[b] {
      RemovedAt(links', q, a);
      RemovedAt(hs, q, a);
      if a < q {
        EarlierLinkLeft(ns, hs, links, q, at, links', a, i, b);
      } else {
        LaterLinkLeft(ns, hs, links, q, at, links', a, i, b);
      }
    }
  }

  /** The predecessors of position q on the levels below h. */
  ghost function PredsOf(hs: seq<nat>, h: nat, q: nat): (at: seq<nat>)
    requires 0 < q <= |hs| && h <= hs[0]
    ensures |at| == h
    ensures forall i :: 0 <= i < h ==> at[i] == PredOf(hs, i, q) && at[i] < q && i < hs[at[i]]
  {
    if h == 0 then [] else
      PredOfIsPred(hs, h - 1, q);
      PredsOf(hs, h - 1, q) + [PredOf(hs, h - 1, q)]
  }

  ghost function Repeat<N>(x: N, n: nat): (r: seq<N>)
    ensures |r| == n && forall i :: 0 <= i < n ==> r[i] == x
  {
    seq(n, _ => x)
  }

  /** The pointer each of the given positions has on its own level. */
  ghost function Pick<N>(links: seq<seq<N>>, at: seq<nat>): (own: seq<N>)
    requires forall i :: 0 <= i < |at| ==> at[i] < |links| && i < |links[at[i]]|
    ensures |own| == |at| && forall i :: 0 <= i < |at| ==> own[i] == links[at[i]][i]
  {
    seq(|at|, i requires 0 <= i < |at| => links[at[i]][i])
  }

  /** Head and tail are as tall as the list; nothing is taller. */
  ghost predicate Heights(hs: seq<nat>, max: nat) {
    |hs| >= 2 && hs[|hs| - 1] == hs[0] <= max && forall a :: 0 <= a < |hs| ==> 1 <= hs[a] <= hs[0]
  }

  lemma {:induction false} HeightsChange(hs: seq<nat>, max: nat, q: nat, h: nat)
    requires Heights(hs, max) && 0 < q < |hs| && 1 <= h <= hs[0]
    ensures Heights(InsertAt(hs, q, h), max)
    ensures q < |hs| - 1 ==> Heights(RemoveAt(hs, q), max)
  {
  }

  /** base with its first k elements overwritten by own. */
  ghost function Fill<N>(base: seq<N>, own: seq<N>, k: nat): (r: seq<N>)
    requires k <= |own| == |base|
    ensures |r| == |base|
  {
    if k == 0 then base else Fill(base, own, k - 1)[k - 1 := own[k - 1]]
  }

  lemma {:induction false} FillNext<N>(base: seq<N>, own: seq<N>, k: nat)
    requires k < |own| == |base|
    ensures Fill(base, own, k + 1) == Fill(base, own, k)[k := own[k]]
  {
  }

  lemma {:induction false} Filled<N>(base: seq<N>, own: seq<N>, k: nat)
    requires k <= |own| == |base|
    ensures Fill(base, own, k) == own[..k] + base[k..]
  {
    if k > 0 { Filled(base, own, k - 1); }
  }

  ghost predicate Chain<N>(ns: seq<N>, hs: seq<nat>, links: seq<seq<N>>) {
    && |ns| == |hs| == |links|
    && (forall a :: 0 <= a < |ns| ==> |links[a]| == hs[a])
    && Linked(ns, hs, links)
  }

  lemma {:induction false} InsertKeepsChain<N>(ns: seq<N>, hs: seq<nat>, links: seq<seq<N>>, q: nat, node: N, h: nat)
    requires Chain(ns, hs, links) && 0 < q < |ns| && h <= hs[0]
    ensures var at := PredsOf(hs, h, q);
            Chain(InsertAt(ns, q, node), InsertAt(hs, q, h),
                  InsertAt(Redirect(links, at, Repeat(node, h), h), q, Pick(links, at)))
  {
    var at := PredsOf(hs, h, q);
    var links' := Redirect(links, at, Repeat(node, h), h);
    forall i | 0 <= i < h ensures IsPred(hs, at[i], i, q) { PredOfIsPred(hs, i, q); }
    RedirectShape(links, at, Repeat(node, h), h);
    forall a, i | 0 <= a < |ns| && 0 <= i < hs[a]
      ensures links'[a][i] == if i < h && a == at[i] then node else links[a][i]
    {
      Redirected(links, at, Repeat(node, h), h, a, i);
    }
    SpliceLinked(ns, hs, links, q, at, node, h, Pick(links, at), links');
  }

  lemma {:induction false} RemoveKeepsChain<N>(ns: seq<N>, hs: seq<nat>, links: seq<seq<N>>, q: nat)
    requires Chain(ns, hs, links) && 0 < q < |ns| - 1 && hs[q] <= hs[0]
    ensures var at := PredsOf(hs, hs[q], q);
            Chain(RemoveAt(ns, q), RemoveAt(hs, q), RemoveAt(Redirect(links, at, links[q], hs[q]), q))
  {
    var at := PredsOf(hs, hs[q], q);
    var links' := Redirect(links, at, links[q], hs[q]);
    forall i | 0 <= i < hs[q] ensures IsPred(hs, at[i], i, q) { PredOfIsPred(hs, i, q); }
    RedirectShape(links, at, links[q], hs[q]);
    forall a, i | 0 <= a < |ns| && 0 <= i < hs[a]
      ensures links'[a][i] == if i < hs[q] && a == at[i] then links[q][i] else links[a][i]
    {
      Redirected(links, at, links[q], hs[q], a, i);
    }
    UnspliceLinked(ns, hs, links, q, at, links');
  }

  /** Raising head and tail to height h, with the new head levels pointing at the tail. */
  lemma {:induction false} RaiseLinked<N>(ns: seq<N>, hs: seq<nat>, links: seq<seq<N>>, h: nat,
                       headLinks: seq<N>, tailLinks: seq<N>)
    requires 2 <= |ns| == |hs| == |links|
    requires forall a :: 0 <= a < |ns| ==> |links[a]| == hs[a] <= hs[0]
    requires Linked(ns, hs, links)
    requires hs[0] == hs[|hs| - 1] < h == |headLinks| == |tailLinks|
    requires forall i :: 0 <= i < hs[0] ==> headLinks[i] == links[0][i]
    requires forall i :: hs[0] <= i < h ==> headLinks[i] == ns[|ns| - 1]
    ensures Linked(ns, hs[0 := h][|hs| - 1 := h], links[0 := headLinks][|ns| - 1 := tailLinks])
  {
    var last := |ns| - 1;
    var hs2, links2 := hs[0 := h][last := h], links[0 := headLinks][last := tailLinks];
    forall a, i, b | IsNext(hs2, a, i, b) && i < hs2[a] ensures links2[a][i] == ns[b] {
      assert forall c :: 0 < c < last ==> hs2[c] == hs[c];
      if i < hs[0] {
        assert IsNext(hs, a, i, b);
      }
    }
  }
}
