// Key/value entries in key order: the abstract contents that the memtable, the
// blocks and the table files all have to agree on.
module Entries {
  import opened Options
  import opened Bytes

  datatype KV = KV(key: Str, value: Str)

  ghost predicate Sorted(es: seq<KV>) {
    forall i, j {:trigger Less(es[i].key, es[j].key)} :: 0 <= i < j < |es| ==> Less(es[i].key, es[j].key)
  }

  /** The value of the first entry with this key. */
  function Find(es: seq<KV>, key: Str): Option<Str> {
    if es == [] then None
    else if es[0].key == key then Some(es[0].value)
    else Find(es[1..], key)
  }

  /** The number of leading entries below key: where a search for key stops. */
  function FirstGE(es: seq<KV>, key: Str): (p: nat)
    ensures p <= |es|
    ensures forall i {:trigger Less(es[i].key, key)} :: 0 <= i < p ==> Less(es[i].key, key)
    ensures p < |es| ==> !Less(es[p].key, key)
  {
    if es == [] || !Less(es[0].key, key) then 0 else 1 + FirstGE(es[1..], key)
  }

  function InsertAt<T>(s: seq<T>, q: nat, x: T): seq<T>
    requires q <= |s|
  {
    s[..q] + [x] + s[q..]
  }

  function RemoveAt<T>(s: seq<T>, q: nat): seq<T>
    requires q < |s|
  {
    s[..q] + s[q + 1..]
  }

  function Insert(es: seq<KV>, key: Str, value: Str): seq<KV> {
    var p := FirstGE(es, key);
    if p < |es| && es[p].key == key then es[p := KV(key, value)]
    else InsertAt(es, p, KV(key, value))
  }

  function Remove(es: seq<KV>, key: Str): seq<KV> {
    var p := FirstGE(es, key);
    if p < |es| && es[p].key == key then RemoveAt(es, p) else es
  }

  function ToMap(es: seq<KV>): map<Str, Str> {
    if es == [] then map[] else ToMap(es[1..])[es[0].key := es[0].value]
  }

  /** Key and value bytes held by the entries. */
  function Space(es: seq<KV>): nat {
    if es == [] then 0 else |es[0].key| + |es[0].value| + Space(es[1..])
  }

  // ---- what a search finds ----

  lemma {:induction false} FindIsMember(es: seq<KV>, key: Str)
    ensures Find(es, key).Some? <==> exists i :: 0 <= i < |es| && es[i].key == key
    ensures Find(es, key).Some? ==> exists i :: 0 <= i < |es| && es[i] == KV(key, Find(es, key).value)
  {
    if es != [] {
      FindIsMember(es[1..], key);
      if es[0].key == key {
        assert es[0] == KV(key, Find(es, key).value);
      } else {
        assert forall i :: 0 < i < |es| ==> es[i] == es[1..][i - 1];
        assert forall i :: 0 <= i < |es[1..]| ==> es[1..][i] == es[i + 1];
      }
    }
  }

  lemma {:induction false} FindIsToMap(es: seq<KV>, key: Str)
    ensures Find(es, key).Some? <==> key in ToMap(es)
    ensures key in ToMap(es) ==> Find(es, key) == Some(ToMap(es)[key])
  {
    if es != [] { FindIsToMap(es[1..], key); }
  }

  lemma {:induction false} FindConcat(a: seq<KV>, b: seq<KV>, key: Str)
    ensures Find(a + b, key) == if Find(a, key).Some? then Find(a, key) else Find(b, key)
  {
    if a == [] {
      assert a + b == b;
    } else {
      assert (a + b)[1..] == a[1..] + b;
      FindConcat(a[1..], b, key);
    }
  }

  lemma {:induction false} SpaceConcat(a: seq<KV>, b: seq<KV>)
    ensures Space(a + b) == Space(a) + Space(b)
  {
    if a == [] {
      assert a + b == b;
    } else {
      assert (a + b)[1..] == a[1..] + b;
      SpaceConcat(a[1..], b);
    }
  }

  /** In a sorted run the position FirstGE names is where the key is, or is not. */
  lemma {:induction false} SortedFind(es: seq<KV>, key: Str)
    requires Sorted(es)
    ensures var p := FirstGE(es, key);
            Find(es, key) == if p < |es| && es[p].key == key then Some(es[p].value) else None
  {
    var p := FirstGE(es, key);
    FindIsMember(es, key);
    forall i | 0 <= i < |es| && es[i].key == key ensures i == p {
      if i < p { LessIrreflexive(key); }
    }
  }

  lemma {:induction false} UniqueIndex(es: seq<KV>, i: nat, j: nat)
    requires Sorted(es) && i < |es| && j < |es| && es[i].key == es[j].key
    ensures i == j
  {
    LessIrreflexive(es[i].key);
  }

  lemma {:induction false} FirstGEUnique(es: seq<KV>, key: Str, p: nat)
    requires p <= |es|
    requires forall i :: 0 <= i < p ==> Less(es[i].key, key)
    requires p < |es| ==> !Less(es[p].key, key)
    ensures FirstGE(es, key) == p
  {
  }

  // ---- Insert and Remove are map update and map removal ----

  lemma {:induction false} InsertSorted(es: seq<KV>, key: Str, value: Str)
    requires Sorted(es)
    ensures Sorted(Insert(es, key, value))
  {
    var p := FirstGE(es, key);
    if p < |es| && es[p].key == key {
    } else {
      forall j | p <= j < |es| ensures Less(key, es[j].key) {
        LessTotal(key, es[p].key);
        if p < j { LessTransitive(key, es[p].key, es[j].key); }
      }
    }
  }

  lemma {:induction false} RemoveSorted(es: seq<KV>, key: Str)
    requires Sorted(es)
    ensures Sorted(Remove(es, key))
  {
  }

  lemma {:induction false} FindSplice(a: seq<KV>, e: KV, b: seq<KV>, k: Str)
    ensures Find(a + [e] + b, k) == if Find(a, k).Some? then Find(a, k) else if k == e.key then Some(e.value) else Find(b, k)
  {
    assert a + [e] + b == a + ([e] + b);
    FindConcat(a, [e] + b, k);
    assert ([e] + b)[1..] == b;
  }

  lemma {:induction false} NotFoundBelow(es: seq<KV>, key: Str)
    ensures Find(es[..FirstGE(es, key)], key) == None
  {
    FindIsMember(es[..FirstGE(es, key)], key);
    LessIrreflexive(key);
  }

  lemma {:induction false} FindInsert(es: seq<KV>, key: Str, value: Str, k: Str)
    requires Sorted(es)
    ensures Find(Insert(es, key, value), k) == if k == key then Some(value) else Find(es, k)
  {
    var p := FirstGE(es, key);
    NotFoundBelow(es, key);
    hide FirstGE, Find, Less, Sorted;
    if p < |es| && es[p].key == key {
      assert Insert(es, key, value) == es[..p] + [KV(key, value)] + es[p + 1..];
      FindSplice(es[..p], KV(key, value), es[p + 1..], k);
      assert es == es[..p] + [es[p]] + es[p + 1..];
      FindSplice(es[..p], es[p], es[p + 1..], k);
    } else {
      FindSplice(es[..p], KV(key, value), es[p..], k);
      assert es == es[..p] + es[p..];
      FindConcat(es[..p], es[p..], k);
    }
  }

  lemma {:induction false} FindRemove(es: seq<KV>, key: Str, k: Str)
    requires Sorted(es)
    ensures Find(Remove(es, key), k) == if k == key then None else Find(es, k)
  {
    var p := FirstGE(es, key);
    if p < |es| && es[p].key == key {
      var rest := es[p + 1..];
      FindConcat(es[..p], rest, k);
      assert es == es[..p] + ([es[p]] + rest);
      FindConcat(es[..p], [es[p]] + rest, k);
      assert ([es[p]] + rest)[1..] == rest;
      FindIsMember(es[..p], key);
      FindIsMember(rest, key);
      LessIrreflexive(key);
    } else {
      SortedFind(es, key);
    }
  }

  lemma {:induction false} InsertIsMapUpdate(es: seq<KV>, key: Str, value: Str)
    requires Sorted(es)
    ensures Sorted(Insert(es, key, value))
    ensures ToMap(Insert(es, key, value)) == ToMap(es)[key := value]
  {
    InsertSorted(es, key, value);
    forall k ensures k in ToMap(Insert(es, key, value)) <==> k in ToMap(es)[key := value]
      ensures k in ToMap(Insert(es, key, value)) ==> ToMap(Insert(es, key, value))[k] == ToMap(es)[key := value][k]
    {
      FindInsert(es, key, value, k);
      FindIsToMap(es, k);
      FindIsToMap(Insert(es, key, value), k);
    }
  }

  lemma {:induction false} RemoveIsMapRemoval(es: seq<KV>, key: Str)
    requires Sorted(es)
    ensures Sorted(Remove(es, key))
    ensures ToMap(Remove(es, key)) == ToMap(es) - {key}
  {
    RemoveSorted(es, key);
    forall k ensures k in ToMap(Remove(es, key)) <==> k in ToMap(es) - {key}
      ensures k in ToMap(Remove(es, key)) ==> ToMap(Remove(es, key))[k] == ToMap(es)[k]
    {
      FindRemove(es, key, k);
      FindIsToMap(es, k);
      FindIsToMap(Remove(es, key), k);
    }
  }

  lemma {:induction false} SpaceSplice(a: seq<KV>, e: KV, b: seq<KV>)
    ensures Space(a + [e] + b) == Space(a) + |e.key| + |e.value| + Space(b)
  {
    assert a + [e] + b == a + ([e] + b);
    SpaceConcat(a, [e] + b);
    assert ([e] + b)[1..] == b;
  }

  lemma {:induction false} SpaceUpdate(es: seq<KV>, p: nat, value: Str)
    requires p < |es|
    ensures Space(es[p := KV(es[p].key, value)]) == Space(es) - |es[p].value| + |value|
  {
    assert es[p := KV(es[p].key, value)] == es[..p] + [KV(es[p].key, value)] + es[p + 1..];
    SpaceSplice(es[..p], KV(es[p].key, value), es[p + 1..]);
    assert es == es[..p] + [es[p]] + es[p + 1..];
    SpaceSplice(es[..p], es[p], es[p + 1..]);
  }

  lemma {:induction false} SpaceInsertAt(es: seq<KV>, p: nat, e: KV)
    requires p <= |es|
    ensures Space(InsertAt(es, p, e)) == Space(es) + |e.key| + |e.value|
  {
    SpaceSplice(es[..p], e, es[p..]);
    assert es == es[..p] + es[p..];
    SpaceConcat(es[..p], es[p..]);
  }

  lemma {:induction false} SpaceRemoveAt(es: seq<KV>, p: nat)
    requires p < |es|
    ensures Space(RemoveAt(es, p)) == Space(es) - |es[p].key| - |es[p].value|
  {
    SpaceConcat(es[..p], es[p + 1..]);
    assert es == es[..p] + [es[p]] + es[p + 1..];
    SpaceSplice(es[..p], es[p], es[p + 1..]);
  }
}
