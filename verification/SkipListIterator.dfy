// SkipList::Iterator, and whole runs of memtable operations.
module SkipListIterators {
  import opened Bytes
  import opened Entries
  import opened SkipLists

  /** SkipList::Iterator: a cursor on one node, null when it has run off either end. */
  class ListIterator {
    const list: SkipList
    var node: Node?

    constructor (list: SkipList)
      ensures this.list == list && node == null
    {
      this.list, this.node := list, null;
    }

    /** The cursor is on entry i, or past the last entry. */
    ghost predicate At(i: nat)
      reads this, list
    {
      && i <= |list.contents| == |list.ns| - 2
      && node == if i < |list.contents| then list.ns[i + 1] else null
    }

    lemma {:induction false} OnEntry(i: nat)
      requires list.Walkable() && At(i)
      ensures node != null <==> i < |list.contents|
      ensures node != null ==> KV(node.key, node.value) == list.contents[i] && node == list.ns[i + 1]
    {
    }

    method SeekToFirst()
      requires list.Walkable()
      modifies this
      ensures At(0)
    {
      node := list.head.nexts[0];
      if node == list.tail {
        node := null;
      }
    }

    method SeekToLast()
      requires list.Valid()
      modifies this
      ensures list.Walkable()
      ensures |list.contents| > 0 ==> At(|list.contents| - 1)
      ensures |list.contents| == 0 ==> node == null
    {
      list.IsWalkable();
      var last := list.FindLast();
      node := if last == list.head then null else last;
    }

    method Seek(key: Str)
      requires list.Valid()
      modifies this
      ensures list.Walkable() && At(FirstGE(list.contents, key))
    {
      list.IsWalkable();
      var x, prevs, p := list.FindGreaterOrEqual(key);
      list.KeyAt(p + 1, key);
      node := if x == list.tail then null else x;
    }

    method Next(ghost i: nat)
      requires list.Walkable() && At(i) && i < |list.contents|
      modifies this
      ensures At(i + 1)
    {
      OnEntry(i);
      node := node.nexts[0];
      if node == list.tail {
        node := null;
      }
    }

    /** Prev searches again from the head for the last entry below the current key. */
    method Prev(ghost i: nat)
      requires list.Valid() && list.Walkable() && At(i) && i < |list.contents|
      modifies this
      ensures if i > 0 then At(i - 1) else node == null
    {
      OnEntry(i);
      FirstGEOfEntry(list.contents, i);
      var prev := list.FindLessThan(node.key);
      node := if prev == list.head then null else prev;
    }

    function Key(): Str
      requires node != null
      reads this, node
    {
      node.key
    }

    function Value(): Str
      requires node != null
      reads this, node
    {
      node.value
    }
  }

  /** A new cursor, on the first entry. */
  method Begin(list: SkipList) returns (iter: ListIterator)
    requires list.Walkable()
    ensures fresh(iter) && iter.list == list
    ensures list.Walkable() && iter.At(0)
  {
    iter := new ListIterator(list);
    iter.SeekToFirst();
  }

  lemma {:induction false} FirstGEOfEntry(es: seq<KV>, i: nat)
    requires Sorted(es) && i < |es|
    ensures FirstGE(es, es[i].key) == i
  {
    var key := es[i].key;
    LessIrreflexive(key);
    forall j | 0 <= j < i ensures Less(es[j].key, key) {}
    FirstGEUnique(es, key, i);
  }

  // ---- whole runs against a plain map ----

  datatype Op = PutOp(key: Str, value: Str, heads: nat) | DelOp(key: Str) | ClearOp

  function Apply(es: seq<KV>, op: Op): seq<KV> {
    match op
    case PutOp(key, value, _) => Insert(es, key, value)
    case DelOp(key) => Remove(es, key)
    case ClearOp => []
  }

  function ApplyAll(es: seq<KV>, ops: seq<Op>): seq<KV> {
    if ops == [] then es else Apply(ApplyAll(es, ops[..|ops| - 1]), ops[|ops| - 1])
  }

  /** The map a run builds, one update at a time. */
  function MapAfter(ops: seq<Op>): map<Str, Str> {
    if ops == [] then map[] else
      var m := MapAfter(ops[..|ops| - 1]);
      match ops[|ops| - 1]
      case PutOp(key, value, _) => m[key := value]
      case DelOp(key) => m - {key}
      case ClearOp => map[]
  }

  lemma {:induction false} RunIsMap(ops: seq<Op>)
    ensures Sorted(ApplyAll([], ops))
    ensures ToMap(ApplyAll([], ops)) == MapAfter(ops)
  {
    if ops != [] {
      var es := ApplyAll([], ops[..|ops| - 1]);
      RunIsMap(ops[..|ops| - 1]);
      match ops[|ops| - 1]
      case PutOp(key, value, _) => InsertIsMapUpdate(es, key, value);
      case DelOp(key) => RemoveIsMapRemoval(es, key);
      case ClearOp =>
    }
  }

  /** Any run of puts, deletes and clears, whatever the coin flips, leaves the list holding exactly the map. */
  method Run(ops: seq<Op>) returns (list: SkipList)
    ensures list.Valid() && fresh(list) && fresh(list.Repr)
    ensures ToMap(list.contents) == MapAfter(ops)
    ensures list.Size() == |list.contents| && list.Bytes() == Space(list.contents)
  {
    list := new SkipList();
    var i := 0;
    while i < |ops|
      invariant 0 <= i <= |ops|
      invariant list.Valid() && fresh(list) && fresh(list.Repr)
      invariant list.contents == ApplyAll([], ops[..i])
    {
      assert ops[..i + 1][..i] == ops[..i];
      match ops[i] {
        case PutOp(key, value, heads) => list.Put(key, value, heads);
        case DelOp(key) => var deleted := list.Del(key);
        case ClearOp => list.Clear();
      }
      i := i + 1;
    }
    assert ops[..i] == ops;
    RunIsMap(ops);
  }
}
