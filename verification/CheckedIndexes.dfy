/**
  * Sorted index tables over checked lists and their binary-search queries
  * (crates/bray-bound-tree/src/asynchronous.rs): building the index, refusing duplicates, and looking
  * entries up, against a scan of the list in its original order.
  */
module CheckedIndexes {
  import opened Canonical
  import opened Options
  import opened Sequences

  type Order<!K> = (K, K) -> bool

  /** The order of positions by key, then by position. */
  predicate Before<K(==)>(le: Order<K>, keys: seq<K>, i: nat, j: nat)
    requires i < |keys| && j < |keys|
  {
    if keys[i] == keys[j] then i < j else le(keys[i], keys[j])
  }

  ghost predicate InBounds(index: seq<nat>, n: nat) {
    forall a :: 0 <= a < |index| ==> index[a] < n
  }

  ghost predicate SortedIndex<K(!new)>(le: Order<K>, keys: seq<K>, index: seq<nat>) {
    && InBounds(index, |keys|)
    && forall a, b :: 0 <= a < b < |index| ==> Before(le, keys, index[a], index[b])
  }

  /** `index` lists the positions of `keys`, each once, ordered by key and position. */
  ghost predicate IsIndex<K(!new)>(le: Order<K>, keys: seq<K>, index: seq<nat>) {
    SortedIndex(le, keys, index) && |index| == |keys| && Elements(index) == Below(|keys|)
  }

  // ------------------------------------------------------------------ building

  /** Where a new position belongs among those sorted so far. */
  method InsertionPoint<K(==, !new)>(le: Order<K>, keys: seq<K>, index: seq<nat>, i: nat) returns (p: nat)
    requires TotalOrder(le) && i < |keys| && SortedIndex(le, keys, index) && i !in index
    ensures p <= |index|
    ensures forall a :: 0 <= a < p ==> Before(le, keys, index[a], i)
    ensures forall a :: p <= a < |index| ==> Before(le, keys, i, index[a])
  {
    p := |index|;
    while p > 0 && Before(le, keys, i, index[p - 1])
      invariant p <= |index|
      invariant forall a :: p <= a < |index| ==> Before(le, keys, i, index[a])
    {
      p := p - 1;
    }
    if p > 0 {
      assert index[p - 1] != i;
    }
  }

  function InsertAt(index: seq<nat>, i: nat, p: nat): seq<nat>
    requires p <= |index|
  {
    index[..p] + [i] + index[p..]
  }

  lemma InsertSorted<K(!new)>(le: Order<K>, keys: seq<K>, index: seq<nat>, i: nat, p: nat)
    requires i < |keys| && SortedIndex(le, keys, index) && p <= |index|
    requires forall a :: 0 <= a < p ==> Before(le, keys, index[a], i)
    requires forall a :: p <= a < |index| ==> Before(le, keys, i, index[a])
    ensures SortedIndex(le, keys, InsertAt(index, i, p))
  {
    var longer := InsertAt(index, i, p);
    assert forall a :: 0 <= a < |longer| ==>
      longer[a] == if a < p then index[a] else if a == p then i else index[a - 1];
  }

  lemma InsertedElements(index: seq<nat>, i: nat, p: nat)
    requires p <= |index|
    ensures Elements(InsertAt(index, i, p)) == Elements(index) + {i} && |InsertAt(index, i, p)| == |index| + 1
  {
    ElementsAppend(index[..p] + [i], index[p..]);
    ElementsAppend(index[..p], [i]);
    ElementsAppend(index[..p], index[p..]);
    assert index == index[..p] + index[p..];
  }

  /** Sorting positions by key, then position. */
  method BuildIndex<K(==, !new)>(le: Order<K>, keys: seq<K>) returns (index: seq<nat>)
    requires TotalOrder(le)
    ensures IsIndex(le, keys, index)
  {
    index := [];
    for i := 0 to |keys|
      invariant SortedIndex(le, keys, index) && |index| == i && Elements(index) == Below(i)
    {
      index := Place(le, keys, index, i);
    }
  }

  method Place<K(==, !new)>(le: Order<K>, keys: seq<K>, before: seq<nat>, i: nat) returns (index: seq<nat>)
    requires TotalOrder(le) && i < |keys| && SortedIndex(le, keys, before)
    requires |before| == i && Elements(before) == Below(i)
    ensures SortedIndex(le, keys, index) && |index| == i + 1 && Elements(index) == Below(i + 1)
  {
    assert i !in Elements(before);
    var p := InsertionPoint(le, keys, before, i);
    InsertSorted(le, keys, before, i, p);
    InsertedElements(before, i, p);
    index := InsertAt(before, i, p);
  }

  // ------------------------------------------------------------------ duplicates

  /** Comparing neighbours in the index finds every duplicate. */
  method HasDuplicate<K(==, !new)>(le: Order<K>, keys: seq<K>, index: seq<nat>) returns (found: bool)
    requires TotalOrder(le) && IsIndex(le, keys, index)
    ensures found <==> !NoDuplicates(keys)
  {
    var a := 1;
    while a < |index|
      invariant 1 <= a && forall b :: 1 <= b < a && b < |index| ==> keys[index[b - 1]] != keys[index[b]]
    {
      if keys[index[a - 1]] == keys[index[a]] {
        assert Before(le, keys, index[a - 1], index[a]);
        return true;
      }
      a := a + 1;
    }
    NeighboursDiffer(le, keys, index);
    found := false;
  }

  lemma NeighboursDiffer<K(!new)>(le: Order<K>, keys: seq<K>, index: seq<nat>)
    requires TotalOrder(le) && IsIndex(le, keys, index)
    requires forall b :: 1 <= b < |index| ==> keys[index[b - 1]] != keys[index[b]]
    ensures NoDuplicates(keys)
  {
    forall i, j | 0 <= i < j < |keys| ensures keys[i] != keys[j] {
      if keys[i] == keys[j] {
        var a := PositionOf(keys, index, i);
        var b := PositionOf(keys, index, j);
        BetweenEqual(le, keys, index, a, b);
        assert false;
      }
    }
  }

  lemma PositionOf<K(!new)>(keys: seq<K>, index: seq<nat>, i: nat) returns (a: nat)
    requires Elements(index) == Below(|keys|) && i < |keys|
    ensures a < |index| && index[a] == i
  {
    assert i in Elements(index);
    a :| 0 <= a < |index| && index[a] == i;
  }

  /** Between two equal keys of the index there are only equal keys. */
  lemma BetweenEqual<K(!new)>(le: Order<K>, keys: seq<K>, index: seq<nat>, a: nat, b: nat)
    requires TotalOrder(le) && SortedIndex(le, keys, index)
    requires a < |index| && b < |index| && index[a] < index[b] && keys[index[a]] == keys[index[b]]
    ensures 1 <= b && a < b && keys[index[b - 1]] == keys[index[b]]
  {
    if a < b - 1 {
      assert Before(le, keys, index[a], index[b - 1]) && Before(le, keys, index[b - 1], index[b]);
    }
  }

  // ------------------------------------------------------------------ looking up

  /** Binary search for the first entry whose key is not below `key`. */
  method PartitionPoint<K(==, !new)>(le: Order<K>, keys: seq<K>, index: seq<nat>, key: K) returns (p: nat)
    requires TotalOrder(le) && SortedIndex(le, keys, index)
    ensures p <= |index|
    ensures forall a :: 0 <= a < p ==> keys[index[a]] != key && le(keys[index[a]], key)
    ensures forall a :: p <= a < |index| ==> le(key, keys[index[a]])
  {
    var low, high := 0, |index|;
    while low < high
      invariant 0 <= low <= high <= |index|
      invariant forall a :: 0 <= a < low ==> keys[index[a]] != key && le(keys[index[a]], key)
      invariant forall a :: high <= a < |index| ==> le(key, keys[index[a]])
    {
      var mid := (low + high) / 2;
      if keys[index[mid]] != key && le(keys[index[mid]], key) {
        forall a | 0 <= a < mid + 1 ensures keys[index[a]] != key && le(keys[index[a]], key) {
          assert a == mid || Before(le, keys, index[a], index[mid]);
        }
        low := mid + 1;
      } else {
        forall a | mid <= a < |index| ensures le(key, keys[index[a]]) {
          assert a == mid || Before(le, keys, index[mid], index[a]);
        }
        high := mid;
      }
    }
    p := low;
  }

  /** The scan of the list: the first position with `key`. */
  function FirstWith<K(==)>(keys: seq<K>, key: K): (r: Option<nat>)
    ensures r.Some? ==> r.value < |keys| && keys[r.value] == key && forall i :: 0 <= i < r.value ==> keys[i] != key
    ensures r.None? ==> forall i :: 0 <= i < |keys| ==> keys[i] != key
  {
    if keys == [] then None
    else if keys[0] == key then Some(0)
    else
      var rest := FirstWith(keys[1..], key);
      if rest.Some? then Some(rest.value + 1) else None
  }

  /** An indexed query finds what the scan finds, duplicates included. */
  method Lookup<K(==, !new)>(le: Order<K>, keys: seq<K>, index: seq<nat>, key: K) returns (r: Option<nat>)
    requires TotalOrder(le) && IsIndex(le, keys, index)
    ensures r == FirstWith(keys, key)
  {
    var p := PartitionPoint(le, keys, index, key);
    r := if p < |index| && keys[index[p]] == key then Some(index[p]) else None;
    var first := FirstWith(keys, key);
    if first.Some? {
      ghost var a := PositionOf(keys, index, first.value);
      assert p <= a;
    }
  }
}
