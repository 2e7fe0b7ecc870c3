/** Suspension points and the joining of control-flow paths (crates/bray-bound-tree/src/asynchronous.rs). */
module SuspensionPoints {
  import opened Canonical
  import opened Options
  import opened Sequences

  type Site(==, !new)
  type SuspensionKind(==, !new)
  type ContractId(==, !new)
  type Call(==, !new)
  type Retained(==, !new)
  type Access(==, !new)

  /** The part of a suspension point that all paths to it must share. */
  datatype Key = Key(occurrence: Site, kind: SuspensionKind, contract: Option<ContractId>)

  /** What one path contributes. */
  datatype Lists = Lists(calls: seq<Call>, retained: seq<Retained>, broadcast: seq<Access>, recovered: bool)

  /** The three element orders. */
  datatype Orders = Orders(
    call: (Call, Call) -> bool,
    retained: (Retained, Retained) -> bool,
    access: (Access, Access) -> bool)

  ghost predicate Total(o: Orders) {
    TotalOrder(o.call) && TotalOrder(o.retained) && TotalOrder(o.access)
  }

  function Normalized(o: Orders, l: Lists): Lists {
    Lists(SortedUnique(o.call, l.calls), SortedUnique(o.retained, l.retained),
          SortedUnique(o.access, l.broadcast), l.recovered)
  }

  function Chained(a: Lists, b: Lists): Lists {
    Lists(a.calls + b.calls, a.retained + b.retained, a.broadcast + b.broadcast, a.recovered || b.recovered)
  }

  function Merge(o: Orders, a: Lists, b: Lists): Lists {
    Normalized(o, Chained(a, b))
  }

  class SuspensionPoint {
    const key: Key
    var lists: Lists

    constructor (o: Orders, key: Key, lists: Lists)
      ensures this.key == key && this.lists == Normalized(o, lists)
    {
      this.key, this.lists := key, Normalized(o, lists);
    }

    /** `merge_path`; the source demands paths to the same suspension. */
    method MergePath(o: Orders, other: SuspensionPoint)
      requires key == other.key
      modifies this
      ensures lists == Merge(o, old(lists), old(other.lists))
      ensures Total(o) ==> Normal(o, lists)
      ensures Total(o) ==> forall f :: Has(lists, f) <==> Has(old(lists), f) || Has(old(other.lists), f)
    {
      ghost var mine, theirs := lists, other.lists;
      if Total(o) {
        NormalizedNormal(o, Chained(mine, theirs));
        forall f ensures Has(Merge(o, mine, theirs), f) <==> Has(mine, f) || Has(theirs, f) {
          MergeFacts(o, mine, theirs, f);
        }
      }
      lists := Normalized(o, Chained(lists, other.lists));
    }
  }

  // ------------------------------------------------------------------ joining many paths

  /** One fact a suspension point may carry. */
  datatype Fact = Calls(call: Call) | Retains(subject: Retained) | Broadcasts(access: Access) | Recovered

  ghost predicate Has(l: Lists, f: Fact) {
    match f
    case Calls(c) => c in Elements(l.calls)
    case Retains(r) => r in Elements(l.retained)
    case Broadcasts(a) => a in Elements(l.broadcast)
    case Recovered => l.recovered
  }

  ghost predicate SameFacts(a: Lists, b: Lists) {
    forall f :: Has(a, f) <==> Has(b, f)
  }

  /** Joined with each path in turn. */
  function JoinAll(o: Orders, first: Lists, paths: seq<Lists>): Lists
    decreases |paths|
  {
    if paths == [] then first else JoinAll(o, Merge(o, first, paths[0]), paths[1..])
  }

  lemma MergeFacts(o: Orders, a: Lists, b: Lists, f: Fact)
    requires Total(o)
    ensures Has(Merge(o, a, b), f) <==> Has(a, f) || Has(b, f)
  {
    var c := Chained(a, b);
    SortedUniqueSound(o.call, c.calls);
    SortedUniqueSound(o.retained, c.retained);
    SortedUniqueSound(o.access, c.broadcast);
  }

  /** A joined point carries a fact exactly when some path to it does. */
  lemma {:induction false} JoinFacts(o: Orders, first: Lists, paths: seq<Lists>, f: Fact)
    requires Total(o)
    ensures Has(JoinAll(o, first, paths), f) <==> Has(first, f) || exists p :: p in paths && Has(p, f)
    decreases |paths|
  {
    if paths != [] {
      MergeFacts(o, first, paths[0], f);
      JoinFacts(o, Merge(o, first, paths[0]), paths[1..], f);
      assert paths == [paths[0]] + paths[1..];
    }
  }

  /** Normal form is determined by the facts. */
  lemma NormalizedByFacts(o: Orders, a: Lists, b: Lists)
    requires Total(o) && SameFacts(a, b)
    ensures Normalized(o, a) == Normalized(o, b)
  {
    forall c ensures c in Elements(a.calls) <==> c in Elements(b.calls) {
      assert Has(a, Calls(c)) <==> Has(b, Calls(c));
    }
    forall r ensures r in Elements(a.retained) <==> r in Elements(b.retained) {
      assert Has(a, Retains(r)) <==> Has(b, Retains(r));
    }
    forall x ensures x in Elements(a.broadcast) <==> x in Elements(b.broadcast) {
      assert Has(a, Broadcasts(x)) <==> Has(b, Broadcasts(x));
    }
    assert Has(a, Recovered) <==> Has(b, Recovered);
    SortedUniqueCanonical(o.call, a.calls, b.calls);
    SortedUniqueCanonical(o.retained, a.retained, b.retained);
    SortedUniqueCanonical(o.access, a.broadcast, b.broadcast);
  }

  ghost predicate Normal(o: Orders, l: Lists) {
    Normalized(o, l) == l
  }

  lemma NormalizedNormal(o: Orders, l: Lists)
    requires Total(o)
    ensures Normal(o, Normalized(o, l))
  {
    SortedUniqueSound(o.call, l.calls);
    SortedUniqueSound(o.retained, l.retained);
    SortedUniqueSound(o.access, l.broadcast);
    SortedUniqueCanonical(o.call, l.calls, Normalized(o, l).calls);
    SortedUniqueCanonical(o.retained, l.retained, Normalized(o, l).retained);
    SortedUniqueCanonical(o.access, l.broadcast, Normalized(o, l).broadcast);
  }

  lemma {:induction false} JoinNormal(o: Orders, first: Lists, paths: seq<Lists>)
    requires Total(o) && Normal(o, first)
    ensures Normal(o, JoinAll(o, first, paths))
    decreases |paths|
  {
    if paths != [] {
      NormalizedNormal(o, Chained(first, paths[0]));
      JoinNormal(o, Merge(o, first, paths[0]), paths[1..]);
    }
  }

  /** The order in which the analysis meets the paths, and how often it meets one, does not matter. */
  lemma JoinOrderIrrelevant(o: Orders, a: seq<Lists>, b: seq<Lists>)
    requires Total(o) && a != [] && b != [] && Elements(a) == Elements(b)
    requires Normal(o, a[0]) && Normal(o, b[0])
    ensures JoinAll(o, a[0], a[1..]) == JoinAll(o, b[0], b[1..])
  {
    var x, y := JoinAll(o, a[0], a[1..]), JoinAll(o, b[0], b[1..]);
    forall f ensures Has(x, f) <==> Has(y, f) {
      SomePath(o, a, f);
      SomePath(o, b, f);
      assert forall p :: (p in a) == (p in Elements(a)) && (p in b) == (p in Elements(b));
    }
    NormalizedByFacts(o, x, y);
    JoinNormal(o, a[0], a[1..]);
    JoinNormal(o, b[0], b[1..]);
  }

  lemma SomePath(o: Orders, paths: seq<Lists>, f: Fact)
    requires Total(o) && paths != []
    ensures Has(JoinAll(o, paths[0], paths[1..]), f) <==> exists p :: p in paths && Has(p, f)
  {
    var first, rest := paths[0], paths[1..];
    JoinFacts(o, first, rest, f);
    assert forall p :: p in paths <==> p == first || p in rest by { assert paths == [first] + rest; }
  }
}
