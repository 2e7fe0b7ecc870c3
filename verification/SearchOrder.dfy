/**
  * The order in which a search along reverse edges lists its members when it marks vertices as it stacks them
  * and takes them from the end where it puts them (crates/bray-base/src/graph.rs). `into(w)` lists the
  * sources of the edges into `w` in the order in which the search meets them.
  */
module SearchOrder {
  import opened Reachability
  import opened Sequences

  /** The first position of `x`, or the length. */
  ghost function First<N(!new)>(s: seq<N>, x: N): (k: nat)
    ensures k <= |s| && (k < |s| ==> s[k] == x) && forall i :: 0 <= i < k ==> s[i] != x
  {
    if s == [] || s[0] == x then 0 else 1 + First(s[1..], x)
  }

  /** The first member that `x` has an edge to, by position, or the length. */
  ghost function Finder<N(!new)>(g: Graph<N>, members: seq<N>, x: N): (k: nat)
    ensures k <= |members| && (k < |members| ==> members[k] in g(x))
    ensures forall i :: 0 <= i < k ==> members[i] !in g(x)
  {
    if members == [] || members[0] in g(x) then 0 else 1 + Finder(g, members[1..], x)
  }

  ghost predicate Found<N(!new)>(g: Graph<N>, members: seq<N>, x: N) {
    Finder(g, members, x) < |members|
  }

  lemma FinderStays<N(!new)>(g: Graph<N>, members: seq<N>, longer: seq<N>, x: N)
    requires Found(g, members, x) && members <= longer
    ensures Finder(g, longer, x) == Finder(g, members, x)
  {
    assert forall i :: 0 <= i < |members| ==> longer[i] == members[i];
  }

  /** `x` was stacked before `y`: by an earlier member, or by the same one and met before it. */
  ghost predicate StackedBefore<N(!new)>(g: Graph<N>, into: Graph<N>, members: seq<N>, x: N, y: N) {
    var i, j := Finder(g, members, x), Finder(g, members, y);
    || i < j
    || (i == j < |members| && First(into(members[i]), x) < First(into(members[i]), y))
  }

  lemma StackedBeforeStays<N(!new)>(g: Graph<N>, into: Graph<N>, members: seq<N>, longer: seq<N>, x: N, y: N)
    requires Found(g, members, x) && Found(g, members, y) && members <= longer
    ensures StackedBefore(g, into, members, x, y) <==> StackedBefore(g, into, longer, x, y)
  {
    FinderStays(g, members, longer, x);
    FinderStays(g, members, longer, y);
    assert longer[Finder(g, members, x)] == members[Finder(g, members, x)];
  }

  /**
    * A vertex `x` taken after member `m` was stacked when `m` was taken or later, or was already below it on the
    * stack.
    */
  ghost predicate Waits<N(!new)>(g: Graph<N>, into: Graph<N>, members: seq<N>, m: nat, x: N)
    requires m < |members|
  {
    m <= Finder(g, members, x) || StackedBefore(g, into, members, x, members[m])
  }

  /** Last in, first out. */
  ghost predicate LastInFirstOut<N(!new)>(g: Graph<N>, into: Graph<N>, members: seq<N>) {
    forall m, n :: 0 < m < n < |members| ==> Waits(g, into, members, m, members[n])
  }

  /** Every member after the first has an edge to a member listed before it. */
  ghost predicate AllFound<N(!new)>(g: Graph<N>, members: seq<N>) {
    forall m :: 0 < m < |members| ==> Finder(g, members, members[m]) < m
  }

  // ------------------------------------------------------------------ the search keeps it

  /** The stack is in stacking order and follows the law with all members. */
  ghost predicate Ordered<N(!new)>(g: Graph<N>, into: Graph<N>, members: seq<N>, stack: seq<N>) {
    && (forall x :: x in stack ==> Found(g, members, x))
    && (forall a, b :: 0 <= a < b < |stack| ==> StackedBefore(g, into, members, stack[a], stack[b]))
    && (forall m, x :: 0 < m < |members| && x in stack ==> Waits(g, into, members, m, x))
  }

  /** What one member stacks: vertices that no earlier member has an edge from, in the order they are met. */
  ghost predicate Fresh<N(!new)>(g: Graph<N>, into: Graph<N>, members: seq<N>, node: N, added: seq<N>) {
    && (forall x :: x in added ==> node in g(x) && !Found(g, members, x))
    && (forall a, b :: 0 <= a < b < |added| ==> First(into(node), added[a]) < First(into(node), added[b]))
  }

  lemma FreshFinder<N(!new)>(g: Graph<N>, members: seq<N>, node: N, x: N)
    requires node in g(x) && !Found(g, members, x)
    ensures Finder(g, members + [node], x) == |members|
  {
    assert (members + [node])[|members|] == node;
    assert forall i :: 0 <= i < |members| ==> (members + [node])[i] == members[i];
  }

  lemma WaitsStays<N(!new)>(g: Graph<N>, into: Graph<N>, members: seq<N>, longer: seq<N>, m: nat, x: N)
    requires members <= longer && m < |members| && Found(g, members, members[m]) && Found(g, members, x)
    requires Waits(g, into, members, m, x)
    ensures Waits(g, into, longer, m, x)
  {
    FinderStays(g, members, longer, x);
    StackedBeforeStays(g, into, members, longer, x, members[m]);
  }

  /** The new member follows the law with those before it. */
  lemma LawMore<N(!new)>(g: Graph<N>, into: Graph<N>, members: seq<N>, node: N)
    requires AllFound(g, members) && LastInFirstOut(g, into, members)
    requires members != [] ==> Found(g, members, node)
    requires forall m :: 0 < m < |members| ==> Waits(g, into, members, m, node)
    ensures AllFound(g, members + [node]) && LastInFirstOut(g, into, members + [node])
  {
    var longer := members + [node];
    forall m | 0 < m < |longer| ensures Finder(g, longer, longer[m]) < m {
      FinderStays(g, members, longer, longer[m]);
    }
    forall m, n | 0 < m < n < |longer| ensures Waits(g, into, longer, m, longer[n]) {
      assert longer[m] == members[m] && Found(g, members, members[m]);
      assert n < |members| ==> longer[n] == members[n] && Found(g, members, members[n]);
      WaitsStays(g, into, members, longer, m, longer[n]);
    }
  }

  /** What stays on the stack follows the law with all members. */
  lemma OrderedPop<N(!new)>(g: Graph<N>, into: Graph<N>, members: seq<N>, below: seq<N>, node: N)
    requires AllFound(g, members) && Ordered(g, into, members, below + [node])
    ensures Ordered(g, into, members + [node], below)
  {
    var longer, stack := members + [node], below + [node];
    assert forall a :: 0 <= a < |below| ==> stack[a] == below[a] && stack[|below|] == node;
    forall x | x in below ensures Found(g, longer, x) {
      assert x in stack;
      FinderStays(g, members, longer, x);
    }
    forall a, b | 0 <= a < b < |below| ensures StackedBefore(g, into, longer, below[a], below[b]) {
      assert stack[a] in stack && stack[b] in stack;
      StackedBeforeStays(g, into, members, longer, below[a], below[b]);
    }
    forall m, x | 0 < m < |longer| && x in below ensures Waits(g, into, longer, m, x) {
      assert x in stack && node in stack;
      if m < |members| {
        assert Found(g, members, members[m]);
        WaitsStays(g, into, members, longer, m, x);
      } else {
        var a :| 0 <= a < |below| && below[a] == x;
        assert StackedBefore(g, into, members, stack[a], stack[|below|]);
        StackedBeforeStays(g, into, members, longer, x, node);
      }
    }
  }

  /** Stacking keeps the order. */
  lemma OrderedPush<N(!new)>(g: Graph<N>, into: Graph<N>, members: seq<N>, node: N, below: seq<N>, added: seq<N>)
    requires Ordered(g, into, members + [node], below) && Fresh(g, into, members, node, added)
    requires forall x :: x in below ==> Found(g, members, x)
    ensures Ordered(g, into, members + [node], below + added)
  {
    var longer, stack := members + [node], below + added;
    forall x | x in added ensures Finder(g, longer, x) == |members| {
      FreshFinder(g, members, node, x);
    }
    forall a, b | 0 <= a < b < |stack| ensures StackedBefore(g, into, longer, stack[a], stack[b]) {
      if a < |below| {
        assert stack[a] == below[a] && below[a] in below;
        FinderStays(g, members, longer, below[a]);
        assert b >= |below| ==> stack[b] == added[b - |below|];
      } else {
        assert stack[a] == added[a - |below|] && stack[b] == added[b - |below|];
        assert longer[|members|] == node;
      }
    }
  }

  /** What the search keeps between two turns. */
  ghost predicate Searching<N(!new)>(g: Graph<N>, into: Graph<N>, root: N, members: seq<N>, stack: seq<N>) {
    && AllFound(g, members) && LastInFirstOut(g, into, members)
    && if members == [] then stack == [root] else members[0] == root && Ordered(g, into, members, stack)
  }

  /** One turn: the top of the stack becomes a member and stacks its fresh predecessors. */
  lemma SearchingMore<N(!new)>(g: Graph<N>, into: Graph<N>, root: N, members: seq<N>, below: seq<N>, node: N,
                               added: seq<N>)
    requires Searching(g, into, root, members, below + [node]) && Fresh(g, into, members, node, added)
    ensures Searching(g, into, root, members + [node], below + added)
  {
    if members == [] {
      assert below == [] && node == root by { assert (below + [node])[|below|] == node; }
    } else {
      assert node in below + [node];
      assert forall x :: x in below ==> x in below + [node];
      OrderedPop(g, into, members, below, node);
    }
    LawMore(g, into, members, node);
    OrderedPush(g, into, members, node, below, added);
  }

  // ------------------------------------------------------------------ and it leaves one listing only

  /** Two listings of the same members from the same first one are equal. */
  lemma {:induction false} ListingUnique<N(!new)>(g: Graph<N>, into: Graph<N>, a: seq<N>, b: seq<N>, n: nat)
    requires NoDuplicates(a) && NoDuplicates(b) && a != [] && b != [] && a[0] == b[0]
    requires forall x :: x in a <==> x in b
    requires AllFound(g, a) && LastInFirstOut(g, into, a) && AllFound(g, b) && LastInFirstOut(g, into, b)
    requires n <= |a| && n <= |b|
    ensures a[..n] == b[..n]
  {
    if n > 1 {
      ListingUnique(g, into, a, b, n - 1);
      NextSame(g, into, a, b, n - 1);
    }
  }

  lemma NextSame<N(!new)>(g: Graph<N>, into: Graph<N>, a: seq<N>, b: seq<N>, n: nat)
    requires NoDuplicates(a) && NoDuplicates(b) && forall x :: x in a <==> x in b
    requires AllFound(g, a) && LastInFirstOut(g, into, a) && AllFound(g, b) && LastInFirstOut(g, into, b)
    requires 0 < n < |a| && n < |b| && a[..n] == b[..n]
    ensures a[n] == b[n]
  {
    if a[n] != b[n] {
      NextBefore(g, into, a, b, n);
      NextBefore(g, into, b, a, n);
      assert false;
    }
  }

  /** What the other listing has next was stacked before what this one has next. */
  lemma NextBefore<N(!new)>(g: Graph<N>, into: Graph<N>, a: seq<N>, b: seq<N>, n: nat)
    requires NoDuplicates(b) && forall x :: x in b ==> x in a
    requires AllFound(g, a) && LastInFirstOut(g, into, a) && AllFound(g, b)
    requires 0 < n < |a| && n < |b| && a[..n] == b[..n] && a[n] != b[n]
    ensures StackedBefore(g, into, a[..n], b[n], a[n])
  {
    var x, y, common := a[n], b[n], a[..n];
    assert y in a;
    var q :| 0 <= q < |a| && a[q] == y;
    assert forall i :: 0 <= i < n ==> b[i] == common[i] == a[i] && b[i] != y;
    assert q > n;
    assert Waits(g, into, a, n, a[q]);
    assert Found(g, common, y) by { assert b[Finder(g, b, y)] == common[Finder(g, b, y)]; }
    assert Found(g, common, x) by { assert a[Finder(g, a, x)] == common[Finder(g, a, x)]; }
    FinderStays(g, common, a, y);
    StackedBeforeStays(g, into, common, a, y, x);
  }
}
