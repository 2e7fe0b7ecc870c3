/**
  * What `strongly_connected_components` (crates/bray-base/src/graph.rs) guarantees leaves one answer only:
  * the order of components and of their members is that of the depth-first walk, edge by edge.
  */
module ComponentUniqueness {
  import opened DepthFirst
  import opened GraphAlgorithms
  import opened Reachability
  import opened SearchOrder
  import opened Sequences

  /** The postconditions of the search that fix its answer. */
  ghost predicate Answers<N(!new)>(g: Graph<N>, roots: seq<N>, order: seq<N>, into: Graph<N>, components: seq<seq<N>>)
  {
    && (forall x :: InPrefix(components, |components|, x) <==> ReachedFrom(g, roots, x))
    && (forall c :: 0 <= c < |components| ==>
          components[c] != [] && NoDuplicates(components[c]) && Searched(g, into, components[c]))
    && Grouped(g, components) && LedByFinish(order, components)
  }

  lemma OnePlace<N(!new)>(g: Graph<N>, components: seq<seq<N>>, c: nat, d: nat, x: N)
    requires Grouped(g, components) && c < |components| && d < |components| && x in components[c] && x in components[d]
    ensures c == d
  {
    ReachesSelf(g, x);
    assert Mutual(g, x, x);
  }

  /** A vertex of one answer is in the other, and not in what they have in common unless it is there in both. */
  lemma PlaceIn<N(!new)>(g: Graph<N>, roots: seq<N>, order: seq<N>, into: Graph<N>, a: seq<seq<N>>, b: seq<seq<N>>,
                         n: nat, x: N)
    returns (d: nat)
    requires Answers(g, roots, order, into, a) && Answers(g, roots, order, into, b)
    requires n < |a| && n <= |b| && a[..n] == b[..n] && x in a[n]
    ensures n <= d < |b| && x in b[d]
  {
    assert InPrefix(a, |a|, x) && InPrefix(b, |b|, x);
    d :| 0 <= d < |b| && x in b[d];
    if d < n {
      assert a[d] == a[..n][d] == b[..n][d] == b[d];
      OnePlace(g, a, d, n, x);
    }
  }

  lemma LeadersAgree<N(!new)>(g: Graph<N>, roots: seq<N>, order: seq<N>, into: Graph<N>, a: seq<seq<N>>,
                              b: seq<seq<N>>, n: nat)
    requires Answers(g, roots, order, into, a) && Answers(g, roots, order, into, b)
    requires n < |a| && n < |b| && a[..n] == b[..n]
    ensures a[n][0] == b[n][0]
  {
    var p :| Led(order, a, p);
    var q :| Led(order, b, q);
    var d := PlaceIn(g, roots, order, into, a, b, n, a[n][0]);
    var e := PlaceIn(g, roots, order, into, b, a, n, b[n][0]);
    assert p[n] <= q[d] <= q[n] <= p[e] <= p[n];
  }

  lemma MembersAgree<N(!new)>(g: Graph<N>, roots: seq<N>, order: seq<N>, into: Graph<N>, a: seq<seq<N>>,
                              b: seq<seq<N>>, n: nat, x: N)
    requires Answers(g, roots, order, into, a) && Answers(g, roots, order, into, b)
    requires n < |a| && n < |b| && a[n][0] == b[n][0] && x in a[n]
    ensures x in b[n]
  {
    assert a[n][0] in a[n] && b[n][0] in b[n];
    assert Mutual(g, a[n][0], x);
    assert InPrefix(a, |a|, x) && InPrefix(b, |b|, x);
    var d :| 0 <= d < |b| && x in b[d];
  }

  lemma NextComponent<N(!new)>(g: Graph<N>, roots: seq<N>, order: seq<N>, into: Graph<N>, a: seq<seq<N>>,
                               b: seq<seq<N>>, n: nat)
    requires Answers(g, roots, order, into, a) && Answers(g, roots, order, into, b)
    requires n < |a| && n < |b| && a[..n] == b[..n]
    ensures a[n] == b[n]
  {
    LeadersAgree(g, roots, order, into, a, b, n);
    forall x ensures x in a[n] <==> x in b[n] {
      if x in a[n] { MembersAgree(g, roots, order, into, a, b, n, x); }
      if x in b[n] { MembersAgree(g, roots, order, into, b, a, n, x); }
    }
    assert Elements(a[n]) == Elements(b[n]);
    NoDuplicatesSize(a[n]);
    NoDuplicatesSize(b[n]);
    ListingUnique(g, into, a[n], b[n], |a[n]|);
    assert a[n][..|a[n]|] == a[n] && b[n][..|a[n]|] == b[n];
  }

  lemma {:induction false} PrefixesAgree<N(!new)>(g: Graph<N>, roots: seq<N>, order: seq<N>, into: Graph<N>,
                                                  a: seq<seq<N>>, b: seq<seq<N>>, n: nat)
    requires Answers(g, roots, order, into, a) && Answers(g, roots, order, into, b)
    requires n <= |a| && n <= |b|
    ensures a[..n] == b[..n]
  {
    if n > 0 {
      PrefixesAgree(g, roots, order, into, a, b, n - 1);
      NextComponent(g, roots, order, into, a, b, n - 1);
    }
  }

  /** Two answers to the same question are the same lists in the same order. */
  lemma AnswerUnique<N(!new)>(g: Graph<N>, roots: seq<N>, order: seq<N>, into: Graph<N>, a: seq<seq<N>>,
                              b: seq<seq<N>>)
    requires Answers(g, roots, order, into, a) && Answers(g, roots, order, into, b)
    ensures a == b
  {
    var n := if |a| <= |b| then |a| else |b|;
    PrefixesAgree(g, roots, order, into, a, b, n);
    if n < |a| {
      var _ := PlaceIn(g, roots, order, into, a, b, n, a[n][0]);
    }
    if n < |b| {
      var _ := PlaceIn(g, roots, order, into, b, a, n, b[n][0]);
    }
  }

  // ------------------------------------------------------------------ two cycles through one vertex

  /** Vertex 0 with the successors 1 and 2, which both lead back. */
  function Petals(v: nat): seq<nat> {
    if v == 0 then [1, 2] else if v <= 2 then [0] else []
  }

  lemma PetalsClosed(universe: set<nat>)
    requires universe == {0, 1, 2}
    ensures Closed(Petals, universe)
  {
  }

  /** A vertex whose only successor has been visited. */
  lemma PetalVisited(universe: set<nat>, v: nat, s: Walk<nat>)
    requires universe == {0, 1, 2} && Inside(Petals, universe, s) && v in {1, 2} && v !in s.visited && 0 in s.visited
    ensures Descend(Petals, universe, v, s)
            == Walk(s.visited + {v}, s.order + [v], s.edges + [Edge(v, 0)])
  {
    var t := s.(visited := s.visited + {v});
    assert Petals(v) == [0];
    assert Children(Petals, universe, v, 1, t.(edges := t.edges + [Edge(v, 0)])) == t.(edges := t.edges + [Edge(v, 0)]);
    assert Children(Petals, universe, v, 0, t) == t.(edges := t.edges + [Edge(v, 0)]);
  }

  lemma PetalsWalked(universe: set<nat>)
    requires universe == {0, 1, 2} && Closed(Petals, universe)
    ensures FromRoots(Petals, universe, [0], 1)
            == Walk({0, 1, 2}, [1, 2, 0], [Edge(0, 1), Edge(1, 0), Edge(0, 2), Edge(2, 0)])
  {
    var roots: seq<nat> := [0];
    var s0: Walk<nat> := Walk({0}, [], []);
    var s1: Walk<nat> := Walk({0, 1}, [1], [Edge(0, 1), Edge(1, 0)]);
    var s2: Walk<nat> := Walk({0, 1, 2}, [1, 2], [Edge(0, 1), Edge(1, 0), Edge(0, 2), Edge(2, 0)]);
    var e1, e2 := s0.(edges := s0.edges + [Edge(0, 1)]), s1.(edges := s1.edges + [Edge(0, 2)]);
    PetalVisited(universe, 1, e1);
    PetalVisited(universe, 2, e2);
    assert e1.edges + [Edge(1, 0)] == s1.edges && e1.order + [1] == s1.order && e1.visited + {1} == s1.visited;
    assert e2.edges + [Edge(2, 0)] == s2.edges && e2.order + [2] == s2.order && e2.visited + {2} == s2.visited;
    assert Descend(Petals, universe, 1, e1) == s1 && Descend(Petals, universe, 2, e2) == s2;
    assert Children(Petals, universe, 0, 2, s2) == s2;
    assert Children(Petals, universe, 0, 1, s1) == s2;
    assert Children(Petals, universe, 0, 0, s0) == s2;
    var start: Walk<nat> := Walk({}, [], []);
    assert start.(visited := start.visited + {0}) == s0;
    assert FromRoots(Petals, universe, roots, 0) == start;
  }

  /** All three vertices are on a cycle through 0. */
  lemma PetalsMutual(x: nat, y: nat)
    ensures x in {0, 1, 2} ==> (Reaches(Petals, x, y) <==> y in {0, 1, 2}) && (Mutual(Petals, x, y) <==> y in {0, 1, 2})
  {
    PetalsClosed({0, 1, 2});
    if x in {0, 1, 2} && y in {0, 1, 2} {
      PetalsReach(x, y);
      PetalsReach(y, x);
    } else if x in {0, 1, 2} && Reaches(Petals, x, y) {
      ClosedReaches<nat>(Petals, {0, 1, 2}, x, y);
      assert false;
    }
  }

  lemma PetalsReach(x: nat, y: nat)
    requires x in {0, 1, 2} && y in {0, 1, 2}
    ensures Reaches(Petals, x, y)
  {
    if x == 0 { ReachesSelf<nat>(Petals, 0); } else { ReachesEdge<nat>(Petals, x, 0); }
    if y == 0 { ReachesSelf<nat>(Petals, 0); } else { ReachesEdge<nat>(Petals, 0, y); }
    ReachesTransitive<nat>(Petals, x, 0, y);
  }

  lemma PetalsSearched(into: Graph<nat>, c: seq<nat>)
    requires c == [0, 2, 1] && into(0) == [1, 2]
    ensures Searched(Petals, into, c)
  {
    assert Finder(Petals, c, 1) == 0 && Finder(Petals, c, 2) == 0 by { assert c[0] in Petals(1) && c[0] in Petals(2); }
    assert First(into(0), 1) == 0 && First(into(0), 2) == 1;
    forall m, n | 0 < m < n < |c| ensures Waits(Petals, into, c, m, c[n]) {
      assert m == 1 && n == 2;
    }
  }

  lemma PetalsInto(edges: seq<Edge<nat>>)
    requires edges == [Edge(0, 1), Edge(1, 0), Edge(0, 2), Edge(2, 0)]
    ensures Sources(edges, 0) == [1, 2]
  {
    assert Sources(edges[..0], 0) == [];
    assert edges[..1][..0] == edges[..0] && Sources(edges[..1], 0) == [];
    assert edges[..2][..1] == edges[..1] && Sources(edges[..2], 0) == [1];
    assert edges[..3][..2] == edges[..2] && Sources(edges[..3], 0) == [1];
  }

  lemma PetalsAnswer(order: seq<nat>, into: Graph<nat>, components: seq<seq<nat>>)
    requires order == [1, 2, 0] && into(0) == [1, 2] && components == [[0, 2, 1]]
    ensures Answers(Petals, [0], order, into, components)
  {
    forall x, y { PetalsMutual(x, y); }
    forall x ensures InPrefix(components, |components|, x) <==> ReachedFrom(Petals, [0], x) {
      assert ReachedFrom(Petals, [0], x) <==> Reaches(Petals, [0][0], x);
      assert InPrefix(components, |components|, x) <==> x in components[0];
    }
    PetalsSearched(into, components[0]);
    assert Led(order, components, [2]);
  }

  /** The last successor read is the first to be taken: the search lists 0, then 2, then 1. */
  method PetalMembers() returns (components: seq<seq<nat>>)
    ensures components == [[0, 2, 1]]
  {
    ghost var universe: set<nat> := {0, 1, 2};
    ghost var roots: seq<nat> := [0];
    PetalsClosed(universe);
    components := StronglyConnectedComponents([0], Petals, universe);
    ghost var walk, into := FromRoots(Petals, universe, roots, 1), ReadInto(Petals, universe, roots);
    PetalsWalked(universe);
    PetalsInto(walk.edges);
    PetalsAnswer(walk.order, into, [[0, 2, 1]]);
    AnswerUnique(Petals, roots, walk.order, into, components, [[0, 2, 1]]);
  }
}
