/**
  * The order of components and members that `strongly_connected_components`
  * (crates/bray-base/src/graph.rs) produces, against its documentation: components and members are said
  * to follow the supplied root and successor order. The premises are postconditions of the search.
  */
module ComponentOrder {
  import opened GraphAlgorithms
  import opened Reachability
  import opened Sequences

  /** `f` is the first root that reaches `x`. */
  ghost predicate FirstRoot<N(!new)>(g: Graph<N>, roots: seq<N>, f: nat, x: N) {
    f < |roots| && Reaches(g, roots[f], x) && !ReachedFrom(g, roots[..f], x)
  }

  lemma ReachedByPrefix<N(!new)>(g: Graph<N>, roots: seq<N>, k: nat, x: N)
    requires k <= |roots|
    ensures ReachedFrom(g, roots[..k], x) <==> exists i :: 0 <= i < k && Reaches(g, roots[i], x)
  {
    if ReachedFrom(g, roots[..k], x) {
      var r :| r in roots[..k] && Reaches(g, r, x);
      var i :| 0 <= i < k && roots[i] == r;
    }
    if i :| 0 <= i < k && Reaches(g, roots[i], x) {
      assert roots[..k][i] == roots[i];
    }
  }

  /**
    * The first root to reach a vertex decides where its component goes, and later roots go first. Within
    * what one root is the first to reach, that root's own component comes first.
    */
  lemma FirstRootDecides<N(!new)>(g: Graph<N>, roots: seq<N>, components: seq<seq<N>>,
                                  f: nat, x: N, c: nat, h: nat, y: N, d: nat)
    requires WalksForward(g, components) && RootsBackward(g, roots, components)
    requires c < |components| && x in components[c] && FirstRoot(g, roots, f, x)
    requires d < |components| && y in components[d] && FirstRoot(g, roots, h, y)
    requires f == h ==> x == roots[f]
    ensures c <= d <==> h <= f
  {
    if f < h {
      ReachedByPrefix(g, roots, h, x);
      assert ReachedFrom(g, roots[..h], x);
    } else if h < f {
      ReachedByPrefix(g, roots, f, y);
      assert ReachedFrom(g, roots[..f], y);
    }
  }

  /** Some root before `roots[j]`, other than `roots[i]`, reaches it. */
  ghost predicate ReachedByOther<N(!new)>(g: Graph<N>, roots: seq<N>, i: nat, j: nat)
    requires j < |roots|
  {
    exists k :: 0 <= k < j && k != i && Reaches(g, roots[k], roots[j])
  }

  /** Where no other earlier root interferes, two roots keep their order exactly when the first reaches the second. */
  lemma RootOrderExact<N(!new)>(g: Graph<N>, roots: seq<N>, components: seq<seq<N>>, i: nat, j: nat, c: nat, d: nat)
    requires WalksForward(g, components) && RootsBackward(g, roots, components)
    requires i < j < |roots| && !ReachedByOther(g, roots, i, j)
    requires c < |components| && d < |components| && roots[i] in components[c] && roots[j] in components[d]
    ensures c <= d <==> Reaches(g, roots[i], roots[j])
  {
    ReachesSelf(g, roots[i]);
    ReachedByPrefix(g, roots, j, roots[i]);
    ReachedByPrefix(g, roots, j, roots[j]);
  }

  /** The documented order: a component that holds an earlier root is not later. */
  ghost predicate FollowsRoots<N(!new)>(roots: seq<N>, components: seq<seq<N>>) {
    forall i, j, c, d :: 0 <= i < j < |roots| && 0 <= c < |components| && 0 <= d < |components| ==>
      (roots[i] in components[c] && roots[j] in components[d] ==> c <= d)
  }

  /** For any number of roots the documented order needs the first root to reach all others. */
  lemma FollowingNeedsFirst<N(!new)>(g: Graph<N>, roots: seq<N>, components: seq<seq<N>>, j: nat)
    requires RootsBackward(g, roots, components) && FollowsRoots(roots, components) && j < |roots|
    requires forall x :: InPrefix(components, |components|, x) <==> ReachedFrom(g, roots, x)
    ensures Reaches(g, roots[0], roots[j])
  {
    ReachesSelf(g, roots[0]);
    ReachesSelf(g, roots[j]);
    assert InPrefix(components, |components|, roots[0]) && InPrefix(components, |components|, roots[j]);
    var c :| 0 <= c < |components| && roots[0] in components[c];
    var d :| 0 <= d < |components| && roots[j] in components[d];
    ReachedByPrefix(g, roots, 1, roots[0]);
    ReachedByPrefix(g, roots, 1, roots[j]);
  }

  /** Each root reaches the next. */
  ghost predicate RootChain<N(!new)>(g: Graph<N>, roots: seq<N>) {
    forall i, j :: 0 <= i && j == i + 1 < |roots| ==> Reaches(g, roots[i], roots[j])
  }

  /** That is enough for the documented order. */
  lemma ChainFollows<N(!new)>(g: Graph<N>, roots: seq<N>, components: seq<seq<N>>)
    requires WalksForward(g, components) && RootChain(g, roots)
    ensures FollowsRoots(roots, components)
  {
    forall i, j | 0 <= i < j < |roots| ensures Reaches(g, roots[i], roots[j]) {
      ChainReaches(g, roots, i, j);
    }
  }

  lemma {:induction false} ChainReaches<N(!new)>(g: Graph<N>, roots: seq<N>, i: nat, j: nat)
    requires i < j < |roots| && RootChain(g, roots)
    ensures Reaches(g, roots[i], roots[j])
    decreases j
  {
    if i + 1 < j {
      ChainReaches(g, roots, i, j - 1);
      ReachesTransitive(g, roots[i], roots[j - 1], roots[j]);
    }
  }

  /** For two roots that is all it needs. */
  lemma TwoRootsFollow<N(!new)>(g: Graph<N>, roots: seq<N>, components: seq<seq<N>>)
    requires |roots| == 2 && WalksForward(g, components) && RootsBackward(g, roots, components)
    requires forall x :: InPrefix(components, |components|, x) <==> ReachedFrom(g, roots, x)
    ensures FollowsRoots(roots, components) <==> Reaches(g, roots[0], roots[1])
  {
    if FollowsRoots(roots, components) {
      FollowingNeedsFirst(g, roots, components, 1);
    }
  }

  // ------------------------------------------------------------------ members

  /** The documented order of members: each one after the first is a successor of one listed before it. */
  ghost predicate ForwardListed<N(!new)>(g: Graph<N>, component: seq<N>) {
    forall m :: 0 < m < |component| ==> exists l :: 0 <= l < m && component[m] in g(component[l])
  }

  /** Up to two members it holds; for every greater number it can fail (`ForwardGuaranteed`). */
  lemma PairForward<N(!new)>(g: Graph<N>, component: seq<N>)
    requires IsComponent(g, component) && |component| <= 2
    ensures ForwardListed(g, component)
  {
    if |component| == 2 {
      var a, b := component[0], component[1];
      assert Mutual(g, a, b);
      var u, w := Crossing(g, a, b, iset{a});
      ReachesEdge(g, a, w);
      ReachesTransitive(g, w, b, a);
      assert Mutual(g, a, w);
    }
  }

  // ------------------------------------------------------------------ concrete inputs

  lemma NoEdgesReach(g: Graph<nat>, x: nat, y: nat)
    requires forall v :: g(v) == []
    ensures Reaches(g, x, y) <==> x == y
  {
    ReachesSelf(g, x);
    if Reaches(g, x, y) && x != y {
      var u, w := Crossing(g, x, y, iset{x});
      assert false;
    }
  }

  /** A vertex on no cycle is alone in its component. */
  lemma SingletonAt(g: Graph<nat>, components: seq<seq<nat>>, x: nat) returns (c: nat)
    requires InPrefix(components, |components|, x)
    requires Grouped(g, components) && forall c :: 0 <= c < |components| ==> NoDuplicates(components[c])
    requires forall y :: Mutual(g, x, y) ==> y == x
    ensures c < |components| && components[c] == [x]
  {
    c :| 0 <= c < |components| && x in components[c];
    forall m | 0 <= m < |components[c]| ensures components[c][m] == x {
      assert components[c][m] in components[c];
      assert Mutual(g, x, components[c][m]);
    }
    OnlyElement(components[c], x);
  }

  lemma OnlyElement<T>(s: seq<T>, x: T)
    requires s != [] && NoDuplicates(s) && forall m :: 0 <= m < |s| ==> s[m] == x
    ensures s == [x]
  {
    NoDuplicatesSize(s);
    assert s[0] == x && Elements(s) == {x};
  }

  ghost predicate Disjoint(components: seq<seq<nat>>) {
    forall c, d, x :: 0 <= c < d < |components| && x in components[c] ==> x !in components[d]
  }

  lemma OnlyTwo(components: seq<seq<nat>>, c: nat, d: nat)
    requires d < c < |components| && components[c] == [0] && components[d] == [1] && Disjoint(components)
    requires forall e :: 0 <= e < |components| ==> components[e] != [] && components[e][0] in [0, 1]
    ensures components == [[1], [0]]
  {
    OneOfTwo(components, c, d, 0);
    OneOfTwo(components, c, d, 1);
    if |components| > 2 {
      OneOfTwo(components, c, d, 2);
      assert false;
    }
  }

  lemma OneOfTwo(components: seq<seq<nat>>, c: nat, d: nat, e: nat)
    requires d < c < |components| && components[c] == [0] && components[d] == [1] && Disjoint(components)
    requires e < |components| && components[e] != [] && components[e][0] in [0, 1]
    ensures e == c || e == d
  {
    assert components[e][0] in components[e] && components[e][0] in components[if components[e][0] == 0 then c else d];
  }

  /** Two roots without edges: the component of the second comes first, against the documented order. */
  method UnconnectedRoots() returns (components: seq<seq<nat>>)
    ensures components == [[1], [0]]
    ensures !FollowsRoots([0, 1], components)
  {
    var g: Graph<nat> := v => [];
    var roots: seq<nat> := [0, 1];
    components := StronglyConnectedComponents(roots, g, {0, 1});
    forall x, y ensures Reaches(g, x, y) <==> x == y { NoEdgesReach(g, x, y); }
    assert Reaches(g, roots[0], 0) && Reaches(g, roots[1], 1);
    var c := SingletonAt(g, components, 0);
    var d := SingletonAt(g, components, 1);
    assert !ReachedByOther(g, roots, 0, 1);
    RootOrderExact(g, roots, components, 0, 1, c, d);
    forall e | 0 <= e < |components| ensures components[e] != [] && components[e][0] in roots {
      assert InPrefix(components, |components|, components[e][0]);
    }
    OnlyTwo(components, c, d);
  }

  /** Vertex 0 with the successors 1 and 2. */
  function Fork(v: nat): seq<nat> {
    if v == 0 then [1, 2] else []
  }

  /** That the first root reaches all others is not enough: the successors of 0 come out in reverse. */
  method ForkRoots() returns (components: seq<seq<nat>>)
    ensures Reaches(Fork, 0, 1) && Reaches(Fork, 0, 2)
    ensures !FollowsRoots([0, 1, 2], components)
  {
    components := StronglyConnectedComponents([0, 1, 2], Fork, {0, 1, 2});
    ReachesEdge<nat>(Fork, 0, 1);
    ReachesEdge<nat>(Fork, 0, 2);
    ForkReversed([0, 1, 2], components);
  }

  lemma ForkReversed(roots: seq<nat>, components: seq<seq<nat>>)
    requires roots == [0, 1, 2] && SuccessorsBackward(Fork, roots, components)
    requires forall x :: InPrefix(components, |components|, x) <==> ReachedFrom(Fork, roots, x)
    ensures !FollowsRoots(roots, components)
  {
    ReachesSelf<nat>(Fork, 1);
    ReachesSelf<nat>(Fork, 2);
    assert roots[1] in roots && roots[2] in roots;
    assert InPrefix(components, |components|, 1) && InPrefix(components, |components|, 2);
    var c :| 0 <= c < |components| && 1 in components[c];
    var d :| 0 <= d < |components| && 2 in components[d];
    ForkReached(roots);
    assert roots[..0] == [];
    assert ChildrenBackward(Fork, roots, components, 0, 1);
    assert roots[1] in components[c] && roots[2] in components[d];
  }

  lemma ForkReached(roots: seq<nat>)
    requires roots == [0, 1, 2]
    ensures ChildReached(Fork, roots, 0, 1, 1) && !Mutual(Fork, 1, roots[0]) && !ChildReached(Fork, roots, 0, 1, 2)
  {
    ChildUnder<nat>(Fork, 0, 0);
    if Reaches(Fork, 1, 0) {
      var u, w := Crossing<nat>(Fork, 1, 0, iset{1});
      assert false;
    }
    assert roots[..0] == [] && [0] + Fork(0)[..1] == [0, 1];
    NoEdgesReach(Cut(Fork, 0), 0, 2);
    NoEdgesReach(Cut(Fork, 0), 1, 2);
  }

  // ------------------------------------------------------------------ rings

  /** The cycle through 0, ..., n-1. */
  function Ring(n: nat): Graph<nat> {
    v => if v + 1 < n then [v + 1] else if v + 1 == n then [0] else []
  }

  /** Position `i` of a ring listed from 0 against the direction of its edges. */
  function DownAt(n: nat, i: nat): nat
    requires i < n
  {
    if i == 0 then 0 else n - i
  }

  function Down(n: nat): (s: seq<nat>)
    ensures |s| == n && forall i :: 0 <= i < n ==> s[i] == DownAt(n, i)
  {
    seq(n, i requires 0 <= i < n => DownAt(n, i))
  }

  lemma {:induction false} RingForward(n: nat, x: nat, y: nat)
    requires x <= y < n
    ensures Reaches(Ring(n), x, y)
    decreases y - x
  {
    if x == y {
      ReachesSelf<nat>(Ring(n), x);
    } else {
      RingForward(n, x + 1, y);
      ReachesEdge<nat>(Ring(n), x, x + 1);
      ReachesTransitive<nat>(Ring(n), x, x + 1, y);
    }
  }

  lemma RingReaches(n: nat, x: nat, y: nat)
    requires x < n && y < n
    ensures Reaches(Ring(n), x, y)
  {
    RingForward(n, x, n - 1);
    ReachesEdge<nat>(Ring(n), n - 1, 0);
    ReachesTransitive<nat>(Ring(n), x, n - 1, 0);
    RingForward(n, 0, y);
    ReachesTransitive<nat>(Ring(n), x, 0, y);
  }

  lemma RingMutual(n: nat, x: nat, y: nat)
    requires x < n
    ensures Mutual(Ring(n), x, y) <==> y < n
    ensures Reaches(Ring(n), x, y) <==> y < n
  {
    if y < n {
      RingReaches(n, x, y);
      RingReaches(n, y, x);
    } else if Reaches(Ring(n), x, y) {
      ClosedReaches<nat>(Ring(n), Below(n), x, y);
      assert false;
    }
  }

  lemma DownListed(n: nat)
    requires n > 0
    ensures IsComponent(Ring(n), Down(n)) && ReverseListed(Ring(n), Down(n))
    ensures n >= 3 ==> !ForwardListed(Ring(n), Down(n))
  {
    var s := Down(n);
    forall y: nat ensures y in s <==> y < n {
      assert y < n ==> s[if y == 0 then 0 else n - y] == y;
    }
    forall x, y | x in s ensures y in s <==> Mutual(Ring(n), x, y) {
      RingMutual(n, x, y);
    }
    forall m | 0 < m < n ensures Leads(Ring(n), s[m], s[..m]) {
      assert s[..m][m - 1] in Ring(n)(s[m]);
    }
    if n >= 3 {
      assert s[1] == n - 1 && s[1] !in Ring(n)(s[0]);
    }
  }

  /** A component of `n` members as the search lists it. */
  ghost predicate Listing(g: Graph<nat>, c: seq<nat>, n: nat) {
    IsComponent(g, c) && ReverseListed(g, c) && |c| == n
  }

  /** Members in reverse search order are guaranteed to be in successor order exactly up to two of them. */
  lemma ForwardGuaranteed(n: nat)
    ensures n <= 2 <==> forall g: Graph<nat>, c: seq<nat> :: Listing(g, c, n) ==> ForwardListed(g, c)
  {
    if n <= 2 {
      forall g: Graph<nat>, c: seq<nat> | Listing(g, c, n) ensures ForwardListed(g, c) {
        PairForward(g, c);
      }
    } else {
      DownListed(n);
      assert Listing(Ring(n), Down(n), n);
    }
  }

  /** Reverse search order leaves only one listing of a ring. */
  lemma {:induction false} OnlyDown(n: nat, c: seq<nat>, m: nat)
    requires m < n == |c| && NoDuplicates(c) && c[0] == 0 && ReverseListed(Ring(n), c)
    requires forall i :: 0 <= i < n ==> c[i] < n
    ensures forall i :: 0 <= i <= m ==> c[i] == DownAt(n, i)
  {
    if m > 0 {
      OnlyDown(n, c, m - 1);
      assert Leads(Ring(n), c[m], c[..m]);
      NextDown(n, c, m);
    }
  }

  lemma NextDown(n: nat, c: seq<nat>, m: nat)
    requires 0 < m < n == |c| && NoDuplicates(c) && Leads(Ring(n), c[m], c[..m])
    requires forall i :: 0 <= i < m ==> c[i] == DownAt(n, i)
    ensures c[m] == DownAt(n, m)
  {
    var l :| 0 <= l < m && c[..m][l] in Ring(n)(c[m]);
    var before, next := c[l], c[l + 1];
    assert before == DownAt(n, l) && before in Ring(n)(c[m]);
    DownBefore(n, l, before, c[m]);
  }

  lemma DownBefore(n: nat, l: nat, x: nat, y: nat)
    requires l + 1 < n && x == DownAt(n, l) && x in Ring(n)(y)
    ensures y == DownAt(n, l + 1)
  {
  }

  /** A ring searched from 0 comes out against the direction of its edges, whatever its length. */
  method RingMembers(n: nat) returns (components: seq<seq<nat>>)
    requires n > 0
    ensures components == [Down(n)]
    ensures n >= 3 ==> !ForwardListed(Ring(n), components[0])
  {
    components := StronglyConnectedComponents([0], Ring(n), Below(n));
    RingSearched(n, components);
    DownListed(n);
  }

  lemma RingSearched(n: nat, components: seq<seq<nat>>)
    requires n > 0 && Grouped(Ring(n), components) && RootsLead(Ring(n), [0], components) && Disjoint(components)
    requires forall x :: InPrefix(components, |components|, x) <==> ReachedFrom(Ring(n), [0], x)
    requires forall c :: 0 <= c < |components| ==> components[c] != [] && NoDuplicates(components[c])
    requires forall c :: 0 <= c < |components| ==> ReverseListed(Ring(n), components[c])
    ensures components == [Down(n)]
  {
    DistinctLists(components);
    forall x: nat ensures InPrefix(components, |components|, x) <==> x < n {
      RingMutual(n, 0, x);
      assert [0][0] == 0;
    }
    assert InPrefix(components, |components|, 0);
    var c :| 0 <= c < |components| && 0 in components[c];
    RingComponent(n, components, c);
    forall e | 0 <= e < |components| ensures components[e] == Down(n) {
      var y := components[e][0];
      assert InPrefix(components, |components|, y) && y in components[e];
      RingMutual(n, 0, y);
    }
    OnlyElement(components, Down(n));
  }

  lemma DistinctLists(components: seq<seq<nat>>)
    requires Disjoint(components) && forall c :: 0 <= c < |components| ==> components[c] != []
    ensures NoDuplicates(components)
  {
    forall d, e | 0 <= d < e < |components| ensures components[d] != components[e] {
      assert components[d][0] in components[d] && components[d][0] !in components[e];
    }
  }

  lemma RingComponent(n: nat, components: seq<seq<nat>>, c: nat)
    requires n > 0 && Grouped(Ring(n), components) && RootsLead(Ring(n), [0], components)
    requires c < |components| && 0 in components[c] && NoDuplicates(components[c])
    requires forall x: nat :: InPrefix(components, |components|, x) <==> x < n
    requires ReverseListed(Ring(n), components[c])
    ensures components[c] == Down(n)
  {
    var s := components[c];
    forall y: nat ensures y in s <==> y < n {
      RingMutual(n, 0, y);
      if y < n {
        assert InPrefix(components, |components|, y);
      }
    }
    assert s[0] == 0 by { assert [0][0] == 0 && [0][..0] == []; }
    RingListing(n, s);
  }

  lemma RingListing(n: nat, s: seq<nat>)
    requires n > 0 && s != [] && s[0] == 0 && NoDuplicates(s) && ReverseListed(Ring(n), s)
    requires forall y: nat :: y in s <==> y < n
    ensures s == Down(n)
  {
    assert Elements(s) == Below(n);
    NoDuplicatesSize(s);
    assert forall i :: 0 <= i < |s| ==> s[i] in s;
    OnlyDown(n, s, n - 1);
  }
}
