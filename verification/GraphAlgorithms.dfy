/** Worklist closure and iterative Kosaraju components (crates/bray-base/src/graph.rs). */
module GraphAlgorithms {
  import opened DepthFirst
  import opened Reachability
  import opened SearchOrder
  import opened Sequences

  /** The reverse-edge list of `w`; an absent key is an empty list. */
  function Entry<N>(reverse: map<N, seq<N>>, w: N): seq<N> {
    if w in reverse then reverse[w] else []
  }

  // ------------------------------------------------------------------ worklist closure

  method TransitiveDependencies<N(==, !new)>(roots: seq<N>, dependencies: Graph<N>, ghost universe: set<N>)
    returns (retained: set<N>)
    requires Closed(dependencies, universe) && forall r :: r in roots ==> r in universe
    ensures forall x :: x in retained <==> ReachedFrom(dependencies, roots, x)
  {
    var pending := roots;
    retained := {};
    FrontierStart(dependencies, roots);
    while pending != []
      invariant Frontier(dependencies, roots, retained, Elements(pending))
      invariant retained <= universe && Elements(pending) <= universe
      decreases universe - retained, |pending|
    {
      var key := pending[|pending| - 1];
      ElementsAppend(pending[..|pending| - 1], [key]);
      assert pending == pending[..|pending| - 1] + [key] && key in Elements(pending);
      pending := pending[..|pending| - 1];
      if key !in retained {
        FrontierExpands(dependencies, roots, retained, Elements(pending), key);
        ElementsAppend(pending, dependencies(key));
        retained := retained + {key};
        pending := pending + dependencies(key);
      }
    }
    ReachableSetUnique(dependencies, roots, retained);
  }

  /** Roots and successors of retained keys are retained or pending, and all of these are reachable. */
  ghost predicate Frontier<N(!new)>(g: Graph<N>, roots: seq<N>, retained: set<N>, pending: set<N>) {
    && Elements(roots) <= retained + pending
    && (forall v, w :: v in retained && w in g(v) ==> w in retained || w in pending)
    && (forall x :: x in retained || x in pending ==> ReachedFrom(g, roots, x))
  }

  lemma FrontierStart<N(!new)>(g: Graph<N>, roots: seq<N>)
    ensures Frontier(g, roots, {}, Elements(roots))
  {
    forall x | x in roots ensures ReachedFrom(g, roots, x) {
      ReachesSelf(g, x);
    }
  }

  lemma FrontierExpands<N(!new)>(g: Graph<N>, roots: seq<N>, retained: set<N>, pending: set<N>, key: N)
    requires Frontier(g, roots, retained, pending + {key})
    ensures Frontier(g, roots, retained + {key}, pending + Elements(g(key)))
  {
    forall w | w in g(key) ensures ReachedFrom(g, roots, w) {
      SuccessorReached(g, roots, key, w);
    }
  }

  lemma ReachedOnward<N(!new)>(g: Graph<N>, roots: seq<N>, x: N, y: N)
    requires ReachedFrom(g, roots, x) && Reaches(g, x, y)
    ensures ReachedFrom(g, roots, y)
  {
    var r :| r in roots && Reaches(g, r, x);
    ReachesTransitive(g, r, x, y);
  }

  lemma SuccessorReached<N(!new)>(g: Graph<N>, roots: seq<N>, v: N, w: N)
    requires ReachedFrom(g, roots, v) && w in g(v)
    ensures ReachedFrom(g, roots, w)
  {
    ReachesEdge(g, v, w);
    ReachedOnward(g, roots, v, w);
  }

  // ------------------------------------------------------------------ pass one: finish order

  /**
    * When `order[i]` finished, every edge leaving the finished vertices led to a finished vertex or
    * to one still on the stack, and everything on the stack reaches the vertex that finishes.
    */
  ghost predicate Settled<N(!new)>(g: Graph<N>, order: seq<N>, i: nat)
    requires i < |order|
  {
    forall v, w :: v in order[..i + 1] && w in g(v) ==> w in order[..i + 1] || Reaches(g, w, order[i])
  }

  ghost predicate FinishLaw<N(!new)>(g: Graph<N>, order: seq<N>) {
    forall i :: 0 <= i < |order| ==> Settled(g, order, i)
  }

  /** The finished vertices are closed under successors. */
  ghost predicate ClosedOrder<N(!new)>(g: Graph<N>, order: seq<N>) {
    forall v, w :: v in order && w in g(v) ==> w in order
  }

  /** The reverse map lists exactly the edges that leave finished vertices. */
  ghost predicate ReverseOf<N(!new)>(g: Graph<N>, order: seq<N>, reverse: map<N, seq<N>>) {
    forall v, w :: v in Entry(reverse, w) <==> v in order && w in g(v)
  }

  ghost predicate OnStack<N(!new)>(stack: seq<Frame<N>>, x: N) {
    exists k :: 0 <= k < |stack| && stack[k].node == x
  }

  /** The child iterator of a frame runs over its vertex's successors. */
  ghost predicate Iterates<N(!new)>(g: Graph<N>, f: Frame<N>) {
    f.children == g(f.node) && f.next <= |f.children|
  }

  /** The child `w` has been read from the frame's iterator. */
  ghost predicate Passed<N(!new)>(f: Frame<N>, w: N) {
    exists i :: 0 <= i < f.next <= |f.children| && f.children[i] == w
  }

  /** The edge `v -> w` has been read from a child iterator. */
  ghost predicate Scanned<N(!new)>(g: Graph<N>, order: seq<N>, stack: seq<Frame<N>>, v: N, w: N)
  {
    || (v in order && w in g(v))
    || exists k :: 0 <= k < |stack| && stack[k].node == v && Passed(stack[k], w)
  }

  /** Each stacked vertex was pushed as a successor of the one below it. */
  ghost predicate Chained<N(!new)>(g: Graph<N>, stack: seq<Frame<N>>) {
    forall k, l :: 0 <= k < l < |stack| && l == k + 1 ==> stack[l].node in g(stack[k].node)
  }

  /** Finished and stacked vertices are pairwise distinct. */
  ghost predicate Distinct<N(!new)>(order: seq<N>, stack: seq<Frame<N>>) {
    && NoDuplicates(order)
    && (forall k, l :: 0 <= k < l < |stack| ==> stack[k].node != stack[l].node)
    && (forall k :: 0 <= k < |stack| ==> stack[k].node !in order)
  }

  ghost predicate Covers<N(!new)>(visited: set<N>, order: seq<N>, stack: seq<Frame<N>>) {
    forall x :: x in visited <==> x in order || OnStack(stack, x)
  }

  ghost predicate StackShape<N(!new)>(g: Graph<N>, visited: set<N>, order: seq<N>, stack: seq<Frame<N>>) {
    && Distinct(order, stack)
    && Covers(visited, order, stack)
    && (forall k :: 0 <= k < |stack| ==> Iterates(g, stack[k]))
    && Chained(g, stack)
  }

  ghost predicate ScannedVisited<N(!new)>(g: Graph<N>, visited: set<N>, order: seq<N>, stack: seq<Frame<N>>)
  {
    forall v, w :: Scanned(g, order, stack, v, w) ==> w in visited
  }

  ghost predicate ReverseLaw<N(!new)>(g: Graph<N>, reverse: map<N, seq<N>>, order: seq<N>, stack: seq<Frame<N>>)
  {
    forall v, w :: v in Entry(reverse, w) <==> Scanned(g, order, stack, v, w)
  }

  /** Everything pass one maintains between two steps of its inner loop. */
  ghost predicate Traversal<N(!new)>(g: Graph<N>, visited: set<N>, reverse: map<N, seq<N>>, order: seq<N>,
                                     stack: seq<Frame<N>>)
  {
    && StackShape(g, visited, order, stack)
    && ScannedVisited(g, visited, order, stack)
    && ReverseLaw(g, reverse, order, stack)
    && FinishLaw(g, order)
  }

  lemma {:induction false} StackReachesTop<N(!new)>(g: Graph<N>, stack: seq<Frame<N>>, k: nat)
    requires k < |stack|
    requires Chained(g, stack)
    ensures Reaches(g, stack[k].node, stack[|stack| - 1].node)
    decreases |stack| - k
  {
    if k == |stack| - 1 {
      ReachesSelf(g, stack[k].node);
    } else {
      StackReachesTop(g, stack, k + 1);
      ReachesEdge(g, stack[k].node, stack[k + 1].node);
      ReachesTransitive(g, stack[k].node, stack[k + 1].node, stack[|stack| - 1].node);
    }
  }

  lemma FinishExtends<N(!new)>(g: Graph<N>, order: seq<N>, u: N)
    requires FinishLaw(g, order)
    requires forall v, w :: v in order + [u] && w in g(v) ==> w in order + [u] || Reaches(g, w, u)
    ensures FinishLaw(g, order + [u])
  {
    var longer := order + [u];
    forall i | 0 <= i < |longer| ensures Settled(g, longer, i) {
      if i < |order| {
        assert longer[..i + 1] == order[..i + 1];
        assert Settled(g, order, i);
      } else {
        assert longer[..i + 1] == longer;
      }
    }
  }

  /** Popping an exhausted frame appends its vertex to the finish order. */
  lemma FinishStep<N(!new)>(g: Graph<N>, visited: set<N>, reverse: map<N, seq<N>>, order: seq<N>, stack: seq<Frame<N>>)
    requires Traversal(g, visited, reverse, order, stack)
    requires stack != [] && stack[|stack| - 1].next == |stack[|stack| - 1].children|
    ensures Traversal(g, visited, reverse, order + [stack[|stack| - 1].node], stack[..|stack| - 1])
  {
    var u, below := stack[|stack| - 1].node, stack[..|stack| - 1];
    assert Iterates(g, stack[|stack| - 1]);
    forall w ensures Passed(stack[|stack| - 1], w) <==> w in g(u) {
    }
    forall v, w ensures Scanned(g, order, stack, v, w) <==> Scanned(g, order + [u], below, v, w) {
    }
    forall x ensures x in visited <==> x in order + [u] || OnStack(below, x) {
    }
    forall v, w | v in order + [u] && w in g(v) ensures w in order + [u] || Reaches(g, w, u) {
      assert Scanned(g, order, stack, v, w);
      if OnStack(stack, w) {
        var k :| 0 <= k < |stack| && stack[k].node == w;
        StackReachesTop(g, stack, k);
      }
    }
    FinishExtends(g, order, u);
  }

  function Advance<N>(stack: seq<Frame<N>>): seq<Frame<N>>
    requires stack != []
  {
    var top := stack[|stack| - 1];
    stack[|stack| - 1 := top.(next := top.next + 1)]
  }

  /** Reading one child records the reverse edge. */
  lemma AdvanceStep<N(!new)>(g: Graph<N>, visited: set<N>, reverse: map<N, seq<N>>, order: seq<N>, stack: seq<Frame<N>>)
    requires Traversal(g, visited, reverse, order, stack)
    requires stack != [] && stack[|stack| - 1].next < |stack[|stack| - 1].children|
    ensures
      var top := stack[|stack| - 1];
      var child := top.children[top.next];
      && StackShape(g, visited, order, Advance(stack))
      && ReverseLaw(g, reverse[child := Entry(reverse, child) + [top.node]], order, Advance(stack))
      && (forall v, w :: Scanned(g, order, Advance(stack), v, w) ==> w in visited || w == child)
      && (child in visited ==> ScannedVisited(g, visited, order, Advance(stack)))
  {
    var top, after := stack[|stack| - 1], Advance(stack);
    var child := top.children[top.next];
    AdvanceCovers(visited, order, stack);
    assert Iterates(g, top) && Iterates(g, after[|stack| - 1]);
    forall v, w
      ensures Scanned(g, order, after, v, w) <==> Scanned(g, order, stack, v, w) || (v == top.node && w == child)
    {
      ScanOneMore(g, order, stack, v, w);
    }
  }

  lemma AdvanceCovers<N(!new)>(visited: set<N>, order: seq<N>, stack: seq<Frame<N>>)
    requires stack != [] && Distinct(order, stack) && Covers(visited, order, stack)
    ensures Distinct(order, Advance(stack)) && Covers(visited, order, Advance(stack))
  {
    var after := Advance(stack);
    assert forall k :: 0 <= k < |stack| ==> stack[k].node == after[k].node;
    forall x ensures OnStack(stack, x) <==> OnStack(after, x) {
      if k :| 0 <= k < |stack| && stack[k].node == x { assert after[k].node == x; }
    }
  }

  lemma ScanOneMore<N(!new)>(g: Graph<N>, order: seq<N>, stack: seq<Frame<N>>, v: N, w: N)
    requires stack != [] && stack[|stack| - 1].next < |stack[|stack| - 1].children|
    ensures
      var top := stack[|stack| - 1];
      Scanned(g, order, Advance(stack), v, w) <==>
      Scanned(g, order, stack, v, w) || (v == top.node && w == top.children[top.next])
  {
    var t, after := |stack| - 1, Advance(stack);
    assert after[t].children[stack[t].next] == stack[t].children[stack[t].next];
    assert Passed(after[t], w) <==> Passed(stack[t], w) || w == stack[t].children[stack[t].next];
    if k :| 0 <= k < |stack| && stack[k].node == v && Passed(stack[k], w) {
      assert after[k].node == v && Passed(after[k], w);
    }
    if k :| 0 <= k < |stack| && after[k].node == v && Passed(after[k], w) {
      assert k < t ==> stack[k].node == v && Passed(stack[k], w);
    }
  }

  lemma PushCovers<N(!new)>(visited: set<N>, order: seq<N>, stack: seq<Frame<N>>, top: Frame<N>)
    requires Distinct(order, stack) && Covers(visited, order, stack) && top.node !in visited
    ensures Distinct(order, stack + [top]) && Covers(visited + {top.node}, order, stack + [top])
  {
    var taller := stack + [top];
    assert taller[|stack|] == top;
    forall k | 0 <= k < |stack| ensures taller[k] == stack[k] && stack[k].node in visited {
      assert OnStack(stack, stack[k].node);
    }
    forall y ensures OnStack(taller, y) <==> OnStack(stack, y) || y == top.node {
      if k :| 0 <= k < |stack| && stack[k].node == y {
        assert taller[k].node == y;
      }
    }
  }

  /** Pushing a newly visited vertex with a fresh child iterator. */
  lemma PushStep<N(!new)>(g: Graph<N>, visited: set<N>, reverse: map<N, seq<N>>, order: seq<N>, stack: seq<Frame<N>>,
                          x: N)
    requires StackShape(g, visited, order, stack) && ReverseLaw(g, reverse, order, stack) && FinishLaw(g, order)
    requires forall v, w :: Scanned(g, order, stack, v, w) ==> w in visited || w == x
    requires x !in visited
    requires stack != [] ==> x in g(stack[|stack| - 1].node)
    ensures Traversal(g, visited + {x}, reverse, order, stack + [Frame(x, g(x), 0)])
  {
    PushCovers(visited, order, stack, Frame(x, g(x), 0));
    var taller := stack + [Frame(x, g(x), 0)];
    forall v, w ensures Scanned(g, order, taller, v, w) <==> Scanned(g, order, stack, v, w) {
      if k :| 0 <= k < |stack| && stack[k].node == v && Passed(stack[k], w) {
        assert taller[k].node == v && Passed(taller[k], w);
      }
    }
  }

  /** The children still to be read by the innermost iterator. */
  ghost function Remaining<N>(stack: seq<Frame<N>>): int {
    if stack == [] then 0 else |stack[|stack| - 1].children| - stack[|stack| - 1].next
  }

  // ------------------------------------------------------------------ successor order

  /** The graph without the edges that leave `root`. */
  ghost function Cut<N(!new)>(g: Graph<N>, root: N): Graph<N> {
    v => if v == root then [] else g(v)
  }

  /** Reached from the root's first `k` children without passing through the root. */
  ghost predicate UnderRoot<N(!new)>(g: Graph<N>, root: N, k: nat, x: N)
    requires k <= |g(root)|
  {
    ReachedFrom(Cut(g, root), [root] + g(root)[..k], x)
  }

  /** The first `n` finishers, with the root, are what was visited `before` and what the first `k` children reach. */
  ghost predicate CutPoint<N(!new)>(g: Graph<N>, root: N, before: set<N>, order: seq<N>, k: nat, n: nat)
    requires k <= |g(root)|
  {
    && n <= |order| && root !in order[..n]
    && forall x :: x in order[..n] || x == root <==> x in before || UnderRoot(g, root, k, x)
  }

  ghost predicate CutAt<N(!new)>(g: Graph<N>, root: N, before: set<N>, order: seq<N>, k: nat)
    requires k <= |g(root)|
  {
    exists n: nat :: CutPoint(g, root, before, order, k, n)
  }

  /** Everything visited since is reached from the root's first `k` children. */
  ghost predicate Within<N(!new)>(g: Graph<N>, root: N, before: set<N>, k: nat, visited: set<N>)
    requires k <= |g(root)|
  {
    forall x :: x in visited ==> x in before || UnderRoot(g, root, k, x)
  }

  /** How many children of the root have been read. */
  ghost function ReadOf<N>(g: Graph<N>, root: N, stack: seq<Frame<N>>): int {
    if stack == [] then |g(root)| else stack[0].next
  }

  /** What the walk from one root keeps, besides the traversal itself. */
  ghost predicate RootWalk<N(!new)>(g: Graph<N>, root: N, before: set<N>, order0: seq<N>, visited: set<N>,
                                    order: seq<N>, stack: seq<Frame<N>>)
  {
    && 0 <= ReadOf(g, root, stack) <= |g(root)|
    && Within(g, root, before, ReadOf(g, root, stack), visited)
    && order0 <= order
    && (if stack == [] then order0 < order && order[|order| - 1] == root && CutAt(g, root, before, order, |g(root)|)
        else stack[0].node == root && stack[0].children == g(root))
    && (forall k :: 0 <= k < ReadOf(g, root, stack) ==> CutAt(g, root, before, order, k))
    && (forall l :: 1 <= l < |stack| ==> stack[l].node != root && stack[l].node !in before)
  }

  lemma BelowMore<N(!new)>(g: Graph<N>, root: N, j: nat, k: nat, x: N)
    requires j <= k <= |g(root)| && UnderRoot(g, root, j, x)
    ensures UnderRoot(g, root, k, x)
  {
    var v :| v in [root] + g(root)[..j] && Reaches(Cut(g, root), v, x);
    assert v in [root] + g(root)[..k];
  }

  lemma WithinStart<N(!new)>(g: Graph<N>, root: N, before: set<N>)
    ensures Within(g, root, before, 0, before + {root})
  {
    ReachesSelf(Cut(g, root), root);
    assert root in [root] + g(root)[..0];
  }

  lemma CutGrows<N(!new)>(g: Graph<N>, root: N, before: set<N>, order: seq<N>, order': seq<N>, k: nat)
    requires k <= |g(root)| && order <= order' && CutAt(g, root, before, order, k)
    ensures CutAt(g, root, before, order', k)
  {
    var n: nat :| CutPoint(g, root, before, order, k, n);
    assert order'[..n] == order[..n];
    assert CutPoint(g, root, before, order', k, n);
  }

  /** When the walk is back at the root, the finished vertices are exactly what the children read so far reach. */
  lemma CutHolds<N(!new)>(g: Graph<N>, root: N, before: set<N>, visited: set<N>, reverse: map<N, seq<N>>, order: seq<N>,
                          stack: seq<Frame<N>>)
    requires Traversal(g, visited, reverse, order, stack) && |stack| == 1 && stack[0].node == root
    requires stack[0].children == g(root) && before + {root} <= visited
    requires stack[0].next <= |g(root)| && Within(g, root, before, stack[0].next, visited)
    ensures CutAt(g, root, before, order, stack[0].next)
  {
    var k := stack[0].next;
    forall x ensures x in visited <==> x in order || x == root {
      assert x == root ==> OnStack(stack, x);
    }
    forall v, w | v in visited && w in Cut(g, root)(v) ensures w in visited {
      assert Scanned(g, order, stack, v, w);
    }
    forall x | UnderRoot(g, root, k, x) ensures x in visited {
      var v :| v in [root] + g(root)[..k] && Reaches(Cut(g, root), v, x);
      if v != root {
        var j :| 0 <= j < k && g(root)[j] == v;
        assert Passed(stack[0], v);
        assert Scanned(g, order, stack, root, v);
      }
      ClosedReaches(Cut(g, root), visited, v, x);
    }
    assert order[..|order|] == order;
    assert CutPoint(g, root, before, order, k, |order|);
  }

  lemma WithinMore<N(!new)>(g: Graph<N>, root: N, before: set<N>, j: nat, k: nat, visited: set<N>, child: N)
    requires j <= k <= |g(root)| && Within(g, root, before, j, visited) && UnderRoot(g, root, k, child)
    ensures Within(g, root, before, k, visited + {child})
  {
    forall x | x in visited && x !in before ensures UnderRoot(g, root, k, x) {
      BelowMore(g, root, j, k, x);
    }
  }

  lemma ChildUnder<N(!new)>(g: Graph<N>, root: N, k: nat)
    requires k < |g(root)|
    ensures UnderRoot(g, root, k + 1, g(root)[k])
  {
    ReachesSelf(Cut(g, root), g(root)[k]);
    assert g(root)[..k + 1][k] == g(root)[k];
    assert g(root)[k] in [root] + g(root)[..k + 1];
  }

  lemma OnwardUnder<N(!new)>(g: Graph<N>, root: N, k: nat, v: N, w: N)
    requires k <= |g(root)| && UnderRoot(g, root, k, v) && v != root && w in g(v)
    ensures UnderRoot(g, root, k, w)
  {
    SuccessorReached(Cut(g, root), [root] + g(root)[..k], v, w);
  }

  /** A child is read from the innermost frame. */
  lemma WalkReads<N(!new)>(g: Graph<N>, root: N, before: set<N>, order0: seq<N>, visited: set<N>,
                           reverse: map<N, seq<N>>, order: seq<N>, stack: seq<Frame<N>>, stack': seq<Frame<N>>)
    requires Traversal(g, visited, reverse, order, stack) && stack != []
    requires before + {root} <= visited && root !in before
    requires RootWalk(g, root, before, order0, visited, order, stack)
    requires stack[|stack| - 1].next < |stack[|stack| - 1].children|
    requires
      var top := stack[|stack| - 1];
      var child := top.children[top.next];
      stack' == Advance(stack) + if child in visited then [] else [Frame(child, g(child), 0)]
    ensures
      var top := stack[|stack| - 1];
      RootWalk(g, root, before, order0, visited + {top.children[top.next]}, order, stack')
  {
    var top, k := stack[|stack| - 1], stack[0].next;
    var child := top.children[top.next];
    assert Iterates(g, top);
    if |stack| == 1 {
      CutHolds(g, root, before, visited, reverse, order, stack);
      ChildUnder(g, root, k);
      WithinMore(g, root, before, k, k + 1, visited, child);
    } else {
      assert OnStack(stack, top.node) && top.node in visited;
      OnwardUnder(g, root, k, top.node, child);
      WithinMore(g, root, before, k, k, visited, child);
    }
  }

  /** The innermost frame is exhausted. */
  lemma WalkFinishes<N(!new)>(g: Graph<N>, root: N, before: set<N>, order0: seq<N>, visited: set<N>,
                              reverse: map<N, seq<N>>, order: seq<N>, stack: seq<Frame<N>>)
    requires Traversal(g, visited, reverse, order, stack) && stack != []
    requires before + {root} <= visited && root !in before
    requires RootWalk(g, root, before, order0, visited, order, stack)
    requires stack[|stack| - 1].next >= |stack[|stack| - 1].children|
    ensures
      RootWalk(g, root, before, order0, visited, order + [stack[|stack| - 1].node], stack[..|stack| - 1])
  {
    var longer := order + [stack[|stack| - 1].node];
    assert Iterates(g, stack[|stack| - 1]);
    forall k | 0 <= k < stack[0].next ensures CutAt(g, root, before, longer, k) {
      CutGrows(g, root, before, order, longer, k);
    }
    if |stack| == 1 {
      CutHolds(g, root, before, visited, reverse, order, stack);
      CutGrows(g, root, before, order, longer, |g(root)|);
    }
  }

  /** One turn of the walk reads a child of the innermost frame, and visits it if it is new, or finishes the frame. */
  ghost predicate Moved<N(!new)>(g: Graph<N>, visited0: set<N>, order0: seq<N>, stack0: seq<Frame<N>>,
                                 visited: set<N>, order: seq<N>, stack: seq<Frame<N>>)
    requires stack0 != []
  {
    var top := stack0[|stack0| - 1];
    if top.next < |top.children| then
      var child := top.children[top.next];
      && visited == visited0 + {child} && order == order0
      && stack == Advance(stack0) + if child in visited0 then [] else [Frame(child, g(child), 0)]
    else
      visited == visited0 && order == order0 + [top.node] && stack == stack0[..|stack0| - 1]
  }

  // ------------------------------------------------------------------ the walk as recursion

  /** The reverse map lists the sources of every edge read, in the order they were read. */
  ghost predicate Recorded<N(!new)>(reverse: map<N, seq<N>>, edges: seq<Edge<N>>) {
    forall w :: Entry(reverse, w) == Sources(edges, w)
  }

  lemma RecordedMore<N(!new)>(reverse: map<N, seq<N>>, edges: seq<Edge<N>>, v: N, w: N)
    requires Recorded(reverse, edges)
    ensures Recorded(reverse[w := Entry(reverse, w) + [v]], edges + [Edge(v, w)])
  {
    var more := reverse[w := Entry(reverse, w) + [v]];
    forall x ensures Entry(more, x) == Sources(edges + [Edge(v, w)], x) {
      SourcesMore(edges, Edge(v, w), x);
      assert Entry(reverse, x) == Sources(edges, x);
    }
  }

  /** The edge that the next turn of the walk reads, if it reads one. */
  ghost function NextRead<N>(stack: seq<Frame<N>>): seq<Edge<N>>
    requires stack != []
  {
    var top := stack[|stack| - 1];
    if top.next < |top.children| then [Edge(top.node, top.children[top.next])] else []
  }

  /** The explicit stack and what has been done so far lead to `goal`. */
  ghost predicate OnCourse<N(!new)>(g: Graph<N>, universe: set<N>, stack: seq<Frame<N>>, s: Walk<N>, goal: Walk<N>) {
    Inside(g, universe, s) && Framed(g, universe, stack) && Unwind(g, universe, stack, s) == goal
  }

  lemma CourseKept<N(!new)>(g: Graph<N>, universe: set<N>, goal: Walk<N>, visited: set<N>, order: seq<N>,
                            edges: seq<Edge<N>>, stack: seq<Frame<N>>,
                            visited': set<N>, order': seq<N>, stack': seq<Frame<N>>)
    requires stack != [] && OnCourse(g, universe, stack, Walk(visited, order, edges), goal)
    requires Moved(g, visited, order, stack, visited', order', stack') && visited' <= universe
    ensures OnCourse(g, universe, stack', Walk(visited', order', edges + NextRead(stack)), goal)
  {
    var below, top, s := stack[..|stack| - 1], stack[|stack| - 1], Walk(visited, order, edges);
    assert stack == below + [top];
    if top.next < |top.children| {
      UnwindRead(g, universe, below, top, s);
      assert Advance(stack) == below + [top.(next := top.next + 1)];
      assert top.children[top.next] in visited ==> visited' == visited && stack' == Advance(stack);
    } else {
      UnwindFinish(g, universe, stack, s);
      assert edges + [] == edges;
      FramedOne(g, universe, below, top);
    }
  }

  /** One turn of the inner loop of pass one. */
  method ExploreStep<N(==, !new)>(successors: Graph<N>, visited0: set<N>, reverse0: map<N, seq<N>>, order0: seq<N>,
                                  stack0: seq<Frame<N>>, ghost roots: seq<N>, ghost edges: seq<Edge<N>>)
    returns (visited: set<N>, reverse: map<N, seq<N>>, order: seq<N>, stack: seq<Frame<N>>)
    requires stack0 != [] && Traversal(successors, visited0, reverse0, order0, stack0)
    requires AllReached(successors, roots, visited0) && Recorded(reverse0, edges)
    ensures Traversal(successors, visited, reverse, order, stack) && AllReached(successors, roots, visited)
    ensures Moved(successors, visited0, order0, stack0, visited, order, stack)
    ensures Recorded(reverse, edges + NextRead(stack0))
  {
    visited, reverse, order, stack := visited0, reverse0, order0, stack0;
    var top := stack[|stack| - 1];
    assert Iterates(successors, top);
    if top.next < |top.children| {
      var successor := top.children[top.next];
      AdvanceStep(successors, visited, reverse, order, stack);
      assert OnStack(stack, top.node) && top.node in visited;
      SuccessorReached(successors, roots, top.node, successor);
      stack := Advance(stack);
      RecordedMore(reverse, edges, top.node, successor);
      reverse := reverse[successor := Entry(reverse, successor) + [top.node]];
      if successor !in visited {
        PushStep(successors, visited, reverse, order, stack, successor);
        visited := visited + {successor};
        stack := stack + [Frame(successor, successors(successor), 0)];
      }
    } else {
      FinishStep(successors, visited, reverse, order, stack);
      assert edges + [] == edges;
      order := order + [top.node];
      stack := stack[..|stack| - 1];
    }
  }

  lemma ChildInUniverse<N(!new)>(g: Graph<N>, visited: set<N>, reverse: map<N, seq<N>>, order: seq<N>,
                                 stack: seq<Frame<N>>, universe: set<N>)
    requires Traversal(g, visited, reverse, order, stack) && stack != [] && visited <= universe && Closed(g, universe)
    requires stack[|stack| - 1].next < |stack[|stack| - 1].children|
    ensures stack[|stack| - 1].children[stack[|stack| - 1].next] in universe
  {
    var top := stack[|stack| - 1];
    assert Iterates(g, top) && OnStack(stack, top.node);
  }

  lemma WalkMoves<N(!new)>(g: Graph<N>, root: N, before: set<N>, order0: seq<N>,
                           visited: set<N>, reverse: map<N, seq<N>>, order: seq<N>, stack: seq<Frame<N>>,
                           visited': set<N>, order': seq<N>, stack': seq<Frame<N>>, universe: set<N>)
    requires Traversal(g, visited, reverse, order, stack) && stack != [] && Closed(g, universe)
    requires before + {root} <= visited <= universe && root !in before
    requires RootWalk(g, root, before, order0, visited, order, stack)
    requires Moved(g, visited, order, stack, visited', order', stack')
    ensures RootWalk(g, root, before, order0, visited', order', stack')
    ensures visited <= visited' <= universe
  {
    if stack[|stack| - 1].next < |stack[|stack| - 1].children| {
      ChildInUniverse(g, visited, reverse, order, stack, universe);
      WalkReads(g, root, before, order0, visited, reverse, order, stack, stack');
    } else {
      WalkFinishes(g, root, before, order0, visited, reverse, order, stack);
    }
  }

  /** The loop body of pass one for one unvisited root: a depth-first walk with an explicit stack. */
  method Explore<N(==, !new)>(root: N, successors: Graph<N>, visited0: set<N>, reverse0: map<N, seq<N>>, order0: seq<N>,
                              ghost roots: seq<N>, ghost universe: set<N>, ghost edges0: seq<Edge<N>>)
    returns (visited: set<N>, reverse: map<N, seq<N>>, order: seq<N>, ghost edges: seq<Edge<N>>)
    requires Closed(successors, universe) && visited0 <= universe && root in universe && Recorded(reverse0, edges0)
    requires Traversal(successors, visited0, reverse0, order0, []) && root !in visited0
    requires ReachedFrom(successors, roots, root) && AllReached(successors, roots, visited0)
    ensures Traversal(successors, visited, reverse, order, [])
    ensures visited0 + {root} <= visited <= universe
    ensures AllReached(successors, roots, visited)
    ensures order0 < order && order[|order| - 1] == root
    ensures forall k :: 0 <= k <= |successors(root)| ==> CutAt(successors, root, visited0, order, k)
    ensures Recorded(reverse, edges)
    ensures Walk(visited, order, edges) == Descend(successors, universe, root, Walk(visited0, order0, edges0))
  {
    visited, reverse, order, edges := visited0 + {root}, reverse0, order0, edges0;
    ghost var goal := Descend(successors, universe, root, Walk(visited0, order0, edges0));
    ExploringStart(successors, root, roots, universe, visited0, reverse0, order0, edges0);
    var stack := [Frame(root, successors(root), 0)];
    while stack != []
      invariant Exploring(successors, root, roots, universe, visited0, order0, goal,
                          visited, reverse, order, edges, stack)
      decreases universe - visited, |stack|, Remaining(stack)
    {
      visited, reverse, order, stack, edges :=
        ExploreTurn(successors, root, visited, reverse, order, stack, roots, universe, visited0, order0, goal, edges);
    }
  }

  lemma ExploringStart<N(!new)>(g: Graph<N>, root: N, roots: seq<N>, universe: set<N>, visited: set<N>,
                                reverse: map<N, seq<N>>, order: seq<N>, edges: seq<Edge<N>>)
    requires Closed(g, universe) && visited <= universe && root in universe && Recorded(reverse, edges)
    requires Traversal(g, visited, reverse, order, []) && root !in visited
    requires ReachedFrom(g, roots, root) && AllReached(g, roots, visited)
    ensures Exploring(g, root, roots, universe, visited, order, Descend(g, universe, root, Walk(visited, order, edges)),
                      visited + {root}, reverse, order, edges, [Frame(root, g(root), 0)])
  {
    var stack := [Frame(root, g(root), 0)];
    UnwindRoot(g, universe, root, Walk(visited, order, edges));
    PushStep(g, visited, reverse, order, [], root);
    assert [] + stack == stack;
    WithinStart(g, root, visited);
  }

  /** What the walk from one root keeps between two turns. */
  ghost predicate Exploring<N(!new)>(g: Graph<N>, root: N, roots: seq<N>, universe: set<N>, before: set<N>,
                                     order0: seq<N>, goal: Walk<N>, visited: set<N>, reverse: map<N, seq<N>>,
                                     order: seq<N>, edges: seq<Edge<N>>, stack: seq<Frame<N>>)
  {
    && Traversal(g, visited, reverse, order, stack) && AllReached(g, roots, visited)
    && before + {root} <= visited <= universe && RootWalk(g, root, before, order0, visited, order, stack)
    && Recorded(reverse, edges) && OnCourse(g, universe, stack, Walk(visited, order, edges), goal)
  }

  method ExploreTurn<N(==, !new)>(successors: Graph<N>, ghost root: N, visited0: set<N>, reverse0: map<N, seq<N>>,
                                  order0: seq<N>, stack0: seq<Frame<N>>, ghost roots: seq<N>, ghost universe: set<N>,
                                  ghost before: set<N>, ghost base: seq<N>, ghost goal: Walk<N>,
                                  ghost edges0: seq<Edge<N>>)
    returns (visited: set<N>, reverse: map<N, seq<N>>, order: seq<N>, stack: seq<Frame<N>>, ghost edges: seq<Edge<N>>)
    requires stack0 != [] && Closed(successors, universe) && root !in before
    requires Exploring(successors, root, roots, universe, before, base, goal,
                       visited0, reverse0, order0, edges0, stack0)
    ensures Exploring(successors, root, roots, universe, before, base, goal, visited, reverse, order, edges, stack)
    ensures visited0 <= visited
    ensures visited == visited0 ==>
              |stack| < |stack0| || (|stack| == |stack0| && 0 <= Remaining(stack) < Remaining(stack0))
  {
    visited, reverse, order, stack := ExploreStep(successors, visited0, reverse0, order0, stack0, roots, edges0);
    WalkMoves(successors, root, before, base, visited0, reverse0, order0, stack0, visited, order, stack, universe);
    CourseKept(successors, universe, goal, visited0, order0, edges0, stack0, visited, order, stack);
    edges := edges0 + NextRead(stack0);
  }

  /** The first `n` finishers are exactly the vertices reachable from the first `k` roots. */
  ghost predicate Batch<N(!new)>(g: Graph<N>, roots: seq<N>, order: seq<N>, k: nat, n: nat)
    requires k <= |roots|
  {
    n <= |order| && forall x :: x in order[..n] <==> ReachedFrom(g, roots[..k], x)
  }

  /** Root `k` finishes last of the vertices that it is the first to reach. */
  ghost predicate LastOfBatch<N(!new)>(roots: seq<N>, order: seq<N>, cuts: seq<nat>, k: nat)
    requires k < |roots| && k + 1 < |cuts|
  {
    cuts[k] < cuts[k + 1] <= |order| ==> order[cuts[k + 1] - 1] == roots[k]
  }

  /** The finish order falls into batches, one for each root, cut at `cuts`. */
  ghost predicate Batched<N(!new)>(g: Graph<N>, roots: seq<N>, order: seq<N>, cuts: seq<nat>) {
    && 1 <= |cuts| <= |roots| + 1
    && (forall k :: 0 <= k < |cuts| ==> Batch(g, roots, order, k, cuts[k]))
    && (forall k :: 0 <= k < |cuts| - 1 ==> LastOfBatch(roots, order, cuts, k))
  }

  lemma ReachedMore<N(!new)>(g: Graph<N>, roots: seq<N>, i: nat, j: nat, x: N)
    requires i <= j <= |roots| && ReachedFrom(g, roots[..i], x)
    ensures ReachedFrom(g, roots[..j], x)
  {
    var r :| r in roots[..i] && Reaches(g, r, x);
    assert r in roots[..j];
  }

  /** Between two walks everything visited has finished, and nothing reachable is missing. */
  lemma WalkComplete<N(!new)>(g: Graph<N>, visited: set<N>, reverse: map<N, seq<N>>, order: seq<N>, roots: seq<N>,
                              k: nat)
    requires Traversal(g, visited, reverse, order, []) && Walked(g, roots, k, visited)
    ensures Batch(g, roots, order, k, |order|)
  {
    forall v, w | v in visited && w in g(v) ensures w in visited {
      assert Scanned(g, order, [], v, w);
    }
    forall r | r in roots[..k] ensures r in visited {
      assert r in Elements(roots[..k]);
    }
    ReachableSetUnique(g, roots[..k], visited);
    assert order[..|order|] == order;
  }

  /** A longer finish order, closed by the next root, has one batch more. */
  lemma BatchedMore<N(!new)>(g: Graph<N>, roots: seq<N>, order: seq<N>, cuts: seq<nat>, order': seq<N>)
    requires Batched(g, roots, order, cuts) && |cuts| <= |roots| && order <= order'
    requires Batch(g, roots, order', |cuts|, |order'|)
    requires order < order' ==> order'[|order'| - 1] == roots[|cuts| - 1]
    requires cuts[|cuts| - 1] == |order|
    ensures Batched(g, roots, order', cuts + [|order'|])
  {
    var more := cuts + [|order'|];
    forall k | 0 <= k < |more| ensures Batch(g, roots, order', k, more[k]) {
      if k < |cuts| {
        assert Batch(g, roots, order, k, cuts[k]);
        assert order'[..cuts[k]] == order[..cuts[k]];
      }
    }
    forall k | 0 <= k < |more| - 1 ensures LastOfBatch(roots, order', more, k) {
      if k < |cuts| - 1 {
        assert LastOfBatch(roots, order, cuts, k) && Batch(g, roots, order, k + 1, cuts[k + 1]);
      }
    }
  }

  /** Between two roots: the first `k` are visited, with everything they reach and nothing else. */
  ghost predicate Walked<N(!new)>(g: Graph<N>, roots: seq<N>, k: nat, visited: set<N>) {
    k <= |roots| && Elements(roots[..k]) <= visited && AllReached(g, roots[..k], visited)
  }

  ghost predicate AllReached<N(!new)>(g: Graph<N>, roots: seq<N>, visited: set<N>) {
    forall x :: x in visited ==> ReachedFrom(g, roots, x)
  }

  lemma WalkedMore<N(!new)>(g: Graph<N>, roots: seq<N>, k: nat, visited: set<N>)
    requires k < |roots| && Walked(g, roots, k, visited)
    ensures AllReached(g, roots[..k + 1], visited) && ReachedFrom(g, roots[..k + 1], roots[k])
    ensures Elements(roots[..k + 1]) <= visited + {roots[k]}
  {
    forall x | x in visited ensures ReachedFrom(g, roots[..k + 1], x) {
      ReachedMore(g, roots, k, k + 1, x);
    }
    assert roots[..k + 1] == roots[..k] + [roots[k]];
    ElementsAppend(roots[..k], [roots[k]]);
    ReachesSelf(g, roots[k]);
  }

  /** Pass one over all roots: the finish order and the complete reverse map of the reachable graph. */
  method FinishOrder<N(==, !new)>(roots: seq<N>, successors: Graph<N>, ghost universe: set<N>)
    returns (order: seq<N>, reverse: map<N, seq<N>>, ghost cuts: seq<nat>, ghost edges: seq<Edge<N>>)
    requires Closed(successors, universe) && forall r :: r in roots ==> r in universe
    ensures NoDuplicates(order) && FinishLaw(successors, order)
    ensures forall x :: x in order <==> ReachedFrom(successors, roots, x)
    ensures ReverseOf(successors, order, reverse)
    ensures |cuts| == |roots| + 1 && Batched(successors, roots, order, cuts)
    ensures ChildCuts(successors, roots, |roots|, order)
    ensures Recorded(reverse, edges)
    ensures order == FromRoots(successors, universe, roots, |roots|).order
    ensures edges == FromRoots(successors, universe, roots, |roots|).edges
  {
    var visited: set<N> := {};
    reverse, order, cuts, edges := map[], [], [0], [];
    for i := 0 to |roots|
      invariant Traversal(successors, visited, reverse, order, [])
      invariant visited <= universe && Walked(successors, roots, i, visited)
      invariant |cuts| == i + 1 && cuts[i] == |order| && Batched(successors, roots, order, cuts)
      invariant ChildCuts(successors, roots, i, order)
      invariant Recorded(reverse, edges) && Walk(visited, order, edges) == FromRoots(successors, universe, roots, i)
    {
      visited, reverse, order, cuts, edges :=
        Visit(roots, i, successors, visited, reverse, order, cuts, universe, edges);
    }
    OrderComplete(successors, roots, order, cuts);
    TraversalDone(successors, visited, reverse, order);
  }

  lemma OrderComplete<N(!new)>(g: Graph<N>, roots: seq<N>, order: seq<N>, cuts: seq<nat>)
    requires |cuts| == |roots| + 1 && Batched(g, roots, order, cuts) && cuts[|roots|] == |order|
    ensures forall x :: x in order <==> ReachedFrom(g, roots, x)
  {
    assert roots[..|roots|] == roots && order[..|order|] == order;
    assert Batch(g, roots, order, |roots|, |order|);
  }

  lemma TraversalDone<N(!new)>(g: Graph<N>, visited: set<N>, reverse: map<N, seq<N>>, order: seq<N>)
    requires Traversal(g, visited, reverse, order, [])
    ensures NoDuplicates(order) && FinishLaw(g, order)
    ensures ReverseOf(g, order, reverse)
  {
  }

  lemma WalkedExactly<N(!new)>(g: Graph<N>, visited: set<N>, reverse: map<N, seq<N>>, order: seq<N>, roots: seq<N>,
                               k: nat)
    requires Traversal(g, visited, reverse, order, []) && Walked(g, roots, k, visited)
    ensures forall x :: x in visited <==> ReachedFrom(g, roots[..k], x)
  {
    WalkComplete(g, visited, reverse, order, roots, k);
    assert order[..|order|] == order;
  }

  /** Reached from earlier roots, or from the first `k` children of root `i` without passing through it. */
  ghost predicate ChildReached<N(!new)>(g: Graph<N>, roots: seq<N>, i: nat, k: nat, x: N)
    requires i < |roots| && k <= |g(roots[i])|
  {
    ReachedFrom(g, roots[..i], x) || UnderRoot(g, roots[i], k, x)
  }

  ghost predicate ChildPoint<N(!new)>(g: Graph<N>, roots: seq<N>, order: seq<N>, i: nat, k: nat, n: nat)
    requires i < |roots| && k <= |g(roots[i])|
  {
    && n <= |order| && roots[i] !in order[..n]
    && forall x :: x in order[..n] || x == roots[i] <==> ChildReached(g, roots, i, k, x)
  }

  ghost predicate ChildCut<N(!new)>(g: Graph<N>, roots: seq<N>, order: seq<N>, i: nat, k: nat)
    requires i < |roots| && k <= |g(roots[i])|
  {
    exists n: nat :: ChildPoint(g, roots, order, i, k, n)
  }

  /** For each of the first `m` roots that no earlier one reaches: its children come one after the other. */
  ghost predicate ChildCuts<N(!new)>(g: Graph<N>, roots: seq<N>, m: nat, order: seq<N>)
    requires m <= |roots|
  {
    forall i, k :: 0 <= i < m && !ReachedFrom(g, roots[..i], roots[i]) && 0 <= k <= |g(roots[i])| ==>
      ChildCut(g, roots, order, i, k)
  }

  lemma ChildCutGrows<N(!new)>(g: Graph<N>, roots: seq<N>, order: seq<N>, order': seq<N>, i: nat, k: nat)
    requires i < |roots| && k <= |g(roots[i])| && ChildCut(g, roots, order, i, k) && order <= order'
    ensures ChildCut(g, roots, order', i, k)
  {
    var n: nat :| ChildPoint(g, roots, order, i, k, n);
    assert order'[..n] == order[..n];
    assert ChildPoint(g, roots, order', i, k, n);
  }

  lemma ChildCutFrom<N(!new)>(g: Graph<N>, roots: seq<N>, before: set<N>, order: seq<N>, i: nat, k: nat)
    requires i < |roots| && k <= |g(roots[i])| && CutAt(g, roots[i], before, order, k)
    requires forall x :: x in before <==> ReachedFrom(g, roots[..i], x)
    ensures ChildCut(g, roots, order, i, k)
  {
    var n: nat :| CutPoint(g, roots[i], before, order, k, n);
    assert ChildPoint(g, roots, order, i, k, n);
  }

  lemma ChildCutsMore<N(!new)>(g: Graph<N>, roots: seq<N>, i: nat, before: set<N>, order: seq<N>, order': seq<N>)
    requires i < |roots| && ChildCuts(g, roots, i, order) && order <= order'
    requires forall x :: x in before <==> ReachedFrom(g, roots[..i], x)
    requires roots[i] !in before ==> forall k :: 0 <= k <= |g(roots[i])| ==> CutAt(g, roots[i], before, order', k)
    ensures ChildCuts(g, roots, i + 1, order')
  {
    forall j, k | 0 <= j < i + 1 && !ReachedFrom(g, roots[..j], roots[j]) && 0 <= k <= |g(roots[j])|
      ensures ChildCut(g, roots, order', j, k)
    {
      if j < i {
        ChildCutGrows(g, roots, order, order', j, k);
      } else {
        ChildCutFrom(g, roots, before, order', i, k);
      }
    }
  }

  /** One turn of the loop over the roots: a root already visited is passed over. */
  method Visit<N(==, !new)>(roots: seq<N>, i: nat, successors: Graph<N>, visited0: set<N>, reverse0: map<N, seq<N>>,
                            order0: seq<N>, ghost cuts0: seq<nat>, ghost universe: set<N>, ghost edges0: seq<Edge<N>>)
    returns (visited: set<N>, reverse: map<N, seq<N>>, order: seq<N>, ghost cuts: seq<nat>, ghost edges: seq<Edge<N>>)
    requires i < |roots| && Closed(successors, universe) && visited0 <= universe && roots[i] in universe
    requires Traversal(successors, visited0, reverse0, order0, []) && Walked(successors, roots, i, visited0)
    requires |cuts0| == i + 1 && cuts0[i] == |order0| && Batched(successors, roots, order0, cuts0)
    requires ChildCuts(successors, roots, i, order0) && Recorded(reverse0, edges0)
    ensures Traversal(successors, visited, reverse, order, [])
    ensures visited <= universe && Walked(successors, roots, i + 1, visited)
    ensures |cuts| == i + 2 && cuts[i + 1] == |order| && Batched(successors, roots, order, cuts)
    ensures ChildCuts(successors, roots, i + 1, order) && Recorded(reverse, edges)
    ensures Walk(visited, order, edges) == Descend(successors, universe, roots[i], Walk(visited0, order0, edges0))
  {
    visited, reverse, order, edges := visited0, reverse0, order0, edges0;
    WalkedMore(successors, roots, i, visited);
    WalkedExactly(successors, visited0, reverse0, order0, roots, i);
    if roots[i] !in visited {
      visited, reverse, order, edges :=
        Explore(roots[i], successors, visited, reverse, order, roots[..i + 1], universe, edges);
    }
    ChildCutsMore(successors, roots, i, visited0, order0, order);
    WalkComplete(successors, visited, reverse, order, roots, i + 1);
    BatchedMore(successors, roots, order0, cuts0, order);
    cuts := cuts0 + [|order|];
  }

  // ------------------------------------------------------------------ what the finish order means

  /**
    * If an early finisher reaches a later one, some vertex of the early finisher's component finished
    * at least as late. (The early finisher itself need not be in the later one's component.)
    */
  lemma {:induction false} ComponentFinishesLate<N(!new)>(g: Graph<N>, order: seq<N>, i: nat, j: nat) returns (m: nat)
    requires FinishLaw(g, order) && NoDuplicates(order)
    requires ClosedOrder(g, order)
    requires i < |order| && j < |order| && Reaches(g, order[i], order[j])
    ensures j <= m < |order| && Mutual(g, order[i], order[m])
    decreases |order| - i
  {
    if j <= i {
      ReachesSelf(g, order[i]);
      return i;
    }
    var done := order[..i + 1];
    assert order[i] == done[i];
    var u, w := Crossing(g, order[i], order[j], iset x | x in done);
    assert Settled(g, order, i);
    ReachesEdge(g, u, w);
    ReachesTransitive(g, order[i], u, w);
    assert Mutual(g, order[i], w);
    assert u in order && w in order;
    var k :| 0 <= k < |order| && order[k] == w;
    assert forall l :: 0 <= l <= i ==> order[l] == done[l];
    m := ComponentFinishesLate(g, order, k, j);
    MutualTransitive(g, order[i], w, order[m]);
  }

  // ------------------------------------------------------------------ pass two: components

  ghost predicate IsComponent<N(!new)>(g: Graph<N>, c: seq<N>) {
    && c != [] && NoDuplicates(c)
    && forall x, y :: x in c ==> (y in c <==> Mutual(g, x, y))
  }

  ghost predicate InPrefix<N(!new)>(components: seq<seq<N>>, limit: nat, x: N)
    requires limit <= |components|
  {
    exists i :: 0 <= i < limit && x in components[i]
  }

  /** No edge of the reachable graph enters the first `limit` components from outside them. */
  ghost predicate PrefixClosed<N(!new)>(g: Graph<N>, order: seq<N>, components: seq<seq<N>>, limit: nat)
    requires limit <= |components|
  {
    forall v, w :: v in order && w in g(v) && InPrefix(components, limit, w) ==> InPrefix(components, limit, v)
  }

  /** Vertices in the order in which `predecessors` first has them. */
  ghost predicate InOrder<N(!new)>(predecessors: seq<N>, added: seq<N>) {
    forall a, b :: 0 <= a < b < |added| ==> First(predecessors, added[a]) < First(predecessors, added[b])
  }

  /** The inner loop of pass two: marks the predecessors not yet visited and stacks them in their order. */
  method PushUnvisited<N(==, !new)>(predecessors: seq<N>, visited0: set<N>, stack0: seq<N>)
    returns (visited: set<N>, stack: seq<N>, ghost added: seq<N>)
    requires NoDuplicates(stack0) && Elements(stack0) <= visited0
    ensures visited == visited0 + Elements(predecessors)
    ensures stack == stack0 + added && NoDuplicates(stack)
    ensures Elements(added) == visited - visited0 && InOrder(predecessors, added)
  {
    visited, stack, added := visited0, stack0, [];
    for i := 0 to |predecessors|
      invariant visited == visited0 + Elements(predecessors[..i])
      invariant stack == stack0 + added && Stacks(predecessors, i, visited0, visited, stack0, added)
    {
      var predecessor := predecessors[i];
      assert predecessors[..i + 1] == predecessors[..i] + [predecessor];
      ElementsAppend(predecessors[..i], [predecessor]);
      if predecessor !in visited {
        StacksMore(predecessors, i, visited0, visited, stack0, added);
        visited := visited + {predecessor};
        stack := stack + [predecessor];
        added := added + [predecessor];
      }
    }
    assert predecessors[..|predecessors|] == predecessors;
  }

  /** What the inner loop has stacked after the first `i` predecessors. */
  ghost predicate Stacks<N(!new)>(predecessors: seq<N>, i: nat, visited0: set<N>, visited: set<N>, stack0: seq<N>,
                                  added: seq<N>)
  {
    && NoDuplicates(stack0 + added) && Elements(added) == visited - visited0 && InOrder(predecessors, added)
    && forall x :: x in added ==> First(predecessors, x) < i
  }

  lemma StacksMore<N(!new)>(predecessors: seq<N>, i: nat, visited0: set<N>, visited: set<N>, stack0: seq<N>,
                            added: seq<N>)
    requires i < |predecessors| && predecessors[i] !in visited && Elements(stack0) <= visited0 <= visited
    requires visited == visited0 + Elements(predecessors[..i])
    requires Stacks(predecessors, i, visited0, visited, stack0, added)
    ensures Stacks(predecessors, i + 1, visited0, visited + {predecessors[i]}, stack0, added + [predecessors[i]])
  {
    var x := predecessors[i];
    var stack, more := stack0 + added, added + [x];
    ElementsAppend(stack0, added);
    ElementsAppend(added, [x]);
    assert x !in Elements(stack) && stack0 + more == stack + [x];
    assert First(predecessors, x) == i by {
      assert forall k :: 0 <= k < i ==> predecessors[k] in Elements(predecessors[..i]) by {
        assert forall k :: 0 <= k < i ==> predecessors[..i][k] == predecessors[k];
      }
    }
    forall a, b | 0 <= a < b < |more| ensures First(predecessors, more[a]) < First(predecessors, more[b]) {
      assert more[a] == added[a] && added[a] in added;
    }
  }

  /** The component has collected, without repetition, all that reaches `root` outside `taken`. */
  ghost predicate Collected<N(!new)>(g: Graph<N>, order: seq<N>, root: N, taken: set<N>, component: seq<N>,
                                     visited: set<N>)
  {
    && component != [] && component[0] == root && NoDuplicates(component)
    && (forall x :: x in visited <==> x in taken || x in component)
    && (forall x :: x in component ==> x !in taken && x in order && Reaches(g, x, root))
    && (forall v, w :: w in component && v in order && w in g(v) ==> v in visited)
  }

  /** The list is that of a search along `into` that takes the last vertex stacked first. */
  ghost predicate Searched<N(!new)>(g: Graph<N>, into: Graph<N>, component: seq<N>) {
    AllFound(g, component) && LastInFirstOut(g, into, component)
  }

  /** The reverse map is `into`. */
  ghost predicate Lists<N(!new)>(reverse: map<N, seq<N>>, into: Graph<N>) {
    forall w :: Entry(reverse, w) == into(w)
  }

  /** Collects everything that still reaches `root` along reverse edges outside `taken`. */
  method CollectComponent<N(==, !new)>(root: N, reverse: map<N, seq<N>>, taken: set<N>, ghost g: Graph<N>,
                                       ghost order: seq<N>, ghost into: Graph<N>)
    returns (component: seq<N>, visited: set<N>)
    requires ReverseOf(g, order, reverse) && Lists(reverse, into)
    requires root !in taken && root in order
    ensures Collected(g, order, root, taken, component, visited) && Searched(g, into, component)
  {
    component := [];
    visited := taken + {root};
    var stack := [root];
    ReachesSelf(g, root);
    while stack != []
      invariant Collecting(g, order, root, taken, component, stack, visited)
      invariant Searching(g, into, root, component, stack)
      decreases Elements(order) - visited, |stack|
    {
      component, visited, stack := CollectOne(root, reverse, component, visited, stack, g, order, taken, into);
    }
  }

  /** One turn of the reverse search: the top of the stack becomes a member, its new predecessors are stacked. */
  method CollectOne<N(==, !new)>(root: N, reverse: map<N, seq<N>>, component0: seq<N>, visited0: set<N>, stack0: seq<N>,
                                 ghost g: Graph<N>, ghost order: seq<N>, ghost taken: set<N>, ghost into: Graph<N>)
    returns (component: seq<N>, visited: set<N>, stack: seq<N>)
    requires ReverseOf(g, order, reverse) && Lists(reverse, into)
    requires Collecting(g, order, root, taken, component0, stack0, visited0) && stack0 != []
    requires Searching(g, into, root, component0, stack0)
    ensures Collecting(g, order, root, taken, component, stack, visited)
    ensures Searching(g, into, root, component, stack)
    ensures visited0 <= visited && |component| == |component0| + 1
    ensures visited == visited0 ==> |stack| < |stack0|
    ensures visited != visited0 ==> Elements(order) - visited < Elements(order) - visited0
  {
    var node := stack0[|stack0| - 1];
    var below := stack0[..|stack0| - 1];
    BelowVisited(g, order, root, taken, component0, stack0, visited0);
    component := component0 + [node];
    ghost var added;
    EntryListed(g, order, reverse, into, node);
    visited, stack, added := PushUnvisited(Entry(reverse, node), visited0, below);
    CollectTurn(g, order, root, taken, component0, stack0, visited0, into(node), added);
    SearchTurn(g, order, into, root, component0, stack0, visited0, added);
  }

  lemma EntryListed<N(!new)>(g: Graph<N>, order: seq<N>, reverse: map<N, seq<N>>, into: Graph<N>, node: N)
    requires ReverseOf(g, order, reverse) && Lists(reverse, into)
    ensures Entry(reverse, node) == into(node) && forall v :: v in into(node) <==> v in order && node in g(v)
  {
  }

  lemma BelowVisited<N(!new)>(g: Graph<N>, order: seq<N>, root: N, taken: set<N>, component: seq<N>, stack: seq<N>,
                              visited: set<N>)
    requires stack != [] && Collecting(g, order, root, taken, component, stack, visited)
    ensures NoDuplicates(stack[..|stack| - 1]) && Elements(stack[..|stack| - 1]) <= visited
  {
    assert Elements(stack[..|stack| - 1]) <= Elements(stack);
  }

  /** What one turn adds keeps the search on its way. */
  lemma CollectTurn<N(!new)>(g: Graph<N>, order: seq<N>, root: N, taken: set<N>, component: seq<N>, stack: seq<N>,
                             visited: set<N>, predecessors: seq<N>, added: seq<N>)
    requires stack != [] && Collecting(g, order, root, taken, component, stack, visited)
    requires forall v :: v in predecessors <==> v in order && stack[|stack| - 1] in g(v)
    requires NoDuplicates(stack[..|stack| - 1] + added) && Elements(added) == Elements(predecessors) - visited
    ensures
      var below, all := stack[..|stack| - 1], visited + Elements(predecessors);
      && Collecting(g, order, root, taken, component + [stack[|stack| - 1]], below + added, all)
      && (all == visited ==> added == [])
      && (all != visited ==> Elements(order) - all < Elements(order) - visited)
  {
    var node, below, all := stack[|stack| - 1], stack[..|stack| - 1], visited + Elements(predecessors);
    CollectNode(g, order, root, taken, component, stack, visited);
    ElementsAppend(below, added);
    ElementsAppend(component, [node]);
    CollectPredecessors(g, order, root, taken, component + [node], below, visited, node, predecessors, below + added);
    if added != [] {
      assert added[0] in Elements(added) && added[0] in all;
    }
    if all != visited {
      VisitedShrinks(order, visited, all);
    }
  }

  lemma SearchTurn<N(!new)>(g: Graph<N>, order: seq<N>, into: Graph<N>, root: N, component: seq<N>, stack: seq<N>,
                            visited: set<N>, added: seq<N>)
    requires stack != [] && Searching(g, into, root, component, stack)
    requires forall v, w :: w in component && v in order && w in g(v) ==> v in visited
    requires
      var node := stack[|stack| - 1];
      && (forall v :: v in into(node) <==> v in order && node in g(v))
      && Elements(added) == Elements(into(node)) - visited && InOrder(into(node), added)
    ensures Searching(g, into, root, component + [stack[|stack| - 1]], stack[..|stack| - 1] + added)
  {
    var node, below := stack[|stack| - 1], stack[..|stack| - 1];
    assert stack == below + [node];
    AddedFresh(g, order, into, component, visited, node, added);
    SearchingMore(g, into, root, component, below, node, added);
  }

  /** A predecessor that is not yet visited has no edge to an earlier member. */
  lemma AddedFresh<N(!new)>(g: Graph<N>, order: seq<N>, into: Graph<N>, members: seq<N>, visited: set<N>, node: N,
                            added: seq<N>)
    requires forall v, w :: w in members && v in order && w in g(v) ==> v in visited
    requires forall v :: v in into(node) <==> v in order && node in g(v)
    requires Elements(added) == Elements(into(node)) - visited && InOrder(into(node), added)
    ensures Fresh(g, into, members, node, added)
  {
    forall x | x in added ensures node in g(x) && !Found(g, members, x) {
      assert x in Elements(added) && x in Elements(into(node));
      assert forall l :: 0 <= l < |members| ==> members[l] in members;
    }
  }

  lemma VisitedShrinks<N>(order: seq<N>, before: set<N>, after: set<N>)
    requires before < after && after - before <= Elements(order)
    ensures Elements(order) - after < Elements(order) - before
  {
    var x :| x in after && x !in before;
    assert x in after - before;
    assert x in Elements(order) - before && x !in Elements(order) - after;
  }

  /** Every member after the first has a successor among the members listed before it. */
  ghost predicate ReverseListed<N(!new)>(g: Graph<N>, component: seq<N>) {
    forall m :: 0 < m < |component| ==> Leads(g, component[m], component[..m])
  }

  ghost predicate Leads<N(!new)>(g: Graph<N>, x: N, listed: seq<N>) {
    exists l :: 0 <= l < |listed| && listed[l] in g(x)
  }

  lemma SearchedListed<N(!new)>(g: Graph<N>, into: Graph<N>, component: seq<N>)
    requires Searched(g, into, component)
    ensures ReverseListed(g, component)
  {
    forall m | 0 < m < |component| ensures Leads(g, component[m], component[..m]) {
      var l := Finder(g, component, component[m]);
      assert component[..m][l] in g(component[m]);
    }
  }

  /** Stack and component are disjoint, unassigned and reach `root`; `visited` is all of them. */
  ghost predicate CollectShape<N(!new)>(g: Graph<N>, order: seq<N>, root: N, taken: set<N>, component: seq<N>,
                                        stack: seq<N>, visited: set<N>)
  {
    && NoDuplicates(component) && NoDuplicates(stack)
    && Elements(component) !! Elements(stack)
    && visited == taken + Elements(component) + Elements(stack)
    && (Elements(component) + Elements(stack)) !! taken
    && root in Elements(component) + Elements(stack)
    && (forall x :: x in component || x in stack ==> x in order && Reaches(g, x, root))
  }

  ghost predicate Collecting<N(!new)>(g: Graph<N>, order: seq<N>, root: N, taken: set<N>, component: seq<N>,
                                      stack: seq<N>, visited: set<N>)
  {
    && CollectShape(g, order, root, taken, component, stack, visited)
    && (forall v, w :: w in component && v in order && w in g(v) ==> v in visited)
  }

  lemma CollectNode<N(!new)>(g: Graph<N>, order: seq<N>, root: N, taken: set<N>, component: seq<N>, stack: seq<N>,
                             visited: set<N>)
    requires CollectShape(g, order, root, taken, component, stack, visited) && stack != []
    ensures CollectShape(g, order, root, taken, component + [stack[|stack| - 1]], stack[..|stack| - 1], visited)
  {
    var node, below := stack[|stack| - 1], stack[..|stack| - 1];
    assert stack == below + [node];
    ElementsAppend(below, [node]);
    ElementsAppend(component, [node]);
    assert node in Elements(stack) && node !in Elements(component);
    assert node !in Elements(below);
  }

  lemma CollectPredecessors<N(!new)>(g: Graph<N>, order: seq<N>, root: N, taken: set<N>, component: seq<N>,
                                     below: seq<N>, before: set<N>,
                                     node: N, predecessors: seq<N>, stack: seq<N>)
    requires CollectShape(g, order, root, taken, component, below, before) && node in component
    requires forall v :: v in predecessors <==> v in order && node in g(v)
    requires forall v, w :: w in component && w != node && v in order && w in g(v) ==> v in before
    requires NoDuplicates(stack) && Elements(stack) == Elements(below) + (Elements(predecessors) - before)
    ensures Collecting(g, order, root, taken, component, stack, before + Elements(predecessors))
  {
    forall x | x in stack ensures x in order && Reaches(g, x, root) {
      assert x in Elements(stack);
      if x in Elements(predecessors) {
        ReachesEdge(g, x, node);
        ReachesTransitive(g, x, node, root);
      }
    }
  }

  /** What pass two maintains between two roots of the reversed finish order. */
  ghost predicate Partial<N(!new)>(g: Graph<N>, order: seq<N>, components: seq<seq<N>>, visited: set<N>) {
    && (forall c :: 0 <= c < |components| ==> IsComponent(g, components[c]))
    && (forall x :: x in visited <==> InPrefix(components, |components|, x))
    && (forall x :: x in visited ==> x in order)
    && (forall c, d, x :: 0 <= c < d < |components| && x in components[c] ==> x !in components[d])
    && (forall limit :: 0 <= limit <= |components| ==> PrefixClosed(g, order, components, limit))
  }

  lemma ComponentsSaturated<N(!new)>(g: Graph<N>, order: seq<N>, components: seq<seq<N>>, visited: set<N>, x: N, y: N)
    requires Partial(g, order, components, visited) && x in visited && Mutual(g, x, y)
    ensures y in visited
  {
    var c :| 0 <= c < |components| && x in components[c];
    assert IsComponent(g, components[c]);
    assert InPrefix(components, |components|, y);
  }

  /** The last unassigned finisher's component is exactly what one reverse search from it collects. */
  lemma CollectedIsComponent<N(!new)>(g: Graph<N>, order: seq<N>, components: seq<seq<N>>, visited: set<N>, j: nat,
                                      component: seq<N>, visited': set<N>)
    requires FinishLaw(g, order) && NoDuplicates(order)
    requires ClosedOrder(g, order)
    requires Partial(g, order, components, visited)
    requires j < |order| && order[j] !in visited && forall k :: j < k < |order| ==> order[k] in visited
    requires Collected(g, order, order[j], visited, component, visited')
    ensures IsComponent(g, component)
  {
    var root := order[j];
    assert root in component;
    forall x | x in component ensures Mutual(g, x, root) {
      var i :| 0 <= i < |order| && order[i] == x;
      var m := ComponentFinishesLate(g, order, i, j);
      if m != j {
        ComponentsSaturated(g, order, components, visited, order[m], x);
        assert false;
      }
    }
    forall y | Mutual(g, root, y) ensures y in component {
      if y !in component {
        var outside := iset x | x !in component;
        var u, w := Crossing(g, y, root, outside);
        ReachesTransitive(g, root, y, u);
        ClosedReaches(g, (set x | x in order), root, u);
        ReachesEdge(g, u, w);
        ReachesTransitive(g, u, w, root);
        ComponentsSaturated(g, order, components, visited, u, root);
        assert false;
      }
    }
    forall x, y | x in component ensures y in component <==> Mutual(g, x, y) {
      if y in component {
        MutualTransitive(g, x, root, y);
      }
      if Mutual(g, x, y) {
        MutualTransitive(g, root, x, y);
      }
    }
  }

  lemma PartialExtends<N(!new)>(g: Graph<N>, order: seq<N>, components: seq<seq<N>>, visited: set<N>,
                                component: seq<N>, visited': set<N>)
    requires Partial(g, order, components, visited) && IsComponent(g, component)
    requires component != [] && Collected(g, order, component[0], visited, component, visited')
    ensures Partial(g, order, components + [component], visited')
  {
    var more := components + [component];
    forall limit: nat, x | limit <= |components| ensures InPrefix(more, limit, x) <==> InPrefix(components, limit, x) {
      if i :| 0 <= i < limit && x in components[i] { assert x in more[i]; }
    }
    forall x ensures InPrefix(more, |more|, x) <==> x in visited' {
      if x in component { assert x in more[|components|]; }
      if x in visited {
        var i :| 0 <= i < |components| && x in components[i];
        assert x in more[i];
      }
    }
    forall c, d, x | 0 <= c < d < |more| && x in more[c] ensures x !in more[d] {
      if d == |components| { assert InPrefix(components, |components|, x); }
    }
    forall limit | 0 <= limit <= |more| ensures PrefixClosed(g, order, more, limit) {
      if limit <= |components| {
        assert PrefixClosed(g, order, components, limit);
      } else {
        assert PrefixClosed(g, order, components, |components|);
      }
    }
  }

  /** Vertices are ordered by reachability across components, not only along single edges. */
  lemma EarlierReachesLater<N(!new)>(g: Graph<N>, order: seq<N>, components: seq<seq<N>>, visited: set<N>, i: nat,
                                     j: nat, x: N, y: N)
    requires Partial(g, order, components, visited) && forall v :: v in order ==> v in visited
    requires ClosedOrder(g, order)
    requires i < |components| && j < |components| && x in components[i] && y in components[j] && Reaches(g, x, y)
    ensures i <= j
  {
    if j < i {
      var limit := j + 1;
      assert PrefixClosed(g, order, components, limit);
      var outside := iset v | !InPrefix(components, limit, v);
      assert InPrefix(components, limit, y);
      assert x in outside;
      var u, w := Crossing(g, x, y, outside);
      assert InPrefix(components, |components|, x);
      ClosedReaches(g, (set v | v in order), x, u);
      assert false;
    }
  }

  // ------------------------------------------------------------------ the order of components

  /** Two vertices share a component if and only if each reaches the other. */
  ghost predicate Grouped<N(!new)>(g: Graph<N>, components: seq<seq<N>>) {
    forall c, d, x, y :: 0 <= c < |components| && 0 <= d < |components| && x in components[c] && y in components[d] ==>
      (c == d <==> Mutual(g, x, y))
  }

  /** Walks lead from earlier components to later ones. */
  ghost predicate WalksForward<N(!new)>(g: Graph<N>, components: seq<seq<N>>) {
    forall c, d, x, y :: 0 <= c < |components| && 0 <= d < |components| && x in components[c] && y in components[d] ==>
      (Reaches(g, x, y) ==> c <= d)
  }

  /** What the first `k` roots reach comes after everything else. */
  ghost predicate RootsBackward<N(!new)>(g: Graph<N>, roots: seq<N>, components: seq<seq<N>>) {
    forall k, c, d, x, y :: 0 <= k <= |roots| && 0 <= c < |components| && x in components[c]
                            && 0 <= d < |components| && y in components[d] ==>
      (ReachedFrom(g, roots[..k], x) && !ReachedFrom(g, roots[..k], y) ==> d < c)
  }

  /** A root that no earlier root reaches is the first member of its component. */
  ghost predicate RootsLead<N(!new)>(g: Graph<N>, roots: seq<N>, components: seq<seq<N>>) {
    forall i, c :: 0 <= i < |roots| && 0 <= c < |components| ==>
      (roots[i] in components[c] && !ReachedFrom(g, roots[..i], roots[i]) ==> components[c][0] == roots[i])
  }

  /** What the first `k` children of root `i` reach, apart from its own component, comes after everything else. */
  ghost predicate ChildrenBackward<N(!new)>(g: Graph<N>, roots: seq<N>, components: seq<seq<N>>, i: nat, k: nat)
    requires i < |roots| && k <= |g(roots[i])|
  {
    forall c, d, x, y :: 0 <= c < |components| && x in components[c] && 0 <= d < |components| && y in components[d] ==>
      (ChildReached(g, roots, i, k, x) && !Mutual(g, x, roots[i]) && !ChildReached(g, roots, i, k, y) ==> d < c)
  }

  /** So it is for every root that no earlier one reaches. */
  ghost predicate SuccessorsBackward<N(!new)>(g: Graph<N>, roots: seq<N>, components: seq<seq<N>>) {
    forall i, k :: 0 <= i < |roots| && !ReachedFrom(g, roots[..i], roots[i]) && 0 <= k <= |g(roots[i])| ==>
      ChildrenBackward(g, roots, components, i, k)
  }

  /** `at[c]` is the finish position of the first member of component `c`, and the last position of any member. */
  ghost predicate Led<N(!new)>(order: seq<N>, components: seq<seq<N>>, at: seq<nat>) {
    && |at| == |components|
    && (forall c :: 0 <= c < |at| ==> at[c] < |order| && components[c] != [] && components[c][0] == order[at[c]])
    && (forall c, m :: 0 <= c < |at| && 0 <= m < |order| && order[m] in components[c] ==> m <= at[c])
    && (forall c, d :: 0 <= c < d < |at| ==> at[d] < at[c])
  }

  lemma LedMore<N(!new)>(order: seq<N>, components: seq<seq<N>>, at: seq<nat>, visited: set<N>, j: nat,
                         component: seq<N>)
    requires Led(order, components, at) && j < |order| && forall c :: 0 <= c < |at| ==> j < at[c]
    requires component != [] && component[0] == order[j] && forall x :: x in component ==> x !in visited
    requires forall k :: j < k < |order| ==> order[k] in visited
    ensures Led(order, components + [component], at + [j])
  {
  }

  /** Whether the first `k` roots reach a component is decided by the finish position of its first member. */
  lemma LeaderDecides<N(!new)>(g: Graph<N>, roots: seq<N>, order: seq<N>, k: nat, n: nat, component: seq<N>, m: nat,
                               x: N)
    requires NoDuplicates(order) && k <= |roots| && Batch(g, roots, order, k, n)
    requires IsComponent(g, component) && x in component && m < |order| && component[0] == order[m]
    ensures ReachedFrom(g, roots[..k], x) <==> m < n
  {
    var leader := component[0];
    assert Mutual(g, x, leader);
    if ReachedFrom(g, roots[..k], x) {
      ReachedOnward(g, roots[..k], x, leader);
      var l :| 0 <= l < n && order[l] == leader;
    }
    if m < n {
      assert order[..n][m] == leader;
      ReachedOnward(g, roots[..k], leader, x);
    }
  }

  lemma LedBackward<N(!new)>(g: Graph<N>, roots: seq<N>, order: seq<N>, cuts: seq<nat>, components: seq<seq<N>>,
                             at: seq<nat>)
    requires NoDuplicates(order) && |cuts| == |roots| + 1
    requires Batched(g, roots, order, cuts) && Led(order, components, at)
    requires forall c :: 0 <= c < |components| ==> IsComponent(g, components[c])
    ensures RootsBackward(g, roots, components)
  {
    forall k, c, d, x, y | 0 <= k <= |roots| && 0 <= c < |components| && 0 <= d < |components|
      && x in components[c] && y in components[d] && ReachedFrom(g, roots[..k], x) && !ReachedFrom(g, roots[..k], y)
      ensures d < c
    {
      LeaderDecides(g, roots, order, k, cuts[k], components[c], at[c], x);
      LeaderDecides(g, roots, order, k, cuts[k], components[d], at[d], y);
    }
  }

  lemma LedByRoot<N(!new)>(g: Graph<N>, roots: seq<N>, order: seq<N>, cuts: seq<nat>, components: seq<seq<N>>,
                           at: seq<nat>,
                           i: nat, c: nat)
    requires NoDuplicates(order) && |cuts| == |roots| + 1
    requires Batched(g, roots, order, cuts) && Led(order, components, at)
    requires i < |roots| && c < |components| && IsComponent(g, components[c]) && roots[i] in components[c]
    requires !ReachedFrom(g, roots[..i], roots[i])
    ensures components[c][0] == roots[i]
  {
    var root := roots[i];
    assert Batch(g, roots, order, i, cuts[i]) && Batch(g, roots, order, i + 1, cuts[i + 1]);
    LeaderDecides(g, roots, order, i, cuts[i], components[c], at[c], root);
    ReachesSelf(g, root);
    assert root in roots[..i + 1] by { assert roots[..i + 1][i] == root; }
    LeaderDecides(g, roots, order, i + 1, cuts[i + 1], components[c], at[c], root);
    assert LastOfBatch(roots, order, cuts, i);
    assert order[cuts[i + 1] - 1] in components[c];
  }

  /** The sources of the edges into a vertex, in the order in which the depth-first walk from the roots reads them. */
  ghost function ReadInto<N(!new)>(g: Graph<N>, universe: set<N>, roots: seq<N>): Graph<N>
    requires Closed(g, universe) && forall r :: r in roots ==> r in universe
  {
    var edges := FromRoots(g, universe, roots, |roots|).edges;
    w => Sources(edges, w)
  }

  ghost predicate LedByFinish<N(!new)>(order: seq<N>, components: seq<seq<N>>) {
    exists at :: Led(order, components, at)
  }

  method StronglyConnectedComponents<N(==, !new)>(roots: seq<N>, successors: Graph<N>, ghost universe: set<N>)
    returns (components: seq<seq<N>>)
    requires Closed(successors, universe) && forall r :: r in roots ==> r in universe
    // the lists hold exactly the vertices reachable from the roots ...
    ensures forall x :: InPrefix(components, |components|, x) <==> ReachedFrom(successors, roots, x)
    // ... each once ...
    ensures forall c :: 0 <= c < |components| ==> components[c] != [] && NoDuplicates(components[c])
    ensures forall c, d, x :: 0 <= c < d < |components| && x in components[c] ==> x !in components[d]
    // ... grouped by mutual reachability ...
    ensures Grouped(successors, components)
    // ... with every walk leading from earlier components to later ones ...
    ensures WalksForward(successors, components)
    // ... while what earlier roots reach comes later
    ensures RootsBackward(successors, roots, components)
    // ... and what earlier successors of a root reach comes later too
    ensures SuccessorsBackward(successors, roots, components)
    // the last finisher of the depth-first walk leads its component, and later finishers lead earlier ones ...
    ensures RootsLead(successors, roots, components)
    ensures LedByFinish(FromRoots(successors, universe, roots, |roots|).order, components)
    // ... and the members follow as a search along reverse edges takes them, last in, first out
    ensures forall c :: 0 <= c < |components| ==> ReverseListed(successors, components[c])
    ensures forall c :: 0 <= c < |components| ==>
              Searched(successors, ReadInto(successors, universe, roots), components[c])
  {
    var order, reverse, cuts, edges := FinishOrder(roots, successors, universe);
    ghost var into := ReadInto(successors, universe, roots);
    assert Lists(reverse, into) by {
      assert forall w :: into(w) == Sources(edges, w);
    }
    forall v, w | v in order && w in successors(v) ensures w in order {
      SuccessorReached(successors, roots, v, w);
    }
    ghost var at, visited;
    components, visited, at := AssignComponents(order, reverse, successors, into);
    Decomposed(successors, roots, order, cuts, components, visited, at, into);
  }

  /** What both passes together guarantee. */
  lemma Decomposed<N(!new)>(g: Graph<N>, roots: seq<N>, order: seq<N>, cuts: seq<nat>, components: seq<seq<N>>,
                            visited: set<N>, at: seq<nat>, into: Graph<N>)
    requires NoDuplicates(order) && ClosedOrder(g, order) && forall x :: x in order <==> ReachedFrom(g, roots, x)
    requires |cuts| == |roots| + 1 && Batched(g, roots, order, cuts)
    requires Assigned(g, order, components, visited, at, 0, into)
    requires ChildCuts(g, roots, |roots|, order)
    ensures forall x :: InPrefix(components, |components|, x) <==> ReachedFrom(g, roots, x)
    ensures forall c :: 0 <= c < |components| ==> components[c] != [] && NoDuplicates(components[c])
    ensures forall c, d, x :: 0 <= c < d < |components| && x in components[c] ==> x !in components[d]
    ensures Grouped(g, components) && WalksForward(g, components)
    ensures RootsBackward(g, roots, components) && RootsLead(g, roots, components)
    ensures SuccessorsBackward(g, roots, components)
    ensures LedByFinish(order, components)
    ensures forall c :: 0 <= c < |components| ==> ReverseListed(g, components[c]) && Searched(g, into, components[c])
  {
    forall c | 0 <= c < |components| ensures ReverseListed(g, components[c]) {
      SearchedListed(g, into, components[c]);
    }
    ComponentsOrdered(g, order, components, visited);
    LedBackward(g, roots, order, cuts, components, at);
    LedByRoots(g, roots, order, cuts, components, at);
    LedBySuccessors(g, roots, order, components, at);
  }

  /** Every finisher from `j` on is visited, and each component is led by its last finisher. */
  ghost predicate Lined<N(!new)>(g: Graph<N>, order: seq<N>, components: seq<seq<N>>, visited: set<N>, at: seq<nat>,
                                 j: nat, into: Graph<N>)
  {
    && Led(order, components, at) && (forall c :: 0 <= c < |at| ==> j <= at[c])
    && (forall c :: 0 <= c < |components| ==> Searched(g, into, components[c]))
    && (forall k :: j <= k < |order| ==> order[k] in visited)
  }

  /** Pass two after the finishers from `j` on. */
  ghost predicate Assigned<N(!new)>(g: Graph<N>, order: seq<N>, components: seq<seq<N>>, visited: set<N>, at: seq<nat>,
                                    j: nat, into: Graph<N>)
  {
    Partial(g, order, components, visited) && Lined(g, order, components, visited, at, j, into)
  }

  /** Pass two: the finish order in reverse, each vertex not yet assigned leading a new component. */
  method AssignComponents<N(==, !new)>(order: seq<N>, reverse: map<N, seq<N>>, ghost g: Graph<N>, ghost into: Graph<N>)
    returns (components: seq<seq<N>>, ghost done: set<N>, ghost at: seq<nat>)
    requires NoDuplicates(order) && FinishLaw(g, order)
    requires ClosedOrder(g, order)
    requires ReverseOf(g, order, reverse) && Lists(reverse, into)
    ensures Assigned(g, order, components, done, at, 0, into)
  {
    var visited: set<N> := {};
    components, at := [], [];
    AssignedStart(g, order, into);
    for j := |order| downto 0
      invariant Assigned(g, order, components, visited, at, j, into)
    {
      if order[j] in visited {
        AssignedSkips(g, order, components, visited, at, j, into);
      } else {
        components, visited, at := AssignOne(order, reverse, j, components, visited, g, at, into);
      }
    }
    done := visited;
  }

  lemma AssignedStart<N(!new)>(g: Graph<N>, order: seq<N>, into: Graph<N>)
    ensures Assigned(g, order, [], {}, [], |order|, into)
  {
  }

  lemma AssignedSkips<N(!new)>(g: Graph<N>, order: seq<N>, components: seq<seq<N>>, visited: set<N>, at: seq<nat>,
                               j: nat, into: Graph<N>)
    requires j < |order| && order[j] in visited && Assigned(g, order, components, visited, at, j + 1, into)
    ensures Assigned(g, order, components, visited, at, j, into)
  {
  }

  method AssignOne<N(==, !new)>(order: seq<N>, reverse: map<N, seq<N>>, j: nat, components0: seq<seq<N>>,
                                visited0: set<N>, ghost g: Graph<N>, ghost at0: seq<nat>, ghost into: Graph<N>)
    returns (components: seq<seq<N>>, visited: set<N>, ghost at: seq<nat>)
    requires NoDuplicates(order) && FinishLaw(g, order) && ClosedOrder(g, order)
    requires ReverseOf(g, order, reverse) && Lists(reverse, into)
    requires j < |order| && order[j] !in visited0 && Assigned(g, order, components0, visited0, at0, j + 1, into)
    ensures Assigned(g, order, components, visited, at, j, into)
  {
    var component;
    component, visited := CollectComponent(order[j], reverse, visited0, g, order, into);
    AssignedMore(g, order, components0, visited0, at0, j, component, visited, into);
    components, at := components0 + [component], at0 + [j];
  }

  lemma AssignedMore<N(!new)>(g: Graph<N>, order: seq<N>, components: seq<seq<N>>, visited: set<N>, at: seq<nat>,
                              j: nat, component: seq<N>, visited': set<N>, into: Graph<N>)
    requires NoDuplicates(order) && FinishLaw(g, order) && ClosedOrder(g, order)
    requires j < |order| && order[j] !in visited && Assigned(g, order, components, visited, at, j + 1, into)
    requires Collected(g, order, order[j], visited, component, visited') && Searched(g, into, component)
    ensures Assigned(g, order, components + [component], visited', at + [j], j, into)
  {
    CollectedIsComponent(g, order, components, visited, j, component, visited');
    PartialExtends(g, order, components, visited, component, visited');
    LinedMore(g, order, components, visited, at, j, component, visited', into);
  }

  lemma LinedMore<N(!new)>(g: Graph<N>, order: seq<N>, components: seq<seq<N>>, visited: set<N>, at: seq<nat>,
                           j: nat, component: seq<N>, visited': set<N>, into: Graph<N>)
    requires j < |order| && Lined(g, order, components, visited, at, j + 1, into)
    requires Collected(g, order, order[j], visited, component, visited') && Searched(g, into, component)
    ensures Lined(g, order, components + [component], visited', at + [j], j, into)
  {
    LedMore(order, components, at, visited, j, component);
    assert order[j] in component;
  }

  /** Components are grouped by mutual reachability and ordered by reachability. */
  lemma ComponentsOrdered<N(!new)>(g: Graph<N>, order: seq<N>, components: seq<seq<N>>, visited: set<N>)
    requires Partial(g, order, components, visited) && forall v :: v in order ==> v in visited
    requires ClosedOrder(g, order)
    ensures WalksForward(g, components) && Grouped(g, components)
  {
    forall c, d, x, y | 0 <= c < |components| && 0 <= d < |components| && x in components[c] && y in components[d]
      ensures (c == d <==> Mutual(g, x, y)) && (Reaches(g, x, y) ==> c <= d)
    {
      assert IsComponent(g, components[c]);
      if Reaches(g, x, y) {
        EarlierReachesLater(g, order, components, visited, c, d, x, y);
      }
    }
  }

  lemma LedByRoots<N(!new)>(g: Graph<N>, roots: seq<N>, order: seq<N>, cuts: seq<nat>, components: seq<seq<N>>,
                            at: seq<nat>)
    requires NoDuplicates(order) && |cuts| == |roots| + 1
    requires Batched(g, roots, order, cuts) && Led(order, components, at)
    requires forall c :: 0 <= c < |components| ==> IsComponent(g, components[c])
    ensures RootsLead(g, roots, components)
  {
    forall i, c | 0 <= i < |roots| && 0 <= c < |components| && roots[i] in components[c]
      && !ReachedFrom(g, roots[..i], roots[i])
      ensures components[c][0] == roots[i]
    {
      LedByRoot(g, roots, order, cuts, components, at, i, c);
    }
  }

  // ------------------------------------------------------------------ components in successor order

  lemma CutReaches<N(!new)>(g: Graph<N>, root: N, x: N, y: N)
    requires Reaches(Cut(g, root), x, y)
    ensures Reaches(g, x, y)
  {
    var p :| PathBetween(Cut(g, root), x, y, p);
    assert PathBetween(g, x, y, p);
  }

  /** A walk from a vertex that does not reach the root does not use its edges. */
  lemma AvoidsRoot<N(!new)>(g: Graph<N>, root: N, x: N, y: N)
    requires Reaches(g, x, y) && !Reaches(g, x, root)
    ensures Reaches(Cut(g, root), x, y)
  {
    var p :| PathBetween(g, x, y, p);
    forall i | 0 <= i < |p| - 1 ensures p[i + 1] in Cut(g, root)(p[i]) {
      assert PathBetween(g, x, p[i], p[..i + 1]);
    }
    assert PathBetween(Cut(g, root), x, y, p);
  }

  lemma UnderReached<N(!new)>(g: Graph<N>, root: N, k: nat, x: N)
    requires k <= |g(root)| && UnderRoot(g, root, k, x)
    ensures Reaches(g, root, x)
  {
    var v :| v in [root] + g(root)[..k] && Reaches(Cut(g, root), v, x);
    CutReaches(g, root, v, x);
    if v != root {
      ReachesEdge(g, root, v);
      ReachesTransitive(g, root, v, x);
    }
  }

  /** What the children reach is closed under walks that do not lead back to the root. */
  lemma ChildReachedOnward<N(!new)>(g: Graph<N>, roots: seq<N>, i: nat, k: nat, x: N, y: N)
    requires i < |roots| && k <= |g(roots[i])| && ChildReached(g, roots, i, k, x) && Reaches(g, x, y)
    requires Mutual(g, x, roots[i]) ==> ReachedFrom(g, roots[..i], x)
    ensures ChildReached(g, roots, i, k, y)
  {
    var root := roots[i];
    if ReachedFrom(g, roots[..i], x) {
      ReachedOnward(g, roots[..i], x, y);
    } else {
      UnderReached(g, root, k, x);
      AvoidsRoot(g, root, x, y);
      ReachedOnward(Cut(g, root), [root] + g(root)[..k], x, y);
    }
  }

  /** A component that the children reach is led from among the first `n` finishers, and no other component is. */
  lemma ChildLeader<N(!new)>(g: Graph<N>, roots: seq<N>, order: seq<N>, i: nat, k: nat, n: nat, component: seq<N>,
                             m: nat, x: N)
    requires NoDuplicates(order) && i < |roots| && k <= |g(roots[i])| && ChildPoint(g, roots, order, i, k, n)
    requires IsComponent(g, component) && x in component && m < |order| && component[0] == order[m]
    requires roots[i] in component ==> component[0] == roots[i]
    ensures ChildReached(g, roots, i, k, x) && !Mutual(g, x, roots[i]) ==> m < n
    ensures m < n ==> ChildReached(g, roots, i, k, x)
  {
    var leader := component[0];
    assert Mutual(g, x, leader) && Mutual(g, leader, x);
    if ChildReached(g, roots, i, k, x) && !Mutual(g, x, roots[i]) {
      ChildReachedOnward(g, roots, i, k, x, leader);
      assert leader in order[..n];
      var l :| 0 <= l < n && order[l] == leader;
    }
    if m < n {
      assert order[..n][m] == leader;
      assert roots[i] in component <==> Mutual(g, leader, roots[i]);
      ChildReachedOnward(g, roots, i, k, leader, x);
    }
  }

  lemma LedBySuccessors<N(!new)>(g: Graph<N>, roots: seq<N>, order: seq<N>, components: seq<seq<N>>, at: seq<nat>)
    requires NoDuplicates(order) && Led(order, components, at) && RootsLead(g, roots, components)
    requires forall c :: 0 <= c < |components| ==> IsComponent(g, components[c])
    requires ChildCuts(g, roots, |roots|, order)
    ensures SuccessorsBackward(g, roots, components)
  {
    forall i, k | 0 <= i < |roots| && !ReachedFrom(g, roots[..i], roots[i]) && 0 <= k <= |g(roots[i])|
      ensures ChildrenBackward(g, roots, components, i, k)
    {
      LedByChildren(g, roots, order, components, at, i, k);
    }
  }

  lemma LedByChildren<N(!new)>(g: Graph<N>, roots: seq<N>, order: seq<N>, components: seq<seq<N>>, at: seq<nat>,
                               i: nat, k: nat)
    requires NoDuplicates(order) && Led(order, components, at) && RootsLead(g, roots, components)
    requires forall c :: 0 <= c < |components| ==> IsComponent(g, components[c])
    requires i < |roots| && !ReachedFrom(g, roots[..i], roots[i]) && k <= |g(roots[i])|
    requires ChildCut(g, roots, order, i, k)
    ensures ChildrenBackward(g, roots, components, i, k)
  {
    var n: nat :| ChildPoint(g, roots, order, i, k, n);
    forall c, d, x, y | 0 <= c < |components| && x in components[c] && 0 <= d < |components| && y in components[d]
      && ChildReached(g, roots, i, k, x) && !Mutual(g, x, roots[i]) && !ChildReached(g, roots, i, k, y)
      ensures d < c
    {
      ChildLeader(g, roots, order, i, k, n, components[c], at[c], x);
      ChildLeader(g, roots, order, i, k, n, components[d], at[d], y);
    }
  }
}
