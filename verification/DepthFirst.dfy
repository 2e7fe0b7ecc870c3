/**
  * The depth-first walk of pass one (crates/bray-base/src/graph.rs) written as recursion: what is visited, in
  * which order vertices finish, and in which order edges are read.
  */
module DepthFirst {
  import opened Reachability

  datatype Edge<N> = Edge(source: N, target: N)

  datatype Walk<N> = Walk(visited: set<N>, order: seq<N>, edges: seq<Edge<N>>)

  /** The vertices of a finite graph: every successor of one is one. */
  ghost predicate Inside<N(!new)>(g: Graph<N>, universe: set<N>, s: Walk<N>) {
    Closed(g, universe) && s.visited <= universe
  }

  /** Visits `v` unless it has been visited: its children one after the other, then it finishes. */
  ghost function Descend<N(!new)>(g: Graph<N>, universe: set<N>, v: N, s: Walk<N>): (t: Walk<N>)
    requires Inside(g, universe, s) && v in universe
    ensures s.visited <= t.visited && Inside(g, universe, t)
    decreases universe - s.visited, 0, 0
  {
    if v in s.visited then s
    else
      var t := Children(g, universe, v, 0, s.(visited := s.visited + {v}));
      t.(order := t.order + [v])
  }

  /** Reads the children of `v` from position `i` on and visits each. */
  ghost function Children<N(!new)>(g: Graph<N>, universe: set<N>, v: N, i: nat, s: Walk<N>): (t: Walk<N>)
    requires Inside(g, universe, s) && v in universe && i <= |g(v)|
    ensures s.visited <= t.visited && Inside(g, universe, t)
    decreases universe - s.visited, 1, |g(v)| - i
  {
    if i == |g(v)| then s
    else
      var w := g(v)[i];
      var t := Descend(g, universe, w, s.(edges := s.edges + [Edge(v, w)]));
      Children(g, universe, v, i + 1, t)
  }

  /** The first `k` roots, one after the other. */
  ghost function FromRoots<N(!new)>(g: Graph<N>, universe: set<N>, roots: seq<N>, k: nat): (t: Walk<N>)
    requires Closed(g, universe) && (forall r :: r in roots ==> r in universe) && k <= |roots|
    ensures Inside(g, universe, t)
    decreases k
  {
    if k == 0 then Walk({}, [], []) else Descend(g, universe, roots[k - 1], FromRoots(g, universe, roots, k - 1))
  }

  /** The sources of the edges into `w`, in the order they were read. */
  ghost function Sources<N(!new)>(edges: seq<Edge<N>>, w: N): seq<N>
    decreases |edges|
  {
    if edges == [] then []
    else
      var last := edges[|edges| - 1];
      Sources(edges[..|edges| - 1], w) + if last.target == w then [last.source] else []
  }

  lemma SourcesMore<N(!new)>(edges: seq<Edge<N>>, e: Edge<N>, w: N)
    ensures Sources(edges + [e], w) == Sources(edges, w) + if e.target == w then [e.source] else []
  {
    assert (edges + [e])[..|edges|] == edges;
  }

  /** The vertex set only bounds the walk: any two that hold the graph give the same one. */
  lemma {:induction false} DescendSame<N(!new)>(g: Graph<N>, u: set<N>, w: set<N>, v: N, s: Walk<N>)
    requires Inside(g, u, s) && Inside(g, w, s) && v in u && v in w
    ensures Descend(g, u, v, s) == Descend(g, w, v, s)
    decreases u - s.visited, 0, 0
  {
    if v !in s.visited {
      ChildrenSame(g, u, w, v, 0, s.(visited := s.visited + {v}));
    }
  }

  lemma {:induction false} ChildrenSame<N(!new)>(g: Graph<N>, u: set<N>, w: set<N>, v: N, i: nat, s: Walk<N>)
    requires Inside(g, u, s) && Inside(g, w, s) && v in u && v in w && i <= |g(v)|
    ensures Children(g, u, v, i, s) == Children(g, w, v, i, s)
    decreases u - s.visited, 1, |g(v)| - i
  {
    if i < |g(v)| {
      var read := s.(edges := s.edges + [Edge(v, g(v)[i])]);
      assert g(v)[i] in g(v);
      DescendSame(g, u, w, g(v)[i], read);
      ChildrenSame(g, u, w, v, i + 1, Descend(g, u, g(v)[i], read));
    }
  }

  lemma {:induction false} WalkSame<N(!new)>(g: Graph<N>, u: set<N>, w: set<N>, roots: seq<N>, k: nat)
    requires Closed(g, u) && Closed(g, w) && (forall r :: r in roots ==> r in u && r in w) && k <= |roots|
    ensures FromRoots(g, u, roots, k) == FromRoots(g, w, roots, k)
  {
    if k > 0 {
      WalkSame(g, u, w, roots, k - 1);
      DescendSame(g, u, w, roots[k - 1], FromRoots(g, u, roots, k - 1));
    }
  }

  // ------------------------------------------------------------------ an explicit stack

  /** One entry of the explicit depth-first stack: a vertex and its child iterator's next position. */
  datatype Frame<N> = Frame(node: N, children: seq<N>, next: nat)

  /** The frames belong to the graph. */
  ghost predicate Framed<N(!new)>(g: Graph<N>, universe: set<N>, stack: seq<Frame<N>>) {
    forall k :: 0 <= k < |stack| ==>
      stack[k].node in universe && stack[k].children == g(stack[k].node) && stack[k].next <= |stack[k].children|
  }

  /** What is left to do when the recursion stands where the stack says. */
  ghost function Unwind<N(!new)>(g: Graph<N>, universe: set<N>, stack: seq<Frame<N>>, s: Walk<N>): (t: Walk<N>)
    requires Inside(g, universe, s) && Framed(g, universe, stack)
    decreases |stack|
  {
    if stack == [] then s
    else
      var top := stack[|stack| - 1];
      var t := Children(g, universe, top.node, top.next, s);
      Unwind(g, universe, stack[..|stack| - 1], t.(order := t.order + [top.node]))
  }

  lemma UnwindRoot<N(!new)>(g: Graph<N>, universe: set<N>, root: N, s: Walk<N>)
    requires Inside(g, universe, s) && root in universe && root !in s.visited
    ensures Unwind(g, universe, [Frame(root, g(root), 0)], s.(visited := s.visited + {root}))
            == Descend(g, universe, root, s)
  {
    assert [Frame(root, g(root), 0)][..0] == [];
  }

  /** The innermost frame has read all its children. */
  lemma UnwindFinish<N(!new)>(g: Graph<N>, universe: set<N>, stack: seq<Frame<N>>, s: Walk<N>)
    requires Inside(g, universe, s) && Framed(g, universe, stack) && stack != []
    requires stack[|stack| - 1].next == |stack[|stack| - 1].children|
    ensures Unwind(g, universe, stack, s)
            == Unwind(g, universe, stack[..|stack| - 1], s.(order := s.order + [stack[|stack| - 1].node]))
  {
  }

  lemma UnwindTop<N(!new)>(g: Graph<N>, universe: set<N>, below: seq<Frame<N>>, top: Frame<N>, s: Walk<N>)
    requires Inside(g, universe, s) && Framed(g, universe, below) && Framed(g, universe, below + [top])
    requires top.node in universe && top.next <= |g(top.node)|
    ensures
      var t := Children(g, universe, top.node, top.next, s);
      Unwind(g, universe, below + [top], s) == Unwind(g, universe, below, t.(order := t.order + [top.node]))
  {
    assert (below + [top])[..|below|] == below;
  }

  lemma FramedOne<N(!new)>(g: Graph<N>, universe: set<N>, below: seq<Frame<N>>, top: Frame<N>)
    ensures Framed(g, universe, below + [top]) <==>
            Framed(g, universe, below) && top.node in universe && top.children == g(top.node)
            && top.next <= |top.children|
  {
    var stack := below + [top];
    assert stack[|below|] == top && forall k :: 0 <= k < |below| ==> stack[k] == below[k];
  }

  /** The innermost frame reads its next child, which is pushed if it is new. */
  lemma UnwindRead<N(!new)>(g: Graph<N>, universe: set<N>, below: seq<Frame<N>>, top: Frame<N>, s: Walk<N>)
    requires Inside(g, universe, s) && Framed(g, universe, below + [top]) && top.next < |top.children|
    ensures
      var w, after := top.children[top.next], below + [top.(next := top.next + 1)];
      var t := s.(edges := s.edges + [Edge(top.node, w)]);
      && w in universe && Framed(g, universe, after) && Framed(g, universe, after + [Frame(w, g(w), 0)])
      && Unwind(g, universe, below + [top], s)
         == if w in s.visited then Unwind(g, universe, after, t)
            else Unwind(g, universe, after + [Frame(w, g(w), 0)], t.(visited := s.visited + {w}))
  {
    var next := top.(next := top.next + 1);
    var w, after := top.children[top.next], below + [next];
    var t := s.(edges := s.edges + [Edge(top.node, w)]);
    FramedOne(g, universe, below, top);
    FramedOne(g, universe, below, next);
    assert w in g(top.node);
    FramedOne(g, universe, after, Frame(w, g(w), 0));
    UnwindTop(g, universe, below, top, s);
    UnwindTop(g, universe, below, next, Descend(g, universe, w, t));
    if w !in s.visited {
      UnwindTop(g, universe, after, Frame(w, g(w), 0), t.(visited := s.visited + {w}));
    }
  }
}
