/** Directed graphs given by a successor function, and reachability along edges. */
module Reachability {

  type Graph<!N> = N -> seq<N>

  ghost predicate IsPath<N(!new)>(g: Graph<N>, p: seq<N>) {
    && |p| > 0
    && forall i :: 0 <= i < |p| - 1 ==> p[i + 1] in g(p[i])
  }

  ghost predicate PathBetween<N(!new)>(g: Graph<N>, a: N, b: N, p: seq<N>) {
    IsPath(g, p) && p[0] == a && p[|p| - 1] == b
  }

  /** Some path, possibly of length zero, leads from `a` to `b`. */
  ghost predicate Reaches<N(!new)>(g: Graph<N>, a: N, b: N) {
    exists p :: PathBetween(g, a, b, p)
  }

  /** `a` and `b` lie on a common cycle, or are equal. */
  ghost predicate Mutual<N(!new)>(g: Graph<N>, a: N, b: N) {
    Reaches(g, a, b) && Reaches(g, b, a)
  }

  ghost predicate ReachedFrom<N(!new)>(g: Graph<N>, roots: seq<N>, x: N) {
    exists r :: r in roots && Reaches(g, r, x)
  }

  /** The finite vertex set `s` contains every successor of its members. */
  ghost predicate Closed<N(!new)>(g: Graph<N>, s: set<N>) {
    forall v, w :: v in s && w in g(v) ==> w in s
  }

  lemma ReachesSelf<N(!new)>(g: Graph<N>, a: N)
    ensures Reaches(g, a, a)
  {
    assert PathBetween(g, a, a, [a]);
  }

  lemma ReachesEdge<N(!new)>(g: Graph<N>, a: N, b: N)
    requires b in g(a)
    ensures Reaches(g, a, b)
  {
    assert PathBetween(g, a, b, [a, b]);
  }

  lemma ReachesTransitive<N(!new)>(g: Graph<N>, a: N, b: N, c: N)
    requires Reaches(g, a, b) && Reaches(g, b, c)
    ensures Reaches(g, a, c)
  {
    var p :| PathBetween(g, a, b, p);
    var q :| PathBetween(g, b, c, q);
    var r := p + q[1..];
    forall i | 0 <= i < |r| - 1 ensures r[i + 1] in g(r[i]) {
      if i >= |p| - 1 {
        assert r[i] == q[i - (|p| - 1)];
        assert r[i + 1] == q[i - (|p| - 1) + 1];
      }
    }
    assert PathBetween(g, a, c, r);
  }

  lemma MutualTransitive<N(!new)>(g: Graph<N>, a: N, b: N, c: N)
    requires Mutual(g, a, b) && Mutual(g, b, c)
    ensures Mutual(g, a, c)
  {
    ReachesTransitive(g, a, b, c);
    ReachesTransitive(g, c, b, a);
  }

  /** A walk that leaves `s` does so along some edge `u -> w`; `w` is the first vertex outside. */
  lemma {:induction false} LeavesAlongEdge<N(!new)>(g: Graph<N>, a: N, b: N, s: iset<N>, p: seq<N>)
    returns (u: N, w: N)
    requires PathBetween(g, a, b, p) && a in s && b !in s
    ensures u in s && w !in s && w in g(u)
    ensures Reaches(g, a, u) && Reaches(g, w, b)
    decreases |p|
  {
    ReachesSelf(g, a);
    assert |p| > 1 && p[1] in g(p[0]);
    assert PathBetween(g, p[1], b, p[1..]);
    if p[1] !in s {
      u, w := a, p[1];
    } else {
      u, w := LeavesAlongEdge(g, p[1], b, s, p[1..]);
      ReachesEdge(g, a, p[1]);
      ReachesTransitive(g, a, p[1], u);
    }
  }

  lemma Crossing<N(!new)>(g: Graph<N>, a: N, b: N, s: iset<N>) returns (u: N, w: N)
    requires Reaches(g, a, b) && a in s && b !in s
    ensures u in s && w !in s && w in g(u)
    ensures Reaches(g, a, u) && Reaches(g, w, b)
  {
    var p :| PathBetween(g, a, b, p);
    u, w := LeavesAlongEdge(g, a, b, s, p);
  }

  lemma ClosedReaches<N(!new)>(g: Graph<N>, s: set<N>, a: N, b: N)
    requires Closed(g, s) && a in s && Reaches(g, a, b)
    ensures b in s
  {
    if b !in s {
      var u, w := Crossing(g, a, b, iset x | x in s);
      assert false;
    }
  }

  /** A vertex set that holds the roots, is closed, and holds nothing unreachable, is the reachable set. */
  lemma ReachableSetUnique<N(!new)>(g: Graph<N>, roots: seq<N>, s: set<N>)
    requires forall r :: r in roots ==> r in s
    requires Closed(g, s)
    requires forall x :: x in s ==> ReachedFrom(g, roots, x)
    ensures forall x :: x in s <==> ReachedFrom(g, roots, x)
  {
    forall x | ReachedFrom(g, roots, x) ensures x in s {
      var r :| r in roots && Reaches(g, r, x);
      ClosedReaches(g, s, r, x);
    }
  }
}
