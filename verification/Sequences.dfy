/** Sequences without repetition and their element sets, shared by the component models. */
module Sequences {

  ghost predicate NoDuplicates<T>(s: seq<T>) {
    forall i, j :: 0 <= i < j < |s| ==> s[i] != s[j]
  }

  ghost function Elements<T>(s: seq<T>): set<T> {
    set x | x in s
  }

  lemma ElementsAppend<T>(s: seq<T>, t: seq<T>)
    ensures Elements(s + t) == Elements(s) + Elements(t)
  {
  }

  lemma {:induction false} NoDuplicatesSize<T>(s: seq<T>)
    requires NoDuplicates(s)
    ensures |Elements(s)| == |s|
  {
    if s != [] {
      var last, rest := s[|s| - 1], s[..|s| - 1];
      NoDuplicatesSize(rest);
      assert s == rest + [last];
      ElementsAppend(rest, [last]);
      assert Elements(s) == Elements(rest) + {last};
    }
  }

  lemma {:induction false} SubsetSize<T>(a: set<T>, b: set<T>)
    requires a <= b
    ensures |a| <= |b|
    ensures |a| == |b| ==> a == b
  {
    if a != {} {
      var x :| x in a;
      SubsetSize(a - {x}, b - {x});
    }
  }

  /** The naturals below `n`. */
  ghost function Below(n: nat): (s: set<nat>)
    ensures forall v: nat :: v in s <==> v < n
    ensures |s| == n
  {
    if n == 0 then {} else Below(n - 1) + {n - 1}
  }

  /** `s` lists each of 0, ..., |s|-1 exactly once. */
  ghost predicate Permutes(s: seq<nat>) {
    NoDuplicates(s) && Elements(s) == Below(|s|)
  }

  /** Pigeonhole: distinct ordinals below their number are a permutation. */
  lemma BoundedDistinctPermutes(s: seq<nat>)
    requires NoDuplicates(s) && Elements(s) <= Below(|s|)
    ensures Permutes(s)
  {
    NoDuplicatesSize(s);
    SubsetSize(Elements(s), Below(|s|));
  }
}
