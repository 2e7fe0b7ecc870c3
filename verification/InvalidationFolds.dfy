/**
  * Joining the storage-invalidation effects of any number of control-flow paths by repeated merging
  * (crates/bray-bound-tree/src/refinement.rs): when it is defined, and what the result is.
  */
module InvalidationFolds {
  import opened Canonical
  import opened Options
  import opened Sequences
  import opened StorageInvalidations

  /** Joining the effects of several incoming paths, one after the other. */
  function Fold(le: Order, es: seq<Effect>): Option<Effect>
    requires es != []
  {
    if |es| == 1 then Some(es[0])
    else
      var front := Fold(le, es[..|es| - 1]);
      if front == None then None else Merged(le, front.value, es[|es| - 1])
  }

  // ------------------------------------------------------------------ when the fold is defined

  /** No effect up to position `i` is opaque. */
  ghost predicate BeforeOpaque(es: seq<Effect>, i: nat)
    requires i < |es|
  {
    forall k :: 0 <= k <= i ==> !es[k].All?
  }

  /** A path list and a flow-resolved effect both come before the first opaque effect. */
  ghost predicate Clash(es: seq<Effect>) {
    exists i, j :: 0 <= i < |es| && 0 <= j < |es| && es[i].Paths? && es[j].Observed?
                   && BeforeOpaque(es, i) && BeforeOpaque(es, j)
  }

  /** The representation of a defined fold: opaque if any effect is, and otherwise that of every effect. */
  ghost predicate Represents(r: Effect, es: seq<Effect>) {
    && (r.All? <==> exists k :: 0 <= k < |es| && es[k].All?)
    && (r.Paths? ==> forall k :: 0 <= k < |es| ==> es[k].Paths?)
    && (r.Observed? ==> forall k :: 0 <= k < |es| ==> es[k].Observed?)
  }

  lemma ClashGrows(front: seq<Effect>, last: Effect)
    requires Clash(front)
    ensures Clash(front + [last])
  {
    var i, j :| 0 <= i < |front| && 0 <= j < |front| && front[i].Paths? && front[j].Observed?
                && BeforeOpaque(front, i) && BeforeOpaque(front, j);
    var es := front + [last];
    assert es[i].Paths? && es[j].Observed? && BeforeOpaque(es, i) && BeforeOpaque(es, j);
  }

  /**
    * The last effect clashes exactly when nothing before it is opaque and what is there has the other
    * representation.
    */
  lemma LastClash(front: seq<Effect>, last: Effect, r: Effect)
    requires front != [] && !Clash(front) && Represents(r, front)
    ensures Clash(front + [last]) <==> (r.Paths? && last.Observed?) || (r.Observed? && last.Paths?)
  {
    var es, n := front + [last], |front|;
    assert forall k :: 0 <= k < n ==> es[k] == front[k];
    if Clash(es) {
      var i, j :| 0 <= i < |es| && 0 <= j < |es| && es[i].Paths? && es[j].Observed?
                  && BeforeOpaque(es, i) && BeforeOpaque(es, j);
      if i < n && j < n {
        assert front[i].Paths? && front[j].Observed? && BeforeOpaque(front, i) && BeforeOpaque(front, j);
      }
      assert !es[0].All? && es[0] == front[0];
    }
    if (r.Paths? && last.Observed?) || (r.Observed? && last.Paths?) {
      assert BeforeOpaque(es, n) && BeforeOpaque(es, 0) && es[n] == last && es[0] == front[0];
    }
  }

  /** Merging panics exactly when a path list and a flow-resolved effect both come before the first opaque effect. */
  lemma {:induction false} FoldDefined(le: Order, es: seq<Effect>)
    requires es != []
    ensures Fold(le, es).None? <==> Clash(es)
    ensures Fold(le, es).Some? ==> Represents(Fold(le, es).value, es)
    decreases |es|
  {
    if |es| > 1 {
      var front, last := es[..|es| - 1], es[|es| - 1];
      FoldDefined(le, front);
      assert es == front + [last];
      if Fold(le, front).None? {
        ClashGrows(front, last);
      } else {
        LastClash(front, last, Fold(le, front).value);
        if Merged(le, Fold(le, front).value, last).Some? {
          RepresentsMore(le, Fold(le, front).value, front, last);
        }
      }
    } else {
      assert es[0] == es[|es| - 1];
    }
  }

  lemma RepresentsMore(le: Order, r: Effect, front: seq<Effect>, last: Effect)
    requires front != [] && Represents(r, front) && Merged(le, r, last).Some?
    ensures Represents(Merged(le, r, last).value, front + [last])
  {
    var es := front + [last];
    assert forall k :: 0 <= k < |front| ==> es[k] == front[k];
    assert es[|front|] == last;
    if r.All? {
      var k :| 0 <= k < |front| && front[k].All?;
      assert es[k].All?;
    }
  }

  /** Whether it panics depends on the order, even with an opaque effect among the paths. */
  lemma PanicDependsOnOrder(le: Order, p: Effect, o: Effect)
    requires p.Paths? && o.Observed?
    ensures Fold(le, [p, UNKNOWN, o]) == Some(UNKNOWN) && Fold(le, [p, o, UNKNOWN]) == None
  {
    var defined, undefined := [p, UNKNOWN, o], [p, o, UNKNOWN];
    assert defined[..2] == [p, UNKNOWN] && [p, UNKNOWN][..1] == [p];
    assert undefined[..2] == [p, o] && [p, o][..1] == [p];
    assert Fold(le, [p]) == Some(p);
    assert Fold(le, [p, UNKNOWN]) == Some(UNKNOWN) && Fold(le, [p, o]) == None;
  }

  // ------------------------------------------------------------------ the fold is the join

  ghost function Meanings(es: seq<Effect>): seq<Meaning> {
    seq(|es|, i requires 0 <= i < |es| => MeaningOf(es[i]))
  }

  /** Wherever it is defined, the fold means the join of all. */
  lemma {:induction false} FoldMeaning(le: Order, es: seq<Effect>)
    requires TotalOrder(le) && es != [] && Fold(le, es).Some?
    ensures MeaningOf(Fold(le, es).value) == JoinAll(Meanings(es))
    decreases |es|
  {
    if |es| > 1 {
      var front, last := es[..|es| - 1], es[|es| - 1];
      FoldMeaning(le, front);
      MergedMeaning(le, Fold(le, front).value, last);
      assert Meanings(es)[..|es| - 1] == Meanings(front);
    }
  }

  /** The same effect with every list sorted and without repetitions. */
  function Canonicalized(le: Order, e: Effect): Effect {
    match e
    case All(_, _) => e
    case Paths(p) => Paths(SortedUnique(le, p))
    case Observed(s, a, n, r, d) => Observed(s, map x | x in a :: SortedUnique(le, a[x]), n, r, d)
  }

  lemma SameMeaning(le: Order, e: Effect, f: Effect)
    requires TotalOrder(le) && MeaningOf(e) == MeaningOf(f)
    ensures Canonicalized(le, e) == Canonicalized(le, f)
  {
    if e.Paths? {
      SortedUniqueCanonical(le, e.paths, f.paths);
    } else if e.Observed? {
      assert AccessSets(e.accesses).Keys == AccessSets(f.accesses).Keys;
      forall x | x in e.accesses
        ensures x in f.accesses && SortedUnique(le, e.accesses[x]) == SortedUnique(le, f.accesses[x])
      {
        assert AccessSets(e.accesses)[x] == AccessSets(f.accesses)[x];
        SortedUniqueCanonical(le, e.accesses[x], f.accesses[x]);
      }
    }
  }

  /** Flow-resolved and unresolved path effects are never published together. */
  ghost predicate Unmixed(es: seq<Effect>) {
    (forall i :: 0 <= i < |es| ==> !es[i].Paths?) || (forall i :: 0 <= i < |es| ==> !es[i].Observed?)
  }

  /**
    * Folding the same effects in any order and with any repetitions gives the same effect, up to list order;
    * and without mixed representations it always gives one.
    */
  lemma FoldOrderIrrelevant(le: Order, es: seq<Effect>, fs: seq<Effect>)
    requires TotalOrder(le) && es != [] && fs != [] && Elements(es) == Elements(fs)
    ensures Fold(le, es).Some? && Fold(le, fs).Some? ==>
              Canonicalized(le, Fold(le, es).value) == Canonicalized(le, Fold(le, fs).value)
    ensures Unmixed(es) ==> Fold(le, es).Some? && Fold(le, fs).Some?
  {
    FoldDefined(le, es);
    FoldDefined(le, fs);
    forall i | 0 <= i < |fs| ensures exists j :: 0 <= j < |es| && es[j] == fs[i] {
      assert fs[i] in Elements(es);
    }
    if Fold(le, es).Some? && Fold(le, fs).Some? {
      FoldMeaning(le, es);
      FoldMeaning(le, fs);
      SameElementsSameJoin(es, fs);
      SameMeaning(le, Fold(le, es).value, Fold(le, fs).value);
    }
  }

  lemma SameElementsSameJoin(es: seq<Effect>, fs: seq<Effect>)
    requires es != [] && fs != [] && Elements(es) == Elements(fs)
    ensures JoinAll(Meanings(es)) == JoinAll(Meanings(fs))
  {
    MeaningsSame(es, fs);
    MeaningsSame(fs, es);
    JoinAllBelow(Meanings(es), Meanings(fs));
    JoinAllBelow(Meanings(fs), Meanings(es));
    JoinCommutes(JoinAll(Meanings(es)), JoinAll(Meanings(fs)));
  }

  lemma MeaningsSame(es: seq<Effect>, fs: seq<Effect>)
    requires Elements(es) <= Elements(fs)
    ensures Elements(Meanings(es)) <= Elements(Meanings(fs))
  {
    forall m | m in Elements(Meanings(es)) ensures m in Elements(Meanings(fs)) {
      var i :| 0 <= i < |es| && Meanings(es)[i] == m;
      assert es[i] in Elements(fs);
      var j :| 0 <= j < |fs| && fs[j] == es[i];
      assert Meanings(fs)[j] == m;
    }
  }

  // ------------------------------------------------------------------ what the fold invalidates and preserves

  ghost predicate AnyOf(es: seq<Effect>, holds: Effect -> bool) {
    exists i :: 0 <= i < |es| && holds(es[i])
  }

  lemma AnyOfLast(es: seq<Effect>, holds: Effect -> bool)
    requires es != []
    ensures AnyOf(es, holds) <==> AnyOf(es[..|es| - 1], holds) || holds(es[|es| - 1])
  {
    if i :| 0 <= i < |es| - 1 && holds(es[i]) {
      assert holds(es[..|es| - 1][i]);
    }
  }

  /** The fold invalidates a path or an access exactly when some path's effect does. */
  lemma {:induction false} FoldExact(le: Order, es: seq<Effect>, path: Path, access: Access, plan: Plan)
    requires TotalOrder(le) && es != [] && Fold(le, es).Some?
    ensures InvalidatesPath(Fold(le, es).value, path, plan) <==> AnyOf(es, e => InvalidatesPath(e, path, plan))
    ensures Invalidates(Fold(le, es).value, access, plan) <==> AnyOf(es, e => Invalidates(e, access, plan))
    decreases |es|
  {
    var front, last := es[..|es| - 1], es[|es| - 1];
    AnyOfLast(es, e => InvalidatesPath(e, path, plan));
    AnyOfLast(es, e => Invalidates(e, access, plan));
    if |es| > 1 {
      FoldExact(le, front, path, access, plan);
      MergeExact(le, Fold(le, front).value, last, path, access, plan);
    }
  }

  /** Every effect is opaque, or none is. */
  ghost predicate Uniform(es: seq<Effect>) {
    (forall i :: 0 <= i < |es| ==> es[i].All?) || (forall i :: 0 <= i < |es| ==> !es[i].All?)
  }

  /**
    * A stable descriptor survives exactly when every path's effect has it and opaque effects are not mixed
    * with others.
    */
  lemma {:induction false} FoldDescriptors(le: Order, es: seq<Effect>, p: Path)
    requires es != [] && Fold(le, es).Some?
    ensures StableDescriptor(Fold(le, es).value, p) <==>
              Uniform(es) && forall i :: 0 <= i < |es| ==> StableDescriptor(es[i], p)
    decreases |es|
  {
    var front, last := es[..|es| - 1], es[|es| - 1];
    if |es| > 1 {
      FoldDescriptors(le, front, p);
      FoldDefined(le, front);
      MergePreserves(le, Fold(le, front).value, last, p, p);
    }
    assert forall i :: 0 <= i < |front| ==> front[i] == es[i];
  }

  /** A stable value or a snapshot survives exactly when every path's effect has it. */
  lemma {:induction false} FoldValues(le: Order, es: seq<Effect>, p: Path, target: Path)
    requires es != [] && Fold(le, es).Some?
    ensures StableValue(Fold(le, es).value, p) <==> forall i :: 0 <= i < |es| ==> StableValue(es[i], p)
    ensures Snapshot(Fold(le, es).value, p, target) <==> forall i :: 0 <= i < |es| ==> Snapshot(es[i], p, target)
    decreases |es|
  {
    var front, last := es[..|es| - 1], es[|es| - 1];
    if |es| > 1 {
      FoldValues(le, front, p, target);
      MergePreserves(le, Fold(le, front).value, last, p, target);
    }
    assert forall i :: 0 <= i < |front| ==> front[i] == es[i];
  }

  /** A referent may change after flow-resolved effects exactly when it may on some path. */
  lemma {:induction false} FoldReferents(le: Order, es: seq<Effect>, p: Path)
    requires es != [] && forall i :: 0 <= i < |es| ==> es[i].Observed?
    ensures Fold(le, es).Some? && Fold(le, es).value.Observed?
    ensures Referent(Fold(le, es).value, p) <==> exists i :: 0 <= i < |es| && Referent(es[i], p)
    decreases |es|
  {
    var front, last := es[..|es| - 1], es[|es| - 1];
    if |es| > 1 {
      FoldReferents(le, front, p);
      MergeReferents(le, Fold(le, front).value, last, p);
    }
    assert forall i :: 0 <= i < |front| ==> front[i] == es[i];
  }

  /** The scope of the fold is the widest scope of any path. */
  lemma {:induction false} FoldScope(le: Order, es: seq<Effect>)
    requires es != [] && Fold(le, es).Some? && forall i :: 0 <= i < |es| ==> MutationScope(es[i]).Some?
    ensures MutationScope(Fold(le, es).value).Some?
    ensures exists i :: 0 <= i < |es| && MutationScope(es[i]) == MutationScope(Fold(le, es).value)
    ensures forall i :: 0 <= i < |es| ==>
              Rank(MutationScope(es[i]).value) <= Rank(MutationScope(Fold(le, es).value).value)
    decreases |es|
  {
    var front, last := es[..|es| - 1], es[|es| - 1];
    assert forall i :: 0 <= i < |front| ==> front[i] == es[i];
    if |es| > 1 {
      FoldScope(le, front);
      MergeScope(le, Fold(le, front).value, last);
      var i :| 0 <= i < |front| && MutationScope(front[i]) == MutationScope(Fold(le, front).value);
      assert MutationScope(es[i]) == MutationScope(front[i]);
      assert es[|es| - 1] == last;
    }
  }
}
