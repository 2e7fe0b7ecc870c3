/**
  * The control-flow join of storage-invalidation effects (crates/bray-bound-tree/src/refinement.rs).
  * Paths and accesses are opaque identities; the storage plan's overlap relations are parameters.
  */
module StorageInvalidations {
  import opened Canonical
  import opened Options
  import opened Sequences

  type Path(==, !new)
  type Access(==, !new)

  type Order = (Path, Path) -> bool

  datatype Scope = Invocation | Inputs | Unbounded

  function Rank(s: Scope): nat {
    match s case Invocation => 0 case Inputs => 1 case Unbounded => 2
  }

  function MaxScope(a: Scope, b: Scope): Scope {
    if Rank(a) < Rank(b) then b else a
  }

  datatype Effect =
    | All(stableDescriptors: set<Path>, stableValues: set<Path>)
    | Paths(paths: seq<Path>)
    | Observed(
        scope: Scope,
        accesses: map<Access, seq<Path>>,
        snapshots: map<Path, Path>,
        referents: set<Path>,
        stableDescriptors: set<Path>)

  const UNKNOWN := All({}, {})

  function Entry(accesses: map<Access, seq<Path>>, a: Access): seq<Path> {
    if a in accesses then accesses[a] else []
  }

  function MergedAccesses(le: Order, current: map<Access, seq<Path>>,
                          incoming: map<Access, seq<Path>>): map<Access, seq<Path>>
  {
    map a | a in current.Keys + incoming.Keys ::
      if a in incoming then SortedUnique(le, Entry(current, a) + incoming[a]) else current[a]
  }

  function KeptSnapshots(current: map<Path, Path>, incoming: map<Path, Path>): map<Path, Path> {
    map p | p in current && p in incoming && incoming[p] == current[p] :: current[p]
  }

  /** What `merge` leaves in the receiver; no value where it panics on mixed representations. */
  function Merged(le: Order, self: Effect, incoming: Effect): Option<Effect> {
    match (self, incoming)
    case (All(d, v), All(d', v')) => Some(All(d * d', v * v'))
    case (_, All(_, _)) => Some(UNKNOWN)
    case (All(_, _), _) => Some(UNKNOWN)
    case (Observed(s, a, n, r, d), Observed(s', a', n', r', d')) =>
      Some(Observed(MaxScope(s, s'), MergedAccesses(le, a, a'), KeptSnapshots(n, n'), r + r', d * d'))
    case (Paths(p), Paths(p')) => Some(Paths(SortedUnique(le, p + p')))
    case (Paths(_), Observed(_, _, _, _, _)) => None
    case (Observed(_, _, _, _, _), Paths(_)) => None
  }

  // ------------------------------------------------------------------ the in-place merge

  class Cell {
    var effect: Effect

    constructor (effect: Effect)
      ensures this.effect == effect
    {
      this.effect := effect;
    }

    /** `merge` on the receiver; `ok` is false where the source panics. */
    method Merge(le: Order, incoming: Effect) returns (ok: bool)
      modifies this
      ensures ok == Merged(le, old(effect), incoming).Some?
      ensures effect == if ok then Merged(le, old(effect), incoming).value else old(effect)
    {
      ok := true;
      if effect.All? && incoming.All? {
        effect := All(effect.stableDescriptors * incoming.stableDescriptors,
                      effect.stableValues * incoming.stableValues);
      } else if effect.All? || incoming.All? {
        effect := UNKNOWN;
      } else if effect.Observed? && incoming.Observed? {
        var scope := if Rank(effect.scope) < Rank(incoming.scope) then incoming.scope else effect.scope;
        var accesses := ExtendAccesses(le, effect.accesses, incoming.accesses);
        effect := Observed(scope, accesses, KeptSnapshots(effect.snapshots, incoming.snapshots),
                           effect.referents + incoming.referents,
                           effect.stableDescriptors * incoming.stableDescriptors);
      } else if effect.Paths? && incoming.Paths? {
        effect := Paths(SortedUnique(le, effect.paths + incoming.paths));
      } else {
        ok := false;
      }
    }
  }

  /** The loop over incoming accesses: extend, sort and deduplicate each entry. */
  method ExtendAccesses(le: Order, start: map<Access, seq<Path>>, incoming: map<Access, seq<Path>>)
    returns (current: map<Access, seq<Path>>)
    ensures current == MergedAccesses(le, start, incoming)
  {
    current := start;
    var pending := incoming.Keys;
    ghost var done: set<Access> := {};
    ExtendedEnds(le, start, incoming);
    while pending != {}
      invariant pending + done == incoming.Keys && pending !! done && current == Extended(le, start, incoming, done)
    {
      var a :| a in pending;
      ExtendOne(le, start, incoming, done, a);
      current := current[a := SortedUnique(le, Entry(current, a) + incoming[a])];
      pending, done := pending - {a}, done + {a};
    }
    assert done == incoming.Keys;
  }

  lemma ExtendedEnds(le: Order, start: map<Access, seq<Path>>, incoming: map<Access, seq<Path>>)
    ensures Extended(le, start, incoming, {}) == start
    ensures Extended(le, start, incoming, incoming.Keys) == MergedAccesses(le, start, incoming)
  {
  }

  /** The table after the entries for `done` have been extended. */
  ghost function Extended(le: Order, start: map<Access, seq<Path>>, incoming: map<Access, seq<Path>>,
                          done: set<Access>): map<Access, seq<Path>>
    requires done <= incoming.Keys
  {
    map a | a in start.Keys + done :: if a in done then SortedUnique(le, Entry(start, a) + incoming[a]) else start[a]
  }

  lemma ExtendOne(le: Order, start: map<Access, seq<Path>>, incoming: map<Access, seq<Path>>, done: set<Access>,
                  a: Access)
    requires done <= incoming.Keys && a in incoming && a !in done
    ensures
      var t := Extended(le, start, incoming, done);
      t[a := SortedUnique(le, Entry(t, a) + incoming[a])] == Extended(le, start, incoming, done + {a})
  {
    var t, more := Extended(le, start, incoming, done), Extended(le, start, incoming, done + {a});
    assert Entry(t, a) == Entry(start, a);
    var extended := t[a := SortedUnique(le, Entry(t, a) + incoming[a])];
    assert extended.Keys == more.Keys;
    forall x | x in extended ensures extended[x] == more[x] {
      if x != a {
        assert x in done <==> x in done + {a};
      }
    }
  }

  // ------------------------------------------------------------------ what an effect invalidates

  /** The overlap relations of the storage plan, by the representation that uses them. */
  datatype Plan = Plan(
    logical: (Path, Path) -> bool,
    physical: (Path, Path) -> bool,
    access: (Access, Path) -> bool)

  predicate InvalidatesPath(e: Effect, path: Path, plan: Plan) {
    match e
    case All(_, _) => true
    case Observed(_, accesses, _, _, _) =>
      exists a :: a in accesses && exists i :: 0 <= i < |accesses[a]| && plan.logical(accesses[a][i], path)
    case Paths(paths) => exists i :: 0 <= i < |paths| && plan.physical(paths[i], path)
  }

  predicate Invalidates(e: Effect, access: Access, plan: Plan) {
    match e
    case All(_, _) => true
    case Observed(_, accesses, _, _, _) => access in accesses
    case Paths(paths) => exists i :: 0 <= i < |paths| && plan.access(access, paths[i])
  }

  function MutationScope(e: Effect): Option<Scope> {
    match e
    case All(_, _) => Some(Unbounded)
    case Observed(scope, _, _, _, _) => Some(scope)
    case Paths(_) => None
  }

  // ------------------------------------------------------------------ effects up to the order of their lists

  /** An effect with its lists read as sets. */
  datatype Meaning =
    | MeansAll(stableDescriptors: set<Path>, stableValues: set<Path>)
    | MeansPaths(paths: set<Path>)
    | MeansObserved(
        scope: Scope,
        accesses: map<Access, set<Path>>,
        snapshots: map<Path, Path>,
        referents: set<Path>,
        stableDescriptors: set<Path>)

  ghost function AccessSets(accesses: map<Access, seq<Path>>): map<Access, set<Path>> {
    map a | a in accesses :: Elements(accesses[a])
  }

  ghost function MeaningOf(e: Effect): Meaning {
    match e
    case All(d, v) => MeansAll(d, v)
    case Paths(p) => MeansPaths(Elements(p))
    case Observed(s, a, n, r, d) => MeansObserved(s, AccessSets(a), n, r, d)
  }

  ghost function SetEntry(accesses: map<Access, set<Path>>, a: Access): set<Path> {
    if a in accesses then accesses[a] else {}
  }

  ghost function JoinAccesses(a: map<Access, set<Path>>, b: map<Access, set<Path>>): (r: map<Access, set<Path>>)
    ensures r.Keys == a.Keys + b.Keys
  {
    map x | x in a.Keys + b.Keys :: SetEntry(a, x) + SetEntry(b, x)
  }

  lemma JoinEntry(a: map<Access, set<Path>>, b: map<Access, set<Path>>, x: Access)
    ensures SetEntry(JoinAccesses(a, b), x) == SetEntry(a, x) + SetEntry(b, x)
  {
  }

  lemma SameEntries(a: map<Access, set<Path>>, b: map<Access, set<Path>>)
    requires a.Keys == b.Keys && forall x :: SetEntry(a, x) == SetEntry(b, x)
    ensures a == b
  {
    forall x | x in a ensures a[x] == b[x] {
      assert SetEntry(a, x) == SetEntry(b, x);
    }
  }

  ghost function Join(a: Meaning, b: Meaning): Meaning {
    match (a, b)
    case (MeansAll(d, v), MeansAll(d', v')) => MeansAll(d * d', v * v')
    case (MeansObserved(s, x, n, r, d), MeansObserved(s', x', n', r', d')) =>
      MeansObserved(MaxScope(s, s'), JoinAccesses(x, x'), KeptSnapshots(n, n'), r + r', d * d')
    case (MeansPaths(p), MeansPaths(p')) => MeansPaths(p + p')
    case (_, _) => MeansAll({}, {})
  }

  /** `merge` computes the join of what the effects mean. */
  lemma MergedMeaning(le: Order, self: Effect, incoming: Effect)
    requires TotalOrder(le) && Merged(le, self, incoming).Some?
    ensures MeaningOf(Merged(le, self, incoming).value) == Join(MeaningOf(self), MeaningOf(incoming))
  {
    if self.Paths? && incoming.Paths? {
      SortedUniqueSound(le, self.paths + incoming.paths);
      ElementsAppend(self.paths, incoming.paths);
    } else if self.Observed? && incoming.Observed? {
      AccessesMeaning(le, self.accesses, incoming.accesses);
    }
  }

  lemma AccessesMeaning(le: Order, a: map<Access, seq<Path>>, b: map<Access, seq<Path>>)
    requires TotalOrder(le)
    ensures AccessSets(MergedAccesses(le, a, b)) == JoinAccesses(AccessSets(a), AccessSets(b))
  {
    var merged, joined := AccessSets(MergedAccesses(le, a, b)), JoinAccesses(AccessSets(a), AccessSets(b));
    forall x ensures SetEntry(merged, x) == SetEntry(joined, x) {
      EntryMeaning(le, a, b, x);
      JoinEntry(AccessSets(a), AccessSets(b), x);
    }
    SameEntries(merged, joined);
  }

  lemma EntryMeaning(le: Order, a: map<Access, seq<Path>>, b: map<Access, seq<Path>>, x: Access)
    requires TotalOrder(le)
    ensures SetEntry(AccessSets(MergedAccesses(le, a, b)), x) == SetEntry(AccessSets(a), x) + SetEntry(AccessSets(b), x)
  {
    if x in b {
      SortedUniqueSound(le, Entry(a, x) + b[x]);
      ElementsAppend(Entry(a, x), b[x]);
    }
  }

  // ------------------------------------------------------------------ the join is a semilattice

  lemma AccessesIdempotent(a: map<Access, set<Path>>)
    ensures JoinAccesses(a, a) == a
  {
    forall x ensures SetEntry(JoinAccesses(a, a), x) == SetEntry(a, x) { JoinEntry(a, a, x); }
    SameEntries(JoinAccesses(a, a), a);
  }

  lemma AccessesCommute(a: map<Access, set<Path>>, b: map<Access, set<Path>>)
    ensures JoinAccesses(a, b) == JoinAccesses(b, a)
  {
    forall x ensures SetEntry(JoinAccesses(a, b), x) == SetEntry(JoinAccesses(b, a), x) {
      JoinEntry(a, b, x);
      JoinEntry(b, a, x);
    }
    SameEntries(JoinAccesses(a, b), JoinAccesses(b, a));
  }

  lemma JoinIdempotent(a: Meaning)
    ensures Join(a, a) == a
  {
    if a.MeansObserved? {
      AccessesIdempotent(a.accesses);
      assert KeptSnapshots(a.snapshots, a.snapshots) == a.snapshots;
    }
  }

  lemma JoinCommutes(a: Meaning, b: Meaning)
    ensures Join(a, b) == Join(b, a)
  {
    if a.MeansObserved? && b.MeansObserved? {
      AccessesCommute(a.accesses, b.accesses);
      assert KeptSnapshots(a.snapshots, b.snapshots) == KeptSnapshots(b.snapshots, a.snapshots);
    }
  }

  lemma AccessesAssociate(a: map<Access, set<Path>>, b: map<Access, set<Path>>, c: map<Access, set<Path>>)
    ensures JoinAccesses(JoinAccesses(a, b), c) == JoinAccesses(a, JoinAccesses(b, c))
  {
    var l, r := JoinAccesses(JoinAccesses(a, b), c), JoinAccesses(a, JoinAccesses(b, c));
    forall x ensures SetEntry(l, x) == SetEntry(r, x) {
      JoinEntry(JoinAccesses(a, b), c, x);
      JoinEntry(a, b, x);
      JoinEntry(a, JoinAccesses(b, c), x);
      JoinEntry(b, c, x);
    }
    SameEntries(l, r);
  }

  lemma SnapshotsAssociate(a: map<Path, Path>, b: map<Path, Path>, c: map<Path, Path>)
    ensures KeptSnapshots(KeptSnapshots(a, b), c) == KeptSnapshots(a, KeptSnapshots(b, c))
  {
  }

  lemma JoinAssociates(a: Meaning, b: Meaning, c: Meaning)
    ensures Join(Join(a, b), c) == Join(a, Join(b, c))
  {
    if a.MeansObserved? && b.MeansObserved? && c.MeansObserved? {
      AccessesAssociate(a.accesses, b.accesses, c.accesses);
      SnapshotsAssociate(a.snapshots, b.snapshots, c.snapshots);
    }
  }

  /** `a` is covered by `b`: joining it adds nothing. */
  ghost predicate Covered(a: Meaning, b: Meaning) {
    Join(a, b) == b
  }

  ghost function JoinAll(ms: seq<Meaning>): Meaning
    requires ms != []
  {
    if |ms| == 1 then ms[0] else Join(JoinAll(ms[..|ms| - 1]), ms[|ms| - 1])
  }

  lemma CoveredByJoin(a: Meaning, b: Meaning)
    ensures Covered(a, Join(a, b)) && Covered(b, Join(a, b))
  {
    JoinAssociates(a, a, b);
    JoinIdempotent(a);
    JoinCommutes(a, b);
    JoinAssociates(b, b, a);
    JoinIdempotent(b);
  }

  lemma CoveredTransitive(a: Meaning, b: Meaning, c: Meaning)
    requires Covered(a, b) && Covered(b, c)
    ensures Covered(a, c)
  {
    JoinAssociates(a, b, c);
  }

  /** The join of a list covers each of its members ... */
  lemma {:induction false} JoinAllCovers(ms: seq<Meaning>, i: nat)
    requires i < |ms|
    ensures Covered(ms[i], JoinAll(ms))
    decreases |ms|
  {
    if |ms| == 1 {
      JoinIdempotent(ms[0]);
    } else {
      var front, last := ms[..|ms| - 1], ms[|ms| - 1];
      CoveredByJoin(JoinAll(front), last);
      if i < |front| {
        JoinAllCovers(front, i);
        CoveredTransitive(ms[i], JoinAll(front), JoinAll(ms));
      }
    }
  }

  /** ... and is covered by everything that covers them all. */
  lemma {:induction false} JoinAllLeast(ms: seq<Meaning>, u: Meaning)
    requires ms != [] && forall i :: 0 <= i < |ms| ==> Covered(ms[i], u)
    ensures Covered(JoinAll(ms), u)
    decreases |ms|
  {
    if |ms| > 1 {
      var front, last := ms[..|ms| - 1], ms[|ms| - 1];
      JoinAllLeast(front, u);
      JoinAssociates(JoinAll(front), last, u);
    }
  }

  lemma JoinAllBelow(ms: seq<Meaning>, ns: seq<Meaning>)
    requires ms != [] && ns != [] && Elements(ms) <= Elements(ns)
    ensures Covered(JoinAll(ms), JoinAll(ns))
  {
    forall i | 0 <= i < |ms| ensures Covered(ms[i], JoinAll(ns)) {
      assert ms[i] in Elements(ms);
      var j :| 0 <= j < |ns| && ns[j] == ms[i];
      JoinAllCovers(ns, j);
    }
    JoinAllLeast(ms, JoinAll(ns));
  }

  // ------------------------------------------------------------------ the join is exact

  ghost predicate Hits(s: set<Path>, overlaps: Path -> bool) {
    exists p :: p in s && overlaps(p)
  }

  lemma SeqHits(s: seq<Path>, overlaps: Path -> bool)
    ensures Hits(Elements(s), overlaps) <==> exists i :: 0 <= i < |s| && overlaps(s[i])
  {
    if i :| 0 <= i < |s| && overlaps(s[i]) {
      assert s[i] in Elements(s);
    }
  }

  ghost predicate AnyHits(accesses: map<Access, set<Path>>, overlaps: Path -> bool) {
    exists a :: Hits(SetEntry(accesses, a), overlaps)
  }

  ghost predicate MeaningInvalidatesPath(m: Meaning, path: Path, plan: Plan) {
    match m
    case MeansAll(_, _) => true
    case MeansObserved(_, accesses, _, _, _) => AnyHits(accesses, p => plan.logical(p, path))
    case MeansPaths(paths) => Hits(paths, p => plan.physical(p, path))
  }

  ghost predicate MeaningInvalidates(m: Meaning, access: Access, plan: Plan) {
    match m
    case MeansAll(_, _) => true
    case MeansObserved(_, accesses, _, _, _) => access in accesses
    case MeansPaths(paths) => Hits(paths, p => plan.access(access, p))
  }

  lemma MeaningDecides(e: Effect, path: Path, access: Access, plan: Plan)
    ensures InvalidatesPath(e, path, plan) <==> MeaningInvalidatesPath(MeaningOf(e), path, plan)
    ensures Invalidates(e, access, plan) <==> MeaningInvalidates(MeaningOf(e), access, plan)
  {
    match e
    case All(_, _) =>
    case Paths(paths) =>
      SeqHits(paths, p => plan.physical(p, path));
      SeqHits(paths, p => plan.access(access, p));
    case Observed(_, accesses, _, _, _) => ObservedDecides(accesses, path, plan);
  }

  lemma ObservedDecides(accesses: map<Access, seq<Path>>, path: Path, plan: Plan)
    ensures (exists a :: a in accesses && exists i :: 0 <= i < |accesses[a]| && plan.logical(accesses[a][i], path))
            <==> AnyHits(AccessSets(accesses), p => plan.logical(p, path))
  {
    var overlaps := p => plan.logical(p, path);
    if a :| a in accesses && exists i :: 0 <= i < |accesses[a]| && plan.logical(accesses[a][i], path) {
      SeqHits(accesses[a], overlaps);
      assert Hits(SetEntry(AccessSets(accesses), a), overlaps);
    }
    if AnyHits(AccessSets(accesses), overlaps) {
      var a :| Hits(SetEntry(AccessSets(accesses), a), overlaps);
      SeqHits(accesses[a], overlaps);
    }
  }

  lemma HitsUnion(s: set<Path>, t: set<Path>, overlaps: Path -> bool)
    ensures Hits(s + t, overlaps) <==> Hits(s, overlaps) || Hits(t, overlaps)
  {
    if p :| p in s + t && overlaps(p) {
      assert p in s || p in t;
    }
    if p :| p in s && overlaps(p) { assert p in s + t; }
    if p :| p in t && overlaps(p) { assert p in s + t; }
  }

  lemma AnyHitsJoin(a: map<Access, set<Path>>, b: map<Access, set<Path>>, overlaps: Path -> bool)
    ensures AnyHits(JoinAccesses(a, b), overlaps) <==> AnyHits(a, overlaps) || AnyHits(b, overlaps)
  {
    forall x
      ensures Hits(SetEntry(JoinAccesses(a, b), x), overlaps) <==>
              Hits(SetEntry(a, x), overlaps) || Hits(SetEntry(b, x), overlaps)
    {
      JoinEntry(a, b, x);
      HitsUnion(SetEntry(a, x), SetEntry(b, x), overlaps);
    }
  }

  /** The merged effect invalidates a path or an access exactly when one of the two does. */
  lemma MergeExact(le: Order, self: Effect, incoming: Effect, path: Path, access: Access, plan: Plan)
    requires TotalOrder(le) && Merged(le, self, incoming).Some?
    ensures
      var merged := Merged(le, self, incoming).value;
      && (InvalidatesPath(merged, path, plan) <==>
          InvalidatesPath(self, path, plan) || InvalidatesPath(incoming, path, plan))
      && (Invalidates(merged, access, plan) <==> Invalidates(self, access, plan) || Invalidates(incoming, access, plan))
  {
    var merged := Merged(le, self, incoming).value;
    MergedMeaning(le, self, incoming);
    MeaningDecides(merged, path, access, plan);
    MeaningDecides(self, path, access, plan);
    MeaningDecides(incoming, path, access, plan);
    var a, b := MeaningOf(self), MeaningOf(incoming);
    if a.MeansPaths? && b.MeansPaths? {
      HitsUnion(a.paths, b.paths, p => plan.physical(p, path));
      HitsUnion(a.paths, b.paths, p => plan.access(access, p));
    } else if a.MeansObserved? && b.MeansObserved? {
      AnyHitsJoin(a.accesses, b.accesses, p => plan.logical(p, path));
    }
  }

  predicate StableDescriptor(e: Effect, p: Path) {
    !e.Paths? && p in e.stableDescriptors
  }

  predicate StableValue(e: Effect, p: Path) {
    e.All? && p in e.stableValues
  }

  predicate Snapshot(e: Effect, p: Path, target: Path) {
    e.Observed? && p in e.snapshots && e.snapshots[p] == target
  }

  predicate Referent(e: Effect, p: Path) {
    e.Observed? && p in e.referents
  }

  /** A reference whose reachable contents may change on one path may change after the join, and no other. */
  lemma MergeReferents(le: Order, self: Effect, incoming: Effect, p: Path)
    requires self.Observed? && incoming.Observed?
    ensures Merged(le, self, incoming).Some?
    ensures Referent(Merged(le, self, incoming).value, p) <==> Referent(self, p) || Referent(incoming, p)
  {
  }

  /**
    * Facts that an effect preserves survive the join only when both effects preserve them, and always then if
    * they agree in kind.
    */
  lemma MergePreserves(le: Order, self: Effect, incoming: Effect, p: Path, target: Path)
    requires Merged(le, self, incoming).Some?
    ensures
      var merged := Merged(le, self, incoming).value;
      && (StableDescriptor(merged, p) ==> StableDescriptor(self, p) && StableDescriptor(incoming, p))
      && (StableValue(merged, p) ==> StableValue(self, p) && StableValue(incoming, p))
      && (Snapshot(merged, p, target) ==> Snapshot(self, p, target) && Snapshot(incoming, p, target))
      && ((self.All? <==> incoming.All?) ==>
            && (StableDescriptor(self, p) && StableDescriptor(incoming, p) ==> StableDescriptor(merged, p))
            && (StableValue(self, p) && StableValue(incoming, p) ==> StableValue(merged, p))
            && (Snapshot(self, p, target) && Snapshot(incoming, p, target) ==> Snapshot(merged, p, target)))
  {
  }

  /** Every list that a merge writes is sorted and without repetitions; entries it does not write stay. */
  lemma MergeSorts(le: Order, self: Effect, incoming: Effect)
    requires TotalOrder(le) && Merged(le, self, incoming).Some?
    ensures
      var merged := Merged(le, self, incoming).value;
      && (merged.Paths? ==> Ascending(le, merged.paths))
      && (merged.Observed? ==>
            && (forall a :: a in incoming.accesses ==> a in merged.accesses && Ascending(le, merged.accesses[a]))
            && (forall a :: a in self.accesses && a !in incoming.accesses ==>
                  a in merged.accesses && merged.accesses[a] == self.accesses[a]))
  {
    if self.Paths? && incoming.Paths? {
      SortedUniqueSound(le, self.paths + incoming.paths);
    } else if self.Observed? && incoming.Observed? {
      forall a | a in incoming.accesses
        ensures Ascending(le, SortedUnique(le, Entry(self.accesses, a) + incoming.accesses[a]))
      {
        SortedUniqueSound(le, Entry(self.accesses, a) + incoming.accesses[a]);
      }
    }
  }

  /** The scope of a join is the wider of the two scopes. */
  lemma MergeScope(le: Order, self: Effect, incoming: Effect)
    requires Merged(le, self, incoming).Some? && MutationScope(self).Some? && MutationScope(incoming).Some?
    ensures MutationScope(Merged(le, self, incoming).value)
            == Some(MaxScope(MutationScope(self).value, MutationScope(incoming).value))
  {
  }

  /** A join reaches every storage if either side does, and only the invocation's own if both are so confined. */
  lemma MergeWidens(le: Order, self: Effect, incoming: Effect)
    requires Merged(le, self, incoming).Some? && MutationScope(self).Some? && MutationScope(incoming).Some?
    ensures
      var s, t, m := MutationScope(self), MutationScope(incoming), MutationScope(Merged(le, self, incoming).value);
      && (m == Some(Unbounded) <==> s == Some(Unbounded) || t == Some(Unbounded))
      && (m == Some(Invocation) <==> s == Some(Invocation) && t == Some(Invocation))
      && m.Some?
  {
    MergeScope(le, self, incoming);
    ScopesOrdered();
  }

  /** The scopes from the narrowest to the widest. */
  lemma ScopesOrdered()
    ensures MaxScope(Invocation, Inputs) == MaxScope(Inputs, Invocation) == Inputs
    ensures MaxScope(Inputs, Unbounded) == MaxScope(Unbounded, Inputs) == Unbounded
    ensures MaxScope(Invocation, Unbounded) == MaxScope(Unbounded, Invocation) == Unbounded
  {
  }
}
