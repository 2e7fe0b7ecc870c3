/**
  * When a binder checkpoint is guaranteed to restore (crates/bray-binder/src/binder.rs), for callers that
  * may roll back to any checkpoint at all, live or abandoned.
  */
module BinderGuarantees {
  import opened BinderTransactions
  import opened Options
  import opened Sequences

  // ------------------------------------------------------------------ histories without discipline

  /** A mutator, or a rollback to a checkpoint from anywhere. */
  datatype Act = Change(m: Mutation) | RollTo(c: Checkpoint)

  function Perform(s: State, a: Act): State {
    match a
    case Change(m) => Mutate(s, m)
    case RollTo(c) => RolledBack(s, c)
  }

  function PerformAll(s: State, acts: seq<Act>): State {
    if acts == [] then s else Perform(PerformAll(s, acts[..|acts| - 1]), acts[|acts| - 1])
  }

  function MutateAll(s: State, ms: seq<Mutation>): State {
    if ms == [] then s else Mutate(MutateAll(s, ms[..|ms| - 1]), ms[|ms| - 1])
  }

  /** The guards of a rollback to the checkpoint of `base`: no log is shorter than it was then. */
  predicate Above(base: State, s: State) {
    LengthsAllow(s, Mark(base)) && UnitAllows(s, Mark(base))
  }

  /** Whatever mutators follow, a rollback to the checkpoint of `base` that is accepted restores it. */
  ghost predicate Guaranteed(base: State, s: State) {
    forall ms :: Above(base, MutateAll(s, ms)) ==> RolledBack(MutateAll(s, ms), Mark(base)) == base
  }

  lemma {:induction false} MutateAllDescends(s: State, ms: seq<Mutation>)
    requires WellFormed(s)
    ensures WellFormed(MutateAll(s, ms)) && Descends(s, MutateAll(s, ms))
  {
    if ms == [] {
      DescendsSelf(s);
    } else {
      var t := MutateAll(s, ms[..|ms| - 1]);
      MutateAllDescends(s, ms[..|ms| - 1]);
      MutateDescends(t, ms[|ms| - 1]);
      DescendsTransitive(s, t, Mutate(t, ms[|ms| - 1]));
    }
  }

  lemma {:induction false} MutateAllComposes(s: State, a: seq<Mutation>, b: seq<Mutation>)
    ensures MutateAll(s, a + b) == MutateAll(MutateAll(s, a), b)
    decreases |b|
  {
    if b == [] {
      assert a + b == a;
    } else {
      assert (a + b)[..|a + b| - 1] == a + b[..|b| - 1];
      MutateAllComposes(s, a, b[..|b| - 1]);
    }
  }

  // ------------------------------------------------------------------ histories that stay above

  lemma RollbackWellFormed(s: State, c: Checkpoint)
    requires WellFormed(s)
    ensures WellFormed(RolledBack(s, c))
  {
    if LengthsAllow(s, c) && UnitAllows(s, c) {
      var kept, undone := s.dependencyLog[..c.dependencyLog], s.dependencyLog[c.dependencyLog..];
      assert s.dependencyLog == kept + undone;
      ElementsAppend(kept, undone);
      NoDuplicatesApart(kept, undone);
    }
  }

  lemma NoDuplicatesApart<T>(a: seq<T>, b: seq<T>)
    requires NoDuplicates(a + b)
    ensures NoDuplicates(a) && Elements(a) !! Elements(b)
  {
    forall i, j | 0 <= i < |a| && 0 <= j < |b| ensures a[i] != b[j] {
      assert (a + b)[i] == a[i] && (a + b)[|a| + j] == b[j];
    }
    forall i, j | 0 <= i < j < |a| ensures a[i] != a[j] {
      assert (a + b)[i] == a[i] && (a + b)[j] == a[j];
    }
  }

  /** Even a rollback to an abandoned checkpoint keeps what is below it, as long as no log gets shorter than that. */
  lemma RollbackDescends(base: State, s: State, c: Checkpoint)
    requires WellFormed(s) && Descends(base, s) && Above(base, RolledBack(s, c))
    ensures Descends(base, RolledBack(s, c))
  {
    if LengthsAllow(s, c) && UnitAllows(s, c) {
      var n := |base.typeLog|;
      var kept, undone := s.typeLog[n..c.typeLog], s.typeLog[c.typeLog..];
      assert s.typeLog[n..] == kept + undone;
      UndoSplit(s.types, kept, undone);
      assert s.typeLog[..c.typeLog][n..] == kept;
    }
  }

  lemma {:induction false} AboveDescends(base: State, acts: seq<Act>)
    requires WellFormed(base) && forall i :: 0 <= i <= |acts| ==> Above(base, PerformAll(base, acts[..i]))
    ensures WellFormed(PerformAll(base, acts)) && Descends(base, PerformAll(base, acts))
    decreases |acts|
  {
    if acts == [] {
      DescendsSelf(base);
    } else {
      var front, last := acts[..|acts| - 1], acts[|acts| - 1];
      assert forall i :: 0 <= i <= |front| ==> front[..i] == acts[..i];
      AboveDescends(base, front);
      var s := PerformAll(base, front);
      assert acts[..|acts|] == acts;
      match last
      case Change(m) =>
        MutateDescends(s, m);
        DescendsTransitive(base, s, Mutate(s, m));
      case RollTo(c) =>
        RollbackWellFormed(s, c);
        RollbackDescends(base, s, c);
    }
  }

  lemma DescentGuarantees(base: State, s: State)
    requires WellFormed(base) && WellFormed(s) && Descends(base, s)
    ensures Guaranteed(base, s)
  {
    forall ms | Above(base, MutateAll(s, ms)) ensures RolledBack(MutateAll(s, ms), Mark(base)) == base {
      MutateAllDescends(s, ms);
      DescendsTransitive(base, s, MutateAll(s, ms));
      RollbackRestores(base, MutateAll(s, ms));
    }
  }

  // ------------------------------------------------------------------ histories that went below

  /** Values to tell branches apart: two of most kinds, and dependencies without end. */
  datatype Values = Values(
    targets: (Target, Target),
    types: (TypeId, TypeId),
    diagnostics: (Diagnostic, Diagnostic),
    bindings: (Contextual, Contextual),
    entries: (UnitEntry, UnitEntry),
    dependency: set<Dependency> -> Dependency)

  ghost predicate Plenty(v: Values) {
    && v.targets.0 != v.targets.1 && v.diagnostics.0 != v.diagnostics.1
    && v.bindings.0 != v.bindings.1 && v.entries.0 != v.entries.1
    && v.types.0 != v.types.1 && !v.types.0.isError && !v.types.1.isError
    && forall ds :: v.dependency(ds) !in ds
  }

  function Other<T(==)>(pair: (T, T), x: T): T {
    if pair.0 == x then pair.1 else pair.0
  }

  /** A type that is not recorded for the target yet. */
  function NewType(v: Values, s: State, target: Target): TypeId {
    if Lookup(s.types, target) == Some(v.types.0) then v.types.1 else v.types.0
  }

  /** The sequences differ at a position that both have. */
  ghost predicate Differ<T(!new)>(a: seq<T>, b: seq<T>) {
    exists i :: 0 <= i < |a| && i < |b| && a[i] != b[i]
  }

  /** Some log holds something else than the log of `base` at the same position. */
  ghost predicate Diverged(base: State, s: State) {
    || Differ(base.unit.journal, s.unit.journal) || Differ(base.diagnostics, s.diagnostics)
    || Differ(base.typeLog, s.typeLog) || Differ(base.contextual, s.contextual)
    || Differ(base.dependencyLog, s.dependencyLog)
  }

  lemma DivergedStays(base: State, s: State, t: State)
    requires Diverged(base, s) && Descends(s, t)
    ensures Diverged(base, t)
  {
  }

  lemma DivergedDiffers(base: State, s: State)
    requires Diverged(base, s) && Above(base, s)
    ensures RolledBack(s, Mark(base)) != base
  {
    var r := RolledBack(s, Mark(base));
    assert forall i :: 0 <= i < |base.unit.journal| ==> r.unit.journal[i] == s.unit.journal[i];
    assert forall i :: 0 <= i < |base.diagnostics| ==> r.diagnostics[i] == s.diagnostics[i];
    assert forall i :: 0 <= i < |base.typeLog| ==> r.typeLog[i] == s.typeLog[i];
    assert forall i :: 0 <= i < |base.contextual| ==> r.contextual[i] == s.contextual[i];
    assert forall i :: 0 <= i < |base.dependencyLog| ==> r.dependencyLog[i] == s.dependencyLog[i];
  }

  /** Where a log is shorter, the next entry can be made to differ. */
  lemma Diverge(base: State, s: State, v: Values) returns (m: Mutation)
    requires Plenty(v) && s.unit.owner == base.unit.owner && !Above(base, s)
    ensures Diverged(base, Mutate(s, m))
  {
    if |s.unit.journal| < |base.unit.journal| {
      var i := |s.unit.journal|;
      m := BuildUnit(Other(v.entries, base.unit.journal[i]));
      assert Mutate(s, m).unit.journal[i] != base.unit.journal[i];
    } else if |s.diagnostics| < |base.diagnostics| {
      var i := |s.diagnostics|;
      m := AddDiagnostic(Other(v.diagnostics, base.diagnostics[i]));
      assert Mutate(s, m).diagnostics[i] != base.diagnostics[i];
    } else if |s.typeLog| < |base.typeLog| {
      var i := |s.typeLog|;
      var target := Other(v.targets, base.typeLog[i].0);
      m := RecordValueType(target, NewType(v, s, target));
      assert Mutate(s, m).typeLog[i].0 != base.typeLog[i].0;
    } else if |s.contextual| < |base.contextual| {
      var i := |s.contextual|;
      m := RecordContextual(Other(v.bindings, base.contextual[i]));
      assert Mutate(s, m).contextual[i] != base.contextual[i];
    } else {
      var i := |s.dependencyLog|;
      var d := v.dependency(s.dependencies + Elements(base.dependencyLog));
      m := RecordDependency(d);
      assert base.dependencyLog[i] in Elements(base.dependencyLog);
      assert Mutate(s, m).dependencyLog[i] != base.dependencyLog[i];
    }
  }

  /** Every log of `t` is longer than that of `s` by `n` at least. */
  ghost predicate Longer(s: State, t: State, n: nat) {
    && t.unit.owner == s.unit.owner && |t.unit.journal| >= |s.unit.journal| + n
    && |t.diagnostics| >= |s.diagnostics| + n && |t.typeLog| >= |s.typeLog| + n
    && |t.contextual| >= |s.contextual| + n && |t.dependencyLog| >= |s.dependencyLog| + n
  }

  /** One more entry in every log. */
  lemma PadOnce(s: State, v: Values) returns (ms: seq<Mutation>)
    requires Plenty(v)
    ensures Longer(s, MutateAll(s, ms), 1)
  {
    var a := [BuildUnit(v.entries.0), AddDiagnostic(v.diagnostics.0), RecordContextual(v.bindings.0)];
    var b := [RecordDependency(v.dependency(s.dependencies)), RecordValueType(v.targets.0, NewType(v, s, v.targets.0))];
    ms := a + b;
    MutateAllComposes(s, a, b);
    Three(s, a);
    Two(MutateAll(s, a), b);
  }

  lemma Two(s: State, ms: seq<Mutation>)
    requires |ms| == 2
    ensures MutateAll(s, ms) == Mutate(Mutate(s, ms[0]), ms[1])
  {
    assert ms[..1][..0] == [] && MutateAll(s, ms[..1]) == Mutate(s, ms[0]);
  }

  lemma Three(s: State, ms: seq<Mutation>)
    requires |ms| == 3
    ensures MutateAll(s, ms) == Mutate(Mutate(Mutate(s, ms[0]), ms[1]), ms[2])
  {
    Two(s, ms[..2]);
  }

  lemma {:induction false} Pad(s: State, v: Values, n: nat) returns (ms: seq<Mutation>)
    requires Plenty(v)
    ensures Longer(s, MutateAll(s, ms), n)
    decreases n
  {
    ms := [];
    if n > 0 {
      var first := PadOnce(s, v);
      var rest := Pad(MutateAll(s, first), v, n - 1);
      MutateAllComposes(s, first, rest);
      ms := first + rest;
    }
  }

  /** Below the checkpoint there are mutators after which it is accepted and gives something else. */
  lemma BelowNotGuaranteed(base: State, s: State, v: Values)
    requires WellFormed(s) && Plenty(v) && s.unit.owner == base.unit.owner && !Above(base, s)
    ensures !Guaranteed(base, s)
  {
    var m := Diverge(base, s, v);
    var s1 := Mutate(s, m);
    MutateDescends(s, m);
    var n := |base.unit.journal| + |base.diagnostics| + |base.typeLog| + |base.contextual| + |base.dependencyLog|;
    var rest := Pad(s1, v, n);
    MutateAllDescends(s1, rest);
    DivergedStays(base, s1, MutateAll(s1, rest));
    DivergedDiffers(base, MutateAll(s1, rest));
    MutateAllComposes(s, [m], rest);
    assert [m][..0] == [] && MutateAll(s, [m]) == s1;
  }

  // ------------------------------------------------------------------ the guarantee

  lemma {:induction false} PerformAllKeeps(base: State, acts: seq<Act>)
    requires WellFormed(base)
    ensures WellFormed(PerformAll(base, acts)) && PerformAll(base, acts).unit.owner == base.unit.owner
    decreases |acts|
  {
    if acts != [] {
      var s, last := PerformAll(base, acts[..|acts| - 1]), acts[|acts| - 1];
      PerformAllKeeps(base, acts[..|acts| - 1]);
      match last
      case Change(m) => MutateDescends(s, m);
      case RollTo(c) => RollbackWellFormed(s, c);
    }
  }

  /**
    * Over any history of mutators and rollbacks to any checkpoints: the checkpoint taken at its start is
    * guaranteed to restore, throughout, if and only if no rollback has made a log shorter than it was then.
    */
  lemma GuaranteedExactly(base: State, acts: seq<Act>, v: Values)
    requires WellFormed(base) && Plenty(v)
    ensures (forall i :: 0 <= i <= |acts| ==> Guaranteed(base, PerformAll(base, acts[..i])))
            <==> (forall i :: 0 <= i <= |acts| ==> Above(base, PerformAll(base, acts[..i])))
  {
    if forall i :: 0 <= i <= |acts| ==> Above(base, PerformAll(base, acts[..i])) {
      forall i | 0 <= i <= |acts| ensures Guaranteed(base, PerformAll(base, acts[..i])) {
        assert forall j :: 0 <= j <= i ==> acts[..i][..j] == acts[..j];
        AboveDescends(base, acts[..i]);
        DescentGuarantees(base, PerformAll(base, acts[..i]));
      }
    } else {
      var i :| 0 <= i <= |acts| && !Above(base, PerformAll(base, acts[..i]));
      PerformAllKeeps(base, acts[..i]);
      BelowNotGuaranteed(base, PerformAll(base, acts[..i]), v);
    }
  }
}
