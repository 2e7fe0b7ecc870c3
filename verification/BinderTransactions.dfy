/**
  * Checkpoints and rollback of the binder's mutable state (crates/bray-binder/src/binder.rs) and the
  * transactions built on them (crates/bray-binder/src/binding/transaction.rs).
  */
module BinderTransactions {
  import opened Options
  import opened Sequences

  type Target(==, !new)
  type Dependency(==, !new)
  type Diagnostic(==, !new)
  type ControlTarget(==, !new)
  type Contextual(==, !new)
  type UnitEntry(==, !new)
  type TypeName(==, !new)

  /** A type identity; `TypeData::Error` is one of the kinds its data can have. */
  datatype TypeId = TypeId(name: TypeName, isError: bool)

  /**
    * The unit-local builder, abstracted to its owner and the journal of what it has built; its own
    * checkpoint is a journal length and is refused for another owner or a shorter journal.
    */
  datatype Unit = Unit(owner: nat, journal: seq<UnitEntry>)
  datatype UnitCheckpoint = UnitCheckpoint(owner: nat, length: nat)

  datatype State = State(
    unit: Unit,
    diagnostics: seq<Diagnostic>,
    controlTargets: seq<ControlTarget>,
    types: map<Target, TypeId>,
    typeLog: seq<(Target, Option<TypeId>)>,
    contextual: seq<Contextual>,
    dependencies: set<Dependency>,
    dependencyLog: seq<Dependency>)

  datatype Checkpoint = Checkpoint(
    unit: UnitCheckpoint,
    diagnostics: nat,
    controlTargets: seq<ControlTarget>,
    typeLog: nat,
    contextual: nat,
    dependencyLog: nat)

  // ------------------------------------------------------------------ mutators, as functions of the state

  datatype Mutation =
    | RecordValueType(target: Target, ty: TypeId)
    | RecordDependency(dependency: Dependency)
    | AddDiagnostic(diagnostic: Diagnostic)
    | RecordContextual(binding: Contextual)
    | PushControlTarget(control: ControlTarget)
    | PopControlTarget
    | BuildUnit(entry: UnitEntry)

  function Lookup(types: map<Target, TypeId>, target: Target): Option<TypeId> {
    if target in types then Some(types[target]) else None
  }

  function Mutate(s: State, m: Mutation): State {
    match m
    case RecordValueType(target, ty) =>
      if ty.isError then s
      else if Lookup(s.types, target) == Some(ty) then s
      else s.(types := s.types[target := ty], typeLog := s.typeLog + [(target, Lookup(s.types, target))])
    case RecordDependency(dependency) =>
      if dependency in s.dependencies then s
      else s.(dependencies := s.dependencies + {dependency}, dependencyLog := s.dependencyLog + [dependency])
    case AddDiagnostic(diagnostic) => s.(diagnostics := s.diagnostics + [diagnostic])
    case RecordContextual(binding) => s.(contextual := s.contextual + [binding])
    case PushControlTarget(control) => s.(controlTargets := s.controlTargets + [control])
    case PopControlTarget =>
      if s.controlTargets == [] then s else s.(controlTargets := s.controlTargets[..|s.controlTargets| - 1])
    case BuildUnit(entry) => s.(unit := s.unit.(journal := s.unit.journal + [entry]))
  }

  /** What the mutators record: the last type of a target, every dependency, and lists and a stack in order. */
  lemma MutateRecords(s: State, target: Target, ty: TypeId, other: Target, d: Dependency, e: Dependency)
    ensures
      var t := Mutate(s, RecordValueType(target, ty));
      && Lookup(t.types, target) == (if ty.isError then Lookup(s.types, target) else Some(ty))
      && (other != target ==> Lookup(t.types, other) == Lookup(s.types, other))
    ensures e in Mutate(s, RecordDependency(d)).dependencies <==> e in s.dependencies || e == d
  {
  }

  /** Popping gives the last pushed target back and undoes the push; an empty stack stays as it is. */
  lemma PushPop(s: State, c: ControlTarget)
    ensures
      var t := Mutate(s, PushControlTarget(c));
      t.controlTargets[|s.controlTargets|..] == [c] && Mutate(t, PopControlTarget) == s
    ensures s.controlTargets == [] ==> Mutate(s, PopControlTarget) == s
  {
    assert Mutate(s, PushControlTarget(c)).controlTargets[..|s.controlTargets|] == s.controlTargets;
  }

  /** Entries of the three lists stay in the order in which they were added. */
  lemma AddedInOrder(s: State, a: Diagnostic, b: Diagnostic, p: Contextual, q: Contextual, u: UnitEntry, v: UnitEntry)
    ensures Mutate(Mutate(s, AddDiagnostic(a)), AddDiagnostic(b)).diagnostics == s.diagnostics + [a, b]
    ensures Mutate(Mutate(s, RecordContextual(p)), RecordContextual(q)).contextual == s.contextual + [p, q]
    ensures Mutate(Mutate(s, BuildUnit(u)), BuildUnit(v)).unit.journal == s.unit.journal + [u, v]
  {
  }

  function Mark(s: State): Checkpoint {
    Checkpoint(UnitCheckpoint(s.unit.owner, |s.unit.journal|), |s.diagnostics|, s.controlTargets,
               |s.typeLog|, |s.contextual|, |s.dependencyLog|)
  }

  function UndoOne(types: map<Target, TypeId>, entry: (Target, Option<TypeId>)): map<Target, TypeId> {
    match entry.1
    case Some(ty) => types[entry.0 := ty]
    case None => types - {entry.0}
  }

  /** Replays a type log backwards. */
  function Undo(types: map<Target, TypeId>, log: seq<(Target, Option<TypeId>)>): map<Target, TypeId>
    decreases |log|
  {
    if log == [] then types else Undo(UndoOne(types, log[|log| - 1]), log[..|log| - 1])
  }

  predicate LengthsAllow(s: State, c: Checkpoint) {
    && c.diagnostics <= |s.diagnostics| && c.typeLog <= |s.typeLog|
    && c.contextual <= |s.contextual| && c.dependencyLog <= |s.dependencyLog|
  }

  predicate UnitAllows(s: State, c: Checkpoint) {
    c.unit.owner == s.unit.owner && c.unit.length <= |s.unit.journal|
  }

  /** What `rollback` leaves behind; refused checkpoints leave the state alone. */
  function RolledBack(s: State, c: Checkpoint): State {
    if !LengthsAllow(s, c) || !UnitAllows(s, c) then s
    else State(
      Unit(s.unit.owner, s.unit.journal[..c.unit.length]),
      s.diagnostics[..c.diagnostics],
      c.controlTargets,
      Undo(s.types, s.typeLog[c.typeLog..]),
      s.typeLog[..c.typeLog],
      s.contextual[..c.contextual],
      s.dependencies - (set d | d in s.dependencyLog[c.dependencyLog..]),
      s.dependencyLog[..c.dependencyLog])
  }

  // ------------------------------------------------------------------ the invariant and what descends from a state

  /** The dependency log lists the dependency set without repetition. */
  ghost predicate WellFormed(s: State) {
    NoDuplicates(s.dependencyLog) && s.dependencies == Elements(s.dependencyLog)
  }

  /** `s` was made from `base` without going below it: every log extends `base`'s, and undoing the rest gives `base`. */
  ghost predicate Descends(base: State, s: State) {
    && s.unit.owner == base.unit.owner && base.unit.journal <= s.unit.journal
    && base.diagnostics <= s.diagnostics
    && base.typeLog <= s.typeLog && Undo(s.types, s.typeLog[|base.typeLog|..]) == base.types
    && base.contextual <= s.contextual
    && base.dependencyLog <= s.dependencyLog
  }

  lemma {:induction false} UndoSplit(types: map<Target, TypeId>, a: seq<(Target, Option<TypeId>)>,
                                     b: seq<(Target, Option<TypeId>)>)
    ensures Undo(types, a + b) == Undo(Undo(types, b), a)
    decreases |b|
  {
    if b == [] {
      assert a + b == a;
    } else {
      assert (a + b)[..|a + b| - 1] == a + b[..|b| - 1];
      UndoSplit(UndoOne(types, b[|b| - 1]), a, b[..|b| - 1]);
    }
  }

  lemma DescendsSelf(s: State)
    ensures Descends(s, s)
  {
    assert s.typeLog[|s.typeLog|..] == [];
  }

  lemma DescendsTransitive(a: State, b: State, c: State)
    requires Descends(a, b) && Descends(b, c)
    ensures Descends(a, c)
  {
    var older, newer := b.typeLog[|a.typeLog|..], c.typeLog[|b.typeLog|..];
    assert c.typeLog[|a.typeLog|..] == older + newer;
    UndoSplit(c.types, older, newer);
  }

  /** Every mutator keeps the invariant and descends from where it started. */
  lemma MutateDescends(s: State, m: Mutation)
    requires WellFormed(s)
    ensures WellFormed(Mutate(s, m)) && Descends(s, Mutate(s, m))
  {
    var t := Mutate(s, m);
    DescendsSelf(s);
    if t.typeLog != s.typeLog {
      var entry := (m.target, Lookup(s.types, m.target));
      assert t.typeLog[|s.typeLog|..] == [entry];
      assert Undo(t.types, [entry]) == Undo(UndoOne(t.types, entry), []);
      assert UndoOne(t.types, entry) == s.types;
    }
    if t.dependencyLog != s.dependencyLog {
      assert m.dependency !in s.dependencyLog;
    }
  }

  /** From any descendant, rolling back to a state's checkpoint gives exactly that state. */
  lemma RollbackRestores(base: State, s: State)
    requires WellFormed(base) && WellFormed(s) && Descends(base, s)
    ensures LengthsAllow(s, Mark(base)) && UnitAllows(s, Mark(base))
    ensures RolledBack(s, Mark(base)) == base
  {
    var n := |base.dependencyLog|;
    var undone := set d | d in s.dependencyLog[n..];
    forall d ensures d in s.dependencies - undone <==> d in base.dependencies {
      if d in base.dependencies {
        var i :| 0 <= i < n && base.dependencyLog[i] == d;
        assert s.dependencyLog[i] == d;
      } else if d in s.dependencies {
        var i :| 0 <= i < |s.dependencyLog| && s.dependencyLog[i] == d;
        assert i >= n ==> s.dependencyLog[n..][i - n] == d;
      }
    }
    assert s.dependencies - undone == base.dependencies;
  }

  /** Conversely, a rollback that gives back `base` only ever happens to a descendant of `base`. */
  lemma RestoredOnlyFromDescendant(base: State, s: State)
    requires LengthsAllow(s, Mark(base)) && UnitAllows(s, Mark(base)) && RolledBack(s, Mark(base)) == base
    ensures Descends(base, s)
  {
    var c := Mark(base);
    assert s.unit.journal[..c.unit.length] == base.unit.journal;
    assert s.typeLog[..c.typeLog] == base.typeLog;
  }

  /** Rolling back to the checkpoint of `base` is accepted and gives `base` exactly for the descendants of `base`. */
  lemma RollbackExact(base: State, s: State)
    requires WellFormed(base) && WellFormed(s)
    ensures LengthsAllow(s, Mark(base)) && UnitAllows(s, Mark(base)) && RolledBack(s, Mark(base)) == base
            <==> Descends(base, s)
  {
    if Descends(base, s) {
      RollbackRestores(base, s);
    } else if LengthsAllow(s, Mark(base)) && UnitAllows(s, Mark(base)) && RolledBack(s, Mark(base)) == base {
      RestoredOnlyFromDescendant(base, s);
    }
  }

  // ------------------------------------------------------------------ every stack-disciplined history

  /** A binder under a history of calls: `marks` are the states at the checkpoints that are still live. */
  datatype History = History(state: State, marks: seq<State>, refused: bool)

  datatype Call = Change(m: Mutation) | TakeCheckpoint | RollBackTo(k: nat)

  /** Rolling back to the `k`-th live checkpoint discards the checkpoints taken after it. */
  function Perform(h: History, c: Call): History {
    match c
    case Change(m) => h.(state := Mutate(h.state, m))
    case TakeCheckpoint => h.(marks := h.marks + [h.state])
    case RollBackTo(k) =>
      if k >= |h.marks| then h
      else
        var c := Mark(h.marks[k]);
        History(RolledBack(h.state, c), h.marks[..k + 1],
                h.refused || !LengthsAllow(h.state, c) || !UnitAllows(h.state, c))
  }

  function PerformAll(h: History, calls: seq<Call>): History
    decreases |calls|
  {
    if calls == [] then h else PerformAll(Perform(h, calls[0]), calls[1..])
  }

  ghost predicate Disciplined(h: History) {
    && WellFormed(h.state) && !h.refused
    && (forall i :: 0 <= i < |h.marks| ==> WellFormed(h.marks[i]) && Descends(h.marks[i], h.state))
    && (forall i, j :: 0 <= i < j < |h.marks| ==> Descends(h.marks[i], h.marks[j]))
  }

  lemma PerformKeeps(h: History, c: Call)
    requires Disciplined(h)
    ensures Disciplined(Perform(h, c))
    ensures c.RollBackTo? && c.k < |h.marks| ==> Perform(h, c).state == h.marks[c.k]
    ensures !c.RollBackTo? ==> h.marks <= Perform(h, c).marks
  {
    match c
    case Change(m) =>
      MutateDescends(h.state, m);
      forall i | 0 <= i < |h.marks| ensures Descends(h.marks[i], Mutate(h.state, m)) {
        DescendsTransitive(h.marks[i], h.state, Mutate(h.state, m));
      }
    case TakeCheckpoint => DescendsSelf(h.state);
    case RollBackTo(k) =>
      if k < |h.marks| {
        RollbackRestores(h.marks[k], h.state);
        DescendsSelf(h.marks[k]);
      }
  }

  /**
    * Over every history of mutators, nested checkpoints and rollbacks to live checkpoints, no rollback is
    * refused; and if the history ends in one, the whole state is the one its checkpoint was taken in.
    */
  lemma {:induction false} HistoryRestores(h: History, calls: seq<Call>)
    requires Disciplined(h)
    ensures Disciplined(PerformAll(h, calls))
    ensures forall k: nat :: k < |PerformAll(h, calls).marks| ==>
              Perform(PerformAll(h, calls), RollBackTo(k)).state == PerformAll(h, calls).marks[k]
    decreases |calls|
  {
    if calls == [] {
      forall k: nat | k < |h.marks| ensures Perform(h, RollBackTo(k)).state == h.marks[k] {
        PerformKeeps(h, RollBackTo(k));
      }
    } else {
      PerformKeeps(h, calls[0]);
      HistoryRestores(Perform(h, calls[0]), calls[1..]);
    }
  }

  /**
    * The length guards alone do not identify a checkpoint: one taken in a branch that was rolled back is
    * accepted after another branch has grown as long, and then restores something else.
    */
  lemma AbandonedCheckpointAccepted(s: State, a: Dependency, b: Dependency)
    requires WellFormed(s) && a != b && a !in s.dependencies && b !in s.dependencies
    ensures
      var left := Mutate(s, RecordDependency(a));
      var right := Mutate(RolledBack(left, Mark(s)), RecordDependency(b));
      && LengthsAllow(right, Mark(left)) && UnitAllows(right, Mark(left))
      && RolledBack(right, Mark(left)) != left
      && !Descends(left, right)
  {
    var left := Mutate(s, RecordDependency(a));
    MutateDescends(s, RecordDependency(a));
    RollbackRestores(s, left);
    var right := Mutate(s, RecordDependency(b));
    var n := |s.dependencyLog|;
    assert right.dependencyLog[..n + 1][n] == b && left.dependencyLog[n] == a;
  }

  /** All that a checkpoint could compare: the unit's journal, the three lists and both undo logs. */
  ghost predicate SameLogs(a: State, b: State) {
    && a.unit == b.unit && a.diagnostics == b.diagnostics && a.contextual == b.contextual
    && a.typeLog == b.typeLog && a.dependencyLog == b.dependencyLog
  }

  /**
    * Comparing the logs themselves would not identify a checkpoint either: branches that record different
    * types for one target have equal logs, and the checkpoint of one then gives back the type of the other.
    */
  lemma AbandonedTypeAccepted(s: State, target: Target, a: TypeId, b: TypeId)
    requires WellFormed(s) && a != b && !a.isError && !b.isError
    requires Lookup(s.types, target) != Some(a) && Lookup(s.types, target) != Some(b)
    ensures
      var left := Mutate(s, RecordValueType(target, a));
      var right := Mutate(RolledBack(left, Mark(s)), RecordValueType(target, b));
      && LengthsAllow(right, Mark(left)) && UnitAllows(right, Mark(left)) && SameLogs(left, right)
      && Lookup(left.types, target) == Some(a) && Lookup(RolledBack(right, Mark(left)).types, target) == Some(b)
      && !Descends(left, right)
  {
    var left := Mutate(s, RecordValueType(target, a));
    MutateDescends(s, RecordValueType(target, a));
    RollbackRestores(s, left);
    var right := Mutate(s, RecordValueType(target, b));
    assert right.typeLog[|left.typeLog|..] == [];
  }

  // ------------------------------------------------------------------ transactions

  datatype TransactionError = BindingFailed | ContextMismatch | RollbackFailed
  datatype TransactionResult = Committed | Failed(error: TransactionError)

  /** `bind_transaction`: the body is any history of calls above its own checkpoint, answering success or failure. */
  function BindTransaction(s: State, body: seq<Call>, succeeds: bool): (TransactionResult, State) {
    var checkpoint := Mark(s);
    var after := PerformAll(History(s, [], false), body).state;
    if succeeds && checkpoint.controlTargets == after.controlTargets then (Committed, after)
    else
      var error := if succeeds then ContextMismatch else BindingFailed;
      if LengthsAllow(after, checkpoint) && UnitAllows(after, checkpoint)
      then (Failed(error), RolledBack(after, checkpoint))
      else (Failed(RollbackFailed), after)
  }

  /**
    * A transaction commits, with everything its body did, exactly when the body succeeds with the control context
    * balanced. A failed body and an unbalanced one are told apart and leave no trace; the rollback never fails.
    */
  lemma TransactionAtomic(s: State, body: seq<Call>, succeeds: bool)
    requires WellFormed(s)
    ensures
      var (result, t) := BindTransaction(s, body, succeeds);
      var after := PerformAll(History(s, [], false), body).state;
      var balanced := after.controlTargets == s.controlTargets;
      && WellFormed(t)
      && (result == Committed <==> succeeds && balanced)
      && (result == Failed(BindingFailed) <==> !succeeds)
      && (result == Failed(ContextMismatch) <==> succeeds && !balanced)
      && (result == Committed ==> t == after && Descends(s, t))
      && (result != Committed ==> t == s)
  {
    DescendsSelf(s);
    BodyAboveMark(History(s, [], false), s, body);
    RollbackRestores(s, PerformAll(History(s, [], false), body).state);
  }

  /** Whatever a body does with its own checkpoints, it descends from where it began. */
  lemma {:induction false} BodyAboveMark(h: History, base: State, body: seq<Call>)
    requires Disciplined(h) && Descends(base, h.state)
    requires forall i :: 0 <= i < |h.marks| ==> Descends(base, h.marks[i])
    ensures WellFormed(PerformAll(h, body).state) && Descends(base, PerformAll(h, body).state)
    decreases |body|
  {
    if body != [] {
      PerformKeeps(h, body[0]);
      if body[0].Change? {
        MutateDescends(h.state, body[0].m);
        DescendsTransitive(base, h.state, Mutate(h.state, body[0].m));
      }
      BodyAboveMark(Perform(h, body[0]), base, body[1..]);
    }
  }

  // ------------------------------------------------------------------ the binder itself

  class Binder {
    var unit: Unit
    var diagnostics: seq<Diagnostic>
    var controlTargets: seq<ControlTarget>
    var knownValueTypes: map<Target, TypeId>
    var knownValueTypeLog: seq<(Target, Option<TypeId>)>
    var contextualPatternBindings: seq<Contextual>
    var dependencies: set<Dependency>
    var dependencyLog: seq<Dependency>

    ghost function Value(): State
      reads this
    {
      State(unit, diagnostics, controlTargets, knownValueTypes, knownValueTypeLog,
            contextualPatternBindings, dependencies, dependencyLog)
    }

    constructor (unit: Unit)
      ensures Value() == State(unit, [], [], map[], [], [], {}, []) && WellFormed(Value())
    {
      this.unit := unit;
      diagnostics, controlTargets, contextualPatternBindings := [], [], [];
      knownValueTypes, knownValueTypeLog := map[], [];
      dependencies, dependencyLog := {}, [];
    }

    method RecordValueType(target: Target, ty: TypeId)
      modifies this`knownValueTypes, this`knownValueTypeLog
      ensures Value() == Mutate(old(Value()), Mutation.RecordValueType(target, ty))
    {
      if ty.isError {
        return;
      }
      var replaced := Lookup(knownValueTypes, target);
      knownValueTypes := knownValueTypes[target := ty];
      if replaced != Some(ty) {
        knownValueTypeLog := knownValueTypeLog + [(target, replaced)];
      }
    }

    method RecordDependency(dependency: Dependency)
      modifies this`dependencies, this`dependencyLog
      ensures Value() == Mutate(old(Value()), Mutation.RecordDependency(dependency))
    {
      if dependency !in dependencies {
        dependencies := dependencies + {dependency};
        dependencyLog := dependencyLog + [dependency];
      }
    }

    method RecordContextualPatternBinding(binding: Contextual)
      modifies this`contextualPatternBindings
      ensures Value() == Mutate(old(Value()), RecordContextual(binding))
    {
      contextualPatternBindings := contextualPatternBindings + [binding];
    }

    method AddDiagnostic(diagnostic: Diagnostic)
      modifies this`diagnostics
      ensures Value() == Mutate(old(Value()), Mutation.AddDiagnostic(diagnostic))
    {
      diagnostics := diagnostics + [diagnostic];
    }

    method PushControlTarget(control: ControlTarget)
      modifies this`controlTargets
      ensures Value() == Mutate(old(Value()), Mutation.PushControlTarget(control))
    {
      controlTargets := controlTargets + [control];
    }

    method PopControlTarget() returns (control: Option<ControlTarget>)
      modifies this`controlTargets
      ensures Value() == Mutate(old(Value()), Mutation.PopControlTarget)
      ensures control == if old(controlTargets) == [] then None
                         else Some(old(controlTargets)[|old(controlTargets)| - 1])
    {
      if controlTargets == [] {
        return None;
      }
      control := Some(controlTargets[|controlTargets| - 1]);
      controlTargets := controlTargets[..|controlTargets| - 1];
    }

    method TakeCheckpoint() returns (c: Checkpoint)
      ensures c == Mark(Value())
    {
      c := Checkpoint(UnitCheckpoint(unit.owner, |unit.journal|), |diagnostics|, controlTargets,
                      |knownValueTypeLog|, |contextualPatternBindings|, |dependencyLog|);
    }

    predicate TransactionContextIsBalanced(c: Checkpoint)
      reads this
      ensures forall s :: c == Mark(s) ==> (TransactionContextIsBalanced(c) <==> controlTargets == s.controlTargets)
    {
      c.controlTargets == controlTargets
    }

    method RollBack(c: Checkpoint) returns (ok: bool)
      modifies this
      ensures ok == (LengthsAllow(old(Value()), c) && UnitAllows(old(Value()), c))
      ensures Value() == RolledBack(old(Value()), c)
      ensures old(WellFormed(Value())) ==>
                forall base :: c == Mark(base) && WellFormed(base) && Descends(base, old(Value())) ==>
                  ok && Value() == base
    {
      ghost var before := Value();
      ok := false;
      if c.diagnostics <= |diagnostics| && c.typeLog <= |knownValueTypeLog|
         && c.contextual <= |contextualPatternBindings| && c.dependencyLog <= |dependencyLog|
         && c.unit.owner == unit.owner && c.unit.length <= |unit.journal|
      {
        unit := unit.(journal := unit.journal[..c.unit.length]);
        diagnostics := diagnostics[..c.diagnostics];
        controlTargets := c.controlTargets;
        UndoTypes(c.typeLog);
        contextualPatternBindings := contextualPatternBindings[..c.contextual];
        RemoveDependencies(c.dependencyLog);
        ok := true;
      }
      forall base | c == Mark(base) && WellFormed(base) && WellFormed(before) && Descends(base, before)
        ensures ok && Value() == base
      {
        RollbackRestores(base, before);
      }
    }

    /** Drains the type log down to `length`, latest entry first. */
    method UndoTypes(length: nat)
      requires length <= |knownValueTypeLog|
      modifies this`knownValueTypes, this`knownValueTypeLog
      ensures knownValueTypeLog == old(knownValueTypeLog)[..length]
      ensures knownValueTypes == Undo(old(knownValueTypes), old(knownValueTypeLog)[length..])
    {
      var drained := knownValueTypeLog[length..];
      var i := |drained|;
      assert drained[..i] == drained;
      while i > 0
        invariant 0 <= i <= |drained| && knownValueTypeLog == old(knownValueTypeLog)
        invariant Undo(knownValueTypes, drained[..i]) == Undo(old(knownValueTypes), drained)
      {
        i := i - 1;
        assert drained[..i + 1][..i] == drained[..i];
        var (target, replaced) := drained[i];
        match replaced {
          case Some(ty) => knownValueTypes := knownValueTypes[target := ty];
          case None => knownValueTypes := knownValueTypes - {target};
        }
      }
      knownValueTypeLog := knownValueTypeLog[..length];
    }

    /** Drains the dependency log down to `length`, removing each entry from the set. */
    method RemoveDependencies(length: nat)
      requires length <= |dependencyLog|
      modifies this`dependencies, this`dependencyLog
      ensures dependencyLog == old(dependencyLog)[..length]
      ensures dependencies == old(dependencies) - (set d | d in old(dependencyLog)[length..])
    {
      var drained := dependencyLog[length..];
      for i := 0 to |drained|
        invariant dependencyLog == old(dependencyLog)
        invariant dependencies == old(dependencies) - (set d | d in drained[..i])
      {
        assert drained[..i + 1] == drained[..i] + [drained[i]];
        dependencies := dependencies - {drained[i]};
      }
      assert drained[..|drained|] == drained;
      dependencyLog := dependencyLog[..length];
    }
  }
}
