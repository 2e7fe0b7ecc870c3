/**
  * Instantiation of dependency-contract templates with nested guards
  * (crates/bray-bound-tree/src/dependency.rs).
  */
module DependencyContracts {
  import opened Canonical
  import opened Options
  import opened Sequences

  type UnitId(==, !new)
  type Formal(==, !new)      // a formal subject of a template
  type FormalGuard(==, !new) // a formal guard of a template
  type Kind(==, !new)
  type Variant(==, !new)
  type Global(==, !new)      // subjects that belong to no unit

  /** An identity inside one checked unit. */
  datatype Local = Local(unit: UnitId, slot: nat)

  datatype Subject =
    | Storage(id: Local)
    | StorageAccess(id: Local)
    | BorrowCapability(id: Local)
    | ScopedCapability(id: Local)
    | LifecycleObligation(id: Local)
    | Shared(global: Global) // witnesses, retained requirements and statics

  datatype Guard =
    | NullablePresent(access: Local)
    | ActiveUnionVariant(access: Local, variant: Variant)
    | BorrowCapabilityActive(capability: Local)
    | ScopedCapabilityLive(capability: Local)

  datatype Requirement =
    | Direct(subject: Subject, kind: Kind)
    | Guarded(guard: Guard, requirements: seq<Requirement>)

  datatype Template =
    | DirectTemplate(formal: Formal, kind: Kind)
    | GuardedTemplate(formalGuard: FormalGuard, templates: seq<Template>)
    | Unresolved // result calls, cleanup dependencies, fixed points and variables
    | Cleanup    // admitted elsewhere; instantiating one is a fault

  function GuardSubject(g: Guard): Subject {
    match g
    case NullablePresent(a) => StorageAccess(a)
    case ActiveUnionVariant(a, _) => StorageAccess(a)
    case BorrowCapabilityActive(c) => BorrowCapability(c)
    case ScopedCapabilityLive(c) => ScopedCapability(c)
  }

  predicate SubjectValid(s: Subject, unit: UnitId) {
    s.Shared? || s.id.unit == unit
  }

  predicate GuardValid(g: Guard, unit: UnitId) {
    match g
    case NullablePresent(a) => a.unit == unit
    case ActiveUnionVariant(a, _) => a.unit == unit
    case BorrowCapabilityActive(c) => c.unit == unit
    case ScopedCapabilityLive(c) => c.unit == unit
  }

  predicate ValidFor(r: Requirement, unit: UnitId) {
    match r
    case Direct(s, _) => SubjectValid(s, unit)
    case Guarded(g, rs) => GuardValid(g, unit) && forall i :: 0 <= i < |rs| ==> ValidFor(rs[i], unit)
  }

  predicate AllValidFor(rs: seq<Requirement>, unit: UnitId) {
    forall i :: 0 <= i < |rs| ==> ValidFor(rs[i], unit)
  }

  // ------------------------------------------------------------------ instantiation

  datatype Error = Resolution | ForeignUnit | UnresolvedWitness | Fault
  datatype Result<+T> = Ok(value: T) | Err(error: Error)

  /** The binder's resolver: it may keep state between calls, and each call may fail. */
  datatype Context<!C> = Context(
    unit: UnitId,
    resolveSubject: (C, Formal, Kind) -> (C, Option<Subject>),
    resolveGuard: (C, FormalGuard) -> (C, Option<Guard>))

  type Order = (Requirement, Requirement) -> bool

  function InstantiateOne<C>(le: Order, ctx: Context<C>, c: C, t: Template): (C, Result<Requirement>)
    decreases t, 1
  {
    match t
    case Cleanup => (c, Err(Fault))
    case Unresolved => (c, Err(UnresolvedWitness))
    case DirectTemplate(formal, kind) =>
      var (c1, subject) := ctx.resolveSubject(c, formal, kind);
      if subject == None then (c1, Err(Resolution))
      else if !SubjectValid(subject.value, ctx.unit) then (c1, Err(ForeignUnit))
      else (c1, Ok(Direct(subject.value, kind)))
    case GuardedTemplate(formalGuard, templates) =>
      var (c1, guard) := ctx.resolveGuard(c, formalGuard);
      if guard == None then (c1, Err(Resolution))
      else if !GuardValid(guard.value, ctx.unit) then (c1, Err(ForeignUnit))
      else
        var (c2, nested) := InstantiateEach(le, ctx, c1, templates);
        match nested
        case Err(e) => (c2, Err(e))
        case Ok(rs) => (c2, Ok(Guarded(guard.value, SortedUnique(le, rs))))
  }

  /** In order, stopping at the first failure. */
  function InstantiateEach<C>(le: Order, ctx: Context<C>, c: C, ts: seq<Template>): (C, Result<seq<Requirement>>)
    decreases ts, 0
  {
    if ts == [] then (c, Ok([]))
    else
      var (c1, first) := InstantiateOne(le, ctx, c, ts[0]);
      if first.Err? then (c1, Err(first.error))
      else
        var (c2, rest) := InstantiateEach(le, ctx, c1, ts[1..]);
        if rest.Err? then (c2, Err(rest.error)) else (c2, Ok([first.value] + rest.value))
  }

  /** `try_instantiate`: the completed contract is normalized once more at the top. */
  function TryInstantiate<C>(le: Order, ctx: Context<C>, c: C, template: seq<Template>): Result<seq<Requirement>> {
    var (_, rs) := InstantiateEach(le, ctx, c, template);
    if rs.Err? then Err(rs.error) else Ok(SortedUnique(le, rs.value))
  }

  // ------------------------------------------------------------------ validity and normal form

  /** Sorted without repetition, at every level of nesting. */
  ghost predicate Normal(le: Order, r: Requirement) {
    r.Guarded? ==>
      && Ascending(le, r.requirements)
      && forall i :: 0 <= i < |r.requirements| ==> Normal(le, r.requirements[i])
  }

  ghost predicate AllNormal(le: Order, rs: seq<Requirement>) {
    forall i :: 0 <= i < |rs| ==> Normal(le, rs[i])
  }

  /** What holds of every element holds after normalization. */
  lemma NormalizedKeeps(le: Order, rs: seq<Requirement>, unit: UnitId)
    requires TotalOrder(le) && AllNormal(le, rs) && AllValidFor(rs, unit)
    ensures AllNormal(le, SortedUnique(le, rs)) && AllValidFor(SortedUnique(le, rs), unit)
    ensures Ascending(le, SortedUnique(le, rs))
  {
    SortedUniqueSound(le, rs);
    var sorted := SortedUnique(le, rs);
    forall i | 0 <= i < |sorted| ensures Normal(le, sorted[i]) && ValidFor(sorted[i], unit) {
      assert sorted[i] in Elements(rs);
      var j :| 0 <= j < |rs| && rs[j] == sorted[i];
    }
  }

  lemma {:induction false} InstantiatedOne<C>(le: Order, ctx: Context<C>, c: C, t: Template)
    requires TotalOrder(le)
    ensures
      var (_, r) := InstantiateOne(le, ctx, c, t);
      r.Ok? ==> ValidFor(r.value, ctx.unit) && Normal(le, r.value)
    decreases t, 1
  {
    if t.GuardedTemplate? {
      var (c1, guard) := ctx.resolveGuard(c, t.formalGuard);
      InstantiatedEach(le, ctx, c1, t.templates);
      var (_, nested) := InstantiateEach(le, ctx, c1, t.templates);
      if nested.Ok? {
        NormalizedKeeps(le, nested.value, ctx.unit);
      }
    }
  }

  lemma {:induction false} InstantiatedEach<C>(le: Order, ctx: Context<C>, c: C, ts: seq<Template>)
    requires TotalOrder(le)
    ensures
      var (_, rs) := InstantiateEach(le, ctx, c, ts);
      rs.Ok? ==> AllValidFor(rs.value, ctx.unit) && AllNormal(le, rs.value)
    decreases ts, 0
  {
    if ts != [] {
      InstantiatedOne(le, ctx, c, ts[0]);
      var (c1, _) := InstantiateOne(le, ctx, c, ts[0]);
      InstantiatedEach(le, ctx, c1, ts[1..]);
    }
  }

  /**
    * For any resolver and nesting depth: a contract that is produced belongs to the unit and is normal at
    * every level.
    */
  lemma InstantiationSound<C>(le: Order, ctx: Context<C>, c: C, template: seq<Template>)
    requires TotalOrder(le) && TryInstantiate(le, ctx, c, template).Ok?
    ensures
      var contract := TryInstantiate(le, ctx, c, template).value;
      AllValidFor(contract, ctx.unit) && Ascending(le, contract) && AllNormal(le, contract)
  {
    InstantiatedEach(le, ctx, c, template);
    var (_, rs) := InstantiateEach(le, ctx, c, template);
    NormalizedKeeps(le, rs.value, ctx.unit);
  }

  // ------------------------------------------------------------------ required subjects

  ghost function SubjectsOf(r: Requirement): set<Subject>
    decreases r, 1
  {
    match r
    case Direct(s, _) => {s}
    case Guarded(g, rs) => {GuardSubject(g)} + SubjectsOfAll(rs)
  }

  ghost function SubjectsOfAll(rs: seq<Requirement>): set<Subject>
    decreases rs, 0
  {
    if rs == [] then {} else SubjectsOf(rs[0]) + SubjectsOfAll(rs[1..])
  }

  ghost function Size(r: Requirement): nat
    decreases r, 1
  {
    match r
    case Direct(_, _) => 1
    case Guarded(_, rs) => 1 + SizeAll(rs)
  }

  ghost function SizeAll(rs: seq<Requirement>): nat
    decreases rs, 0
  {
    if rs == [] then 0 else Size(rs[0]) + SizeAll(rs[1..])
  }

  lemma {:induction false} AppendAll(a: seq<Requirement>, b: seq<Requirement>)
    ensures SubjectsOfAll(a + b) == SubjectsOfAll(a) + SubjectsOfAll(b)
    ensures SizeAll(a + b) == SizeAll(a) + SizeAll(b)
  {
    if a == [] {
      assert a + b == b;
    } else {
      assert (a + b)[1..] == a[1..] + b;
      AppendAll(a[1..], b);
    }
  }

  /** The worklist collects every direct and guarded subject, guards included. */
  method RequiredSubjects(contract: seq<Requirement>) returns (subjects: set<Subject>)
    ensures subjects == SubjectsOfAll(contract)
  {
    subjects := {};
    var pending := contract;
    while pending != []
      invariant subjects + SubjectsOfAll(pending) == SubjectsOfAll(contract)
      decreases SizeAll(pending)
    {
      var requirement := pending[|pending| - 1];
      var rest := pending[..|pending| - 1];
      AppendAll(rest, [requirement]);
      assert pending == rest + [requirement] && [requirement][1..] == [];
      match requirement {
        case Direct(subject, _) =>
          subjects := subjects + {subject};
          pending := rest;
        case Guarded(guard, nested) =>
          AppendAll(rest, nested);
          subjects := subjects + {GuardSubject(guard)};
          pending := rest + nested;
      }
    }
  }

  lemma {:induction false} SubjectsIn(rs: seq<Requirement>, s: Subject)
    ensures s in SubjectsOfAll(rs) <==> exists r :: r in Elements(rs) && s in SubjectsOf(r)
  {
    if rs != [] {
      SubjectsIn(rs[1..], s);
      assert rs == [rs[0]] + rs[1..];
      ElementsAppend([rs[0]], rs[1..]);
      assert rs[0] in Elements(rs);
      if s in SubjectsOfAll(rs) && s !in SubjectsOf(rs[0]) {
        var r :| r in Elements(rs[1..]) && s in SubjectsOf(r);
        assert r in Elements(rs);
      }
    }
  }

  /** Normalization changes no subject. */
  lemma SubjectsNormalized(le: Order, rs: seq<Requirement>)
    requires TotalOrder(le)
    ensures SubjectsOfAll(SortedUnique(le, rs)) == SubjectsOfAll(rs)
  {
    SortedUniqueSound(le, rs);
    forall s ensures s in SubjectsOfAll(SortedUnique(le, rs)) <==> s in SubjectsOfAll(rs) {
      SubjectsIn(SortedUnique(le, rs), s);
      SubjectsIn(rs, s);
    }
  }

  // ------------------------------------------------------------------ functional resolvers

  /** A resolver without state: the same formal always resolves the same way. */
  datatype Resolver = Resolver(
    unit: UnitId,
    subject: (Formal, Kind) -> Option<Subject>,
    guard: FormalGuard -> Option<Guard>)

  function Stateless(r: Resolver): Context<()> {
    Context(r.unit, (c: (), f: Formal, k: Kind) => ((), r.subject(f, k)), (c: (), g: FormalGuard) => ((), r.guard(g)))
  }

  predicate SubjectResolves(r: Resolver, f: Formal, k: Kind) {
    r.subject(f, k).Some? && SubjectValid(r.subject(f, k).value, r.unit)
  }

  predicate GuardResolves(r: Resolver, g: FormalGuard) {
    r.guard(g).Some? && GuardValid(r.guard(g).value, r.unit)
  }

  /** Every formal in the template resolves into the unit, and nothing awaits a witness. */
  ghost predicate Resolvable(r: Resolver, t: Template)
    decreases t, 1
  {
    match t
    case DirectTemplate(f, k) => SubjectResolves(r, f, k)
    case GuardedTemplate(g, ts) => GuardResolves(r, g) && AllResolvable(r, ts)
    case _ => false
  }

  ghost predicate AllResolvable(r: Resolver, ts: seq<Template>)
    decreases ts, 0
  {
    ts == [] || (Resolvable(r, ts[0]) && AllResolvable(r, ts[1..]))
  }

  /** The image of every formal subject and guard in a template. */
  ghost function Image(r: Resolver, t: Template): set<Subject>
    decreases t, 1
  {
    match t
    case DirectTemplate(f, k) => if r.subject(f, k).Some? then {r.subject(f, k).value} else {}
    case GuardedTemplate(g, ts) => (if r.guard(g).Some? then {GuardSubject(r.guard(g).value)} else {}) + ImageAll(r, ts)
    case _ => {}
  }

  ghost function ImageAll(r: Resolver, ts: seq<Template>): set<Subject>
    decreases ts, 0
  {
    if ts == [] then {} else Image(r, ts[0]) + ImageAll(r, ts[1..])
  }

  lemma {:induction false} ImageOne(le: Order, r: Resolver, c: (), t: Template)
    requires TotalOrder(le)
    ensures
      var result := InstantiateOne(le, Stateless(r), c, t).1;
      && (result.Ok? <==> Resolvable(r, t))
      && (result.Ok? ==> SubjectsOf(result.value) == Image(r, t))
    decreases t, 1
  {
    if t.GuardedTemplate? {
      var (c1, _) := Stateless(r).resolveGuard(c, t.formalGuard);
      ImageEach(le, r, c1, t.templates);
      var nested := InstantiateEach(le, Stateless(r), c1, t.templates).1;
      if nested.Ok? {
        SubjectsNormalized(le, nested.value);
      }
    }
  }

  lemma {:induction false} ImageEach(le: Order, r: Resolver, c: (), ts: seq<Template>)
    requires TotalOrder(le)
    ensures
      var result := InstantiateEach(le, Stateless(r), c, ts).1;
      && (result.Ok? <==> AllResolvable(r, ts))
      && (result.Ok? ==> SubjectsOfAll(result.value) == ImageAll(r, ts))
    decreases ts, 0
  {
    if ts != [] {
      ImageOne(le, r, c, ts[0]);
      var (c1, first) := InstantiateOne(le, Stateless(r), c, ts[0]);
      ImageEach(le, r, c1, ts[1..]);
      var (_, rest) := InstantiateEach(le, Stateless(r), c1, ts[1..]);
      if first.Ok? && rest.Ok? {
        AppendAll([first.value], rest.value);
        assert [first.value][1..] == [];
      }
    }
  }

  /**
    * A stateless resolver succeeds exactly on resolvable templates, and the subjects required are the image
    * of the template.
    */
  lemma RequiredSubjectsAreImage(le: Order, r: Resolver, template: seq<Template>)
    requires TotalOrder(le)
    ensures
      var result := TryInstantiate(le, Stateless(r), (), template);
      && (result.Ok? <==> AllResolvable(r, template))
      && (result.Ok? ==> SubjectsOfAll(result.value) == ImageAll(r, template))
  {
    ImageEach(le, r, (), template);
    var rs := InstantiateEach(le, Stateless(r), (), template).1;
    if rs.Ok? {
      SubjectsNormalized(le, rs.value);
    }
  }

  // ------------------------------------------------------------------ guard nesting

  /** One required state together with the guards, outermost first, under which it is required. */
  datatype Condition = Condition(under: seq<Guard>, subject: Subject, kind: Kind)

  ghost function ConditionsOf(q: Requirement, under: seq<Guard>): set<Condition>
    decreases q, 1
  {
    match q
    case Direct(s, k) => {Condition(under, s, k)}
    case Guarded(g, rs) => ConditionsOfAll(rs, under + [g])
  }

  ghost function ConditionsOfAll(rs: seq<Requirement>, under: seq<Guard>): set<Condition>
    decreases rs, 0
  {
    if rs == [] then {} else ConditionsOf(rs[0], under) + ConditionsOfAll(rs[1..], under)
  }

  /** The conditions a template states once its formals are replaced by what they resolve to. */
  ghost function Stated(r: Resolver, t: Template, under: seq<Guard>): set<Condition>
    requires Resolvable(r, t)
    decreases t, 1
  {
    match t
    case DirectTemplate(f, k) => {Condition(under, r.subject(f, k).value, k)}
    case GuardedTemplate(g, ts) => StatedAll(r, ts, under + [r.guard(g).value])
  }

  ghost function StatedAll(r: Resolver, ts: seq<Template>, under: seq<Guard>): set<Condition>
    requires AllResolvable(r, ts)
    decreases ts, 0
  {
    if ts == [] then {} else Stated(r, ts[0], under) + StatedAll(r, ts[1..], under)
  }

  lemma {:induction false} ConditionsIn(rs: seq<Requirement>, under: seq<Guard>, x: Condition)
    ensures x in ConditionsOfAll(rs, under) <==> exists q :: q in Elements(rs) && x in ConditionsOf(q, under)
  {
    if rs != [] {
      ConditionsIn(rs[1..], under, x);
      assert rs == [rs[0]] + rs[1..];
      ElementsAppend([rs[0]], rs[1..]);
      assert rs[0] in Elements(rs);
      if x in ConditionsOfAll(rs, under) && x !in ConditionsOf(rs[0], under) {
        var q :| q in Elements(rs[1..]) && x in ConditionsOf(q, under);
        assert q in Elements(rs);
      }
    }
  }

  /** Normalization neither adds nor drops a condition. */
  lemma ConditionsNormalized(le: Order, rs: seq<Requirement>, under: seq<Guard>)
    requires TotalOrder(le)
    ensures ConditionsOfAll(SortedUnique(le, rs), under) == ConditionsOfAll(rs, under)
  {
    SortedUniqueSound(le, rs);
    forall x ensures x in ConditionsOfAll(SortedUnique(le, rs), under) <==> x in ConditionsOfAll(rs, under) {
      ConditionsIn(SortedUnique(le, rs), under, x);
      ConditionsIn(rs, under, x);
    }
  }

  lemma {:induction false} StatedOne(le: Order, r: Resolver, c: (), t: Template, under: seq<Guard>)
    requires TotalOrder(le) && Resolvable(r, t)
    ensures
      var result := InstantiateOne(le, Stateless(r), c, t).1;
      result.Ok? && ConditionsOf(result.value, under) == Stated(r, t, under)
    decreases t, 1
  {
    ImageOne(le, r, c, t);
    if t.GuardedTemplate? {
      var (c1, guard) := Stateless(r).resolveGuard(c, t.formalGuard);
      StatedEach(le, r, c1, t.templates, under + [guard.value]);
      var nested := InstantiateEach(le, Stateless(r), c1, t.templates).1;
      ConditionsNormalized(le, nested.value, under + [guard.value]);
    }
  }

  lemma {:induction false} StatedEach(le: Order, r: Resolver, c: (), ts: seq<Template>, under: seq<Guard>)
    requires TotalOrder(le) && AllResolvable(r, ts)
    ensures
      var result := InstantiateEach(le, Stateless(r), c, ts).1;
      result.Ok? && ConditionsOfAll(result.value, under) == StatedAll(r, ts, under)
    decreases ts, 0
  {
    if ts != [] {
      StatedOne(le, r, c, ts[0], under);
      var (c1, first) := InstantiateOne(le, Stateless(r), c, ts[0]);
      StatedEach(le, r, c1, ts[1..], under);
      var (_, rest) := InstantiateEach(le, Stateless(r), c1, ts[1..]);
      assert ([first.value] + rest.value)[1..] == rest.value;
    }
  }

  /**
    * Guard nesting is retained: the contract requires each state under exactly the guards the template puts
    * it under.
    */
  lemma NestingRetained(le: Order, r: Resolver, template: seq<Template>)
    requires TotalOrder(le) && AllResolvable(r, template)
    ensures
      var result := TryInstantiate(le, Stateless(r), (), template);
      result.Ok? && ConditionsOfAll(result.value, []) == StatedAll(r, template, [])
  {
    StatedEach(le, r, (), template, []);
    var rs := InstantiateEach(le, Stateless(r), (), template).1;
    ConditionsNormalized(le, rs.value, []);
  }
}
