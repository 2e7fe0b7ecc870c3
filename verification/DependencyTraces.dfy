/**
  * What the instantiation of a dependency contract asks its resolver, in which order and where it stops, and
  * which identities and subjects the contract it produces mentions (crates/bray-bound-tree/src/dependency.rs).
  */
module DependencyTraces {
  import opened Canonical
  import opened DependencyContracts
  import opened Options
  import opened Sequences

  // ------------------------------------------------------------------ the questions asked

  /** One item of a template, read from front to back with each guard before what it guards. */
  datatype Item = AskSubject(formal: Formal, kind: Kind) | AskGuard(formalGuard: FormalGuard) | Awaits | Faults

  function ItemsOf(t: Template): seq<Item>
    decreases t, 1
  {
    match t
    case DirectTemplate(f, k) => [AskSubject(f, k)]
    case GuardedTemplate(g, ts) => [AskGuard(g)] + ItemsOfAll(ts)
    case Unresolved => [Awaits]
    case Cleanup => [Faults]
  }

  function ItemsOfAll(ts: seq<Template>): seq<Item>
    decreases ts, 0
  {
    if ts == [] then [] else ItemsOf(ts[0]) + ItemsOfAll(ts[1..])
  }

  /** The identities of the unit that a subject or a guard names. */
  function SubjectIds(s: Subject): set<Local> {
    match s
    case Storage(id) => {id}
    case StorageAccess(id) => {id}
    case BorrowCapability(id) => {id}
    case ScopedCapability(id) => {id}
    case LifecycleObligation(id) => {id}
    case Shared(_) => {}
  }

  function GuardIds(g: Guard): set<Local> {
    match g
    case NullablePresent(access) => {access}
    case ActiveUnionVariant(access, _) => {access}
    case BorrowCapabilityActive(capability) => {capability}
    case ScopedCapabilityLive(capability) => {capability}
  }

  ghost predicate Within(ids: set<Local>, unit: UnitId) {
    forall id :: id in ids ==> id.unit == unit
  }

  /** The answer to one item: the resolver's new state, and the error that ends the instantiation, if any. */
  ghost function Answer<C>(ctx: Context<C>, c: C, item: Item): (C, Option<Error>) {
    match item
    case Awaits => (c, Some(UnresolvedWitness))
    case Faults => (c, Some(Fault))
    case AskSubject(f, k) =>
      var (c1, s) := ctx.resolveSubject(c, f, k);
      (c1, if s == None then Some(Resolution)
           else if Within(SubjectIds(s.value), ctx.unit) then None else Some(ForeignUnit))
    case AskGuard(g) =>
      var (c1, s) := ctx.resolveGuard(c, g);
      (c1, if s == None then Some(Resolution)
           else if Within(GuardIds(s.value), ctx.unit) then None else Some(ForeignUnit))
  }

  /** The items answered one after the other, up to the first error. */
  ghost function Interview<C>(ctx: Context<C>, c: C, items: seq<Item>): (C, Option<Error>) {
    if items == [] then (c, None)
    else
      var (c1, e) := Answer(ctx, c, items[0]);
      if e.Some? then (c1, e) else Interview(ctx, c1, items[1..])
  }

  lemma {:induction false} InterviewAppend<C>(ctx: Context<C>, c: C, a: seq<Item>, b: seq<Item>)
    ensures
      var (c1, e) := Interview(ctx, c, a);
      Interview(ctx, c, a + b) == if e.Some? then (c1, e) else Interview(ctx, c1, b)
  {
    if a == [] {
      assert a + b == b;
    } else {
      assert (a + b)[1..] == a[1..] + b;
      InterviewAppend(ctx, Answer(ctx, c, a[0]).0, a[1..], b);
    }
  }

  lemma ValidMeansWithin(unit: UnitId, s: Subject, g: Guard)
    ensures SubjectValid(s, unit) <==> Within(SubjectIds(s), unit)
    ensures GuardValid(g, unit) <==> Within(GuardIds(g), unit)
  {
    if !s.Shared? {
      assert s.id in SubjectIds(s);
    }
    match g
    case NullablePresent(access) => assert access in GuardIds(g);
    case ActiveUnionVariant(access, _) => assert access in GuardIds(g);
    case BorrowCapabilityActive(capability) => assert capability in GuardIds(g);
    case ScopedCapabilityLive(capability) => assert capability in GuardIds(g);
  }

  /** The outcome `r` in the resolver state `c` is that of the interview `i`. */
  ghost predicate Same<C, T>(c: C, r: Result<T>, i: (C, Option<Error>)) {
    c == i.0 && i.1 == if r.Err? then Some(r.error) else None
  }

  lemma {:induction false} OneAsks<C>(le: Order, ctx: Context<C>, c: C, t: Template)
    ensures Same(InstantiateOne(le, ctx, c, t).0, InstantiateOne(le, ctx, c, t).1, Interview(ctx, c, ItemsOf(t)))
    decreases t, 1
  {
    match t
    case Cleanup =>
    case Unresolved =>
    case DirectTemplate(f, k) =>
      var (c1, s) := ctx.resolveSubject(c, f, k);
      if s.Some? {
        forall g { ValidMeansWithin(ctx.unit, s.value, g); }
      }
    case GuardedTemplate(g, ts) =>
      var (c1, guard) := ctx.resolveGuard(c, g);
      EachAsks(le, ctx, c1, ts);
      assert ([AskGuard(g)] + ItemsOfAll(ts))[1..] == ItemsOfAll(ts);
      if guard.Some? {
        forall s { ValidMeansWithin(ctx.unit, s, guard.value); }
      }
  }

  lemma {:induction false} EachAsks<C>(le: Order, ctx: Context<C>, c: C, ts: seq<Template>)
    ensures Same(InstantiateEach(le, ctx, c, ts).0, InstantiateEach(le, ctx, c, ts).1,
                 Interview(ctx, c, ItemsOfAll(ts)))
    decreases ts, 0
  {
    if ts != [] {
      OneAsks(le, ctx, c, ts[0]);
      var (c1, first) := InstantiateOne(le, ctx, c, ts[0]);
      EachAsks(le, ctx, c1, ts[1..]);
      InterviewAppend(ctx, c, ItemsOf(ts[0]), ItemsOfAll(ts[1..]));
    }
  }

  /**
    * For any resolver with state: instantiation asks the items of the template in order, each in the state the
    * one before left, and fails exactly where and how the first item fails.
    */
  lemma InstantiationAsks<C>(le: Order, ctx: Context<C>, c: C, template: seq<Template>)
    ensures
      var result, first := TryInstantiate(le, ctx, c, template), Interview(ctx, c, ItemsOfAll(template)).1;
      && (result.Ok? <==> first.None?)
      && (result.Err? ==> Some(result.error) == first)
  {
    EachAsks(le, ctx, c, template);
  }

  // ------------------------------------------------------------------ the identities of a contract

  ghost function IdsOf(r: Requirement): set<Local>
    decreases r, 1
  {
    match r
    case Direct(s, _) => SubjectIds(s)
    case Guarded(g, rs) => GuardIds(g) + IdsOfAll(rs)
  }

  ghost function IdsOfAll(rs: seq<Requirement>): set<Local>
    decreases rs, 0
  {
    if rs == [] then {} else IdsOf(rs[0]) + IdsOfAll(rs[1..])
  }

  lemma WithinUnion(a: set<Local>, b: set<Local>, unit: UnitId)
    ensures Within(a + b, unit) <==> Within(a, unit) && Within(b, unit)
  {
  }

  /** A requirement is valid for a unit exactly when every identity in it, at any depth, is of the unit. */
  lemma {:induction false} ValidOne(r: Requirement, unit: UnitId)
    ensures ValidFor(r, unit) <==> Within(IdsOf(r), unit)
    decreases r, 1
  {
    match r
    case Direct(s, _) => forall g { ValidMeansWithin(unit, s, g); }
    case Guarded(g, rs) =>
      forall s { ValidMeansWithin(unit, s, g); }
      ValidAll(rs, unit);
      WithinUnion(GuardIds(g), IdsOfAll(rs), unit);
  }

  lemma {:induction false} ValidAll(rs: seq<Requirement>, unit: UnitId)
    ensures AllValidFor(rs, unit) <==> Within(IdsOfAll(rs), unit)
    decreases rs, 0
  {
    if rs != [] {
      ValidOne(rs[0], unit);
      ValidAll(rs[1..], unit);
      WithinUnion(IdsOf(rs[0]), IdsOfAll(rs[1..]), unit);
      assert forall i :: 0 < i < |rs| ==> rs[i] == rs[1..][i - 1];
    }
  }

  /** Every identity in a contract that is produced is of the unit, whatever the resolver answers. */
  lemma ProducedWithin<C>(le: Order, ctx: Context<C>, c: C, template: seq<Template>)
    requires TotalOrder(le) && TryInstantiate(le, ctx, c, template).Ok?
    ensures Within(IdsOfAll(TryInstantiate(le, ctx, c, template).value), ctx.unit)
  {
    InstantiationSound(le, ctx, c, template);
    ValidAll(TryInstantiate(le, ctx, c, template).value, ctx.unit);
  }

  // ------------------------------------------------------------------ the subjects of a contract

  ghost function GuardsOf(r: Requirement): set<Guard>
    decreases r, 1
  {
    match r
    case Direct(_, _) => {}
    case Guarded(g, rs) => {g} + GuardsOfAll(rs)
  }

  ghost function GuardsOfAll(rs: seq<Requirement>): set<Guard>
    decreases rs, 0
  {
    if rs == [] then {} else GuardsOf(rs[0]) + GuardsOfAll(rs[1..])
  }

  ghost function DirectsOf(r: Requirement): set<Subject>
    decreases r, 1
  {
    match r
    case Direct(s, _) => {s}
    case Guarded(_, rs) => DirectsOfAll(rs)
  }

  ghost function DirectsOfAll(rs: seq<Requirement>): set<Subject>
    decreases rs, 0
  {
    if rs == [] then {} else DirectsOf(rs[0]) + DirectsOfAll(rs[1..])
  }

  /** A presence or variant test needs its storage access, a capability test its capability. */
  predicate Tests(g: Guard, s: Subject) {
    || (s.StorageAccess? && ((g.NullablePresent? && g.access == s.id) || (g.ActiveUnionVariant? && g.access == s.id)))
    || (s.BorrowCapability? && g == BorrowCapabilityActive(s.id))
    || (s.ScopedCapability? && g == ScopedCapabilityLive(s.id))
  }

  ghost predicate Tested(guards: set<Guard>, s: Subject) {
    exists g :: g in guards && Tests(g, s)
  }

  lemma TestedUnion(a: set<Guard>, b: set<Guard>, s: Subject)
    ensures Tested(a + b, s) <==> Tested(a, s) || Tested(b, s)
  {
    if g :| g in a && Tests(g, s) { assert g in a + b; }
    if g :| g in b && Tests(g, s) { assert g in a + b; }
  }

  lemma TestedOne(g: Guard, s: Subject)
    ensures Tested({g}, s) <==> s == GuardSubject(g)
  {
    assert Tested({g}, s) <==> Tests(g, s);
  }

  lemma {:induction false} SubjectsOne(r: Requirement, s: Subject)
    ensures s in SubjectsOf(r) <==> s in DirectsOf(r) || Tested(GuardsOf(r), s)
    decreases r, 1
  {
    if r.Guarded? {
      SubjectsExact(r.requirements, s);
      TestedUnion({r.guard}, GuardsOfAll(r.requirements), s);
      TestedOne(r.guard, s);
    }
  }

  /** The subjects a contract requires: those of its direct requirements and those its guards test. */
  lemma {:induction false} SubjectsExact(rs: seq<Requirement>, s: Subject)
    ensures s in SubjectsOfAll(rs) <==> s in DirectsOfAll(rs) || Tested(GuardsOfAll(rs), s)
    decreases rs, 0
  {
    if rs != [] {
      SubjectsOne(rs[0], s);
      SubjectsExact(rs[1..], s);
      TestedUnion(GuardsOf(rs[0]), GuardsOfAll(rs[1..]), s);
    }
  }
}
