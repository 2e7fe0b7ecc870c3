/** The checked asynchronous tables of a unit and their queries (crates/bray-bound-tree/src/asynchronous.rs). */
module CheckedAsyncTables {
  import opened Canonical
  import opened CheckedIndexes
  import opened Options
  import opened Sequences

  type UnitId(==, !new)
  type Identity(==, !new)
  type Scope(==, !new)
  type Node(==, !new)
  type Expression(==, !new)
  type Facts(==, !new)

  datatype StorageRequirement = StorageRequirement(identity: Identity, owners: set<UnitId>, facts: Facts)
  datatype ScopeExitPlan = ScopeExitPlan(scope: Scope, exit: Node, owners: set<UnitId>, facts: Facts)
  datatype ReplacementPlan = ReplacementPlan(expression: Expression, owners: set<UnitId>, facts: Facts)

  datatype Error = ForeignUnit | DuplicateScopeExit | DuplicateReplacement
  datatype Result<+T> = Ok(value: T) | Err(error: Error)

  /** The derived orders of the keys. */
  datatype Orders = Orders(identity: Order<Identity>, exit: Order<(Scope, Node)>, expression: Order<Expression>)

  ghost predicate OrdersOk(o: Orders) {
    TotalOrder(o.identity) && TotalOrder(o.exit) && TotalOrder(o.expression)
  }

  datatype CheckedAsync = CheckedAsync(
    unit: UnitId,
    requirements: seq<StorageRequirement>,
    byIdentity: seq<nat>,
    exits: seq<ScopeExitPlan>,
    byNode: seq<nat>,
    replacements: seq<ReplacementPlan>)

  function Identities(rs: seq<StorageRequirement>): (ks: seq<Identity>)
    ensures |ks| == |rs| && forall i :: 0 <= i < |rs| ==> ks[i] == rs[i].identity
  {
    seq(|rs|, i requires 0 <= i < |rs| => rs[i].identity)
  }

  function ExitKeys(es: seq<ScopeExitPlan>): (ks: seq<(Scope, Node)>)
    ensures |ks| == |es| && forall i :: 0 <= i < |es| ==> ks[i] == (es[i].scope, es[i].exit)
  {
    seq(|es|, i requires 0 <= i < |es| => (es[i].scope, es[i].exit))
  }

  function Expressions(rs: seq<ReplacementPlan>): (ks: seq<Expression>)
    ensures |ks| == |rs| && forall i :: 0 <= i < |rs| ==> ks[i] == rs[i].expression
  {
    seq(|rs|, i requires 0 <= i < |rs| => rs[i].expression)
  }

  ghost predicate SortedReplacements(le: Order<Expression>, rs: seq<ReplacementPlan>) {
    Ascending(le, Expressions(rs))
  }

  /** What every accepted table satisfies. */
  ghost predicate Valid(o: Orders, t: CheckedAsync) {
    && IsIndex(o.identity, Identities(t.requirements), t.byIdentity)
    && IsIndex(o.exit, ExitKeys(t.exits), t.byNode) && NoDuplicates(ExitKeys(t.exits))
    && SortedReplacements(o.expression, t.replacements)
  }

  predicate Foreign(unit: UnitId, owners: set<UnitId>)
    ensures Foreign(unit, owners) <==> exists u :: u in owners && u != unit
  {
    assert forall u :: u in owners && u != unit ==> u in owners - {unit};
    owners - {unit} != {}
  }

  /** `others` are the units mentioned by the frame dependencies, suspensions, task operations and cleanup types. */
  ghost predicate AnyForeign(unit: UnitId, others: set<UnitId>, rs: seq<StorageRequirement>, es: seq<ScopeExitPlan>) {
    || Foreign(unit, others)
    || (exists i :: 0 <= i < |rs| && Foreign(unit, rs[i].owners))
    || (exists i :: 0 <= i < |es| && Foreign(unit, es[i].owners))
  }

  method TryNew(o: Orders, unit: UnitId, others: set<UnitId>, rs: seq<StorageRequirement>, es: seq<ScopeExitPlan>)
    returns (r: Result<CheckedAsync>)
    requires OrdersOk(o)
    ensures r == Err(ForeignUnit) <==> AnyForeign(unit, others, rs, es)
    ensures r == Err(DuplicateScopeExit) <==> !AnyForeign(unit, others, rs, es) && !NoDuplicates(ExitKeys(es))
    ensures r.Ok? <==> !AnyForeign(unit, others, rs, es) && NoDuplicates(ExitKeys(es))
    ensures r.Ok? ==> Valid(o, r.value) && r.value.requirements == rs && r.value.exits == es
    ensures r.Ok? ==> r.value.unit == unit && r.value.replacements == []
  {
    if Foreign(unit, others)
       || (exists i :: 0 <= i < |rs| && Foreign(unit, rs[i].owners))
       || (exists i :: 0 <= i < |es| && Foreign(unit, es[i].owners))
    {
      return Err(ForeignUnit);
    }
    var byIdentity := BuildIndex(o.identity, Identities(rs));
    var byNode := BuildIndex(o.exit, ExitKeys(es));
    var duplicate := HasDuplicate(o.exit, ExitKeys(es), byNode);
    if duplicate {
      return Err(DuplicateScopeExit);
    }
    r := Ok(CheckedAsync(unit, rs, byIdentity, es, byNode, []));
  }

  /** The replacements in the order of an index. */
  function Arranged(rs: seq<ReplacementPlan>, index: seq<nat>): (sorted: seq<ReplacementPlan>)
    requires InBounds(index, |rs|)
    ensures |sorted| == |index| && forall a :: 0 <= a < |index| ==> sorted[a] == rs[index[a]]
  {
    seq(|index|, a requires 0 <= a < |index| => rs[index[a]])
  }

  lemma ArrangedSorted(o: Orders, rs: seq<ReplacementPlan>, index: seq<nat>)
    requires IsIndex(o.expression, Expressions(rs), index) && NoDuplicates(Expressions(rs))
    ensures SortedReplacements(o.expression, Arranged(rs, index)) && Elements(Arranged(rs, index)) == Elements(rs)
  {
    var sorted, keys := Arranged(rs, index), Expressions(rs);
    forall a, b | 0 <= a < b < |sorted|
      ensures o.expression(Expressions(sorted)[a], Expressions(sorted)[b])
      ensures Expressions(sorted)[a] != Expressions(sorted)[b]
    {
      assert Before(o.expression, keys, index[a], index[b]);
      assert keys[index[a]] == Expressions(sorted)[a] && keys[index[b]] == Expressions(sorted)[b];
    }
    forall x ensures x in Elements(sorted) <==> x in Elements(rs) {
      if x in Elements(rs) {
        var i :| 0 <= i < |rs| && rs[i] == x;
        var a := PositionOf(keys, index, i);
        assert sorted[a] == x;
      }
    }
  }

  method WithReplacements(o: Orders, t: CheckedAsync, rs: seq<ReplacementPlan>) returns (r: Result<CheckedAsync>)
    requires OrdersOk(o) && Valid(o, t)
    ensures r == Err(ForeignUnit) <==> exists i :: 0 <= i < |rs| && Foreign(t.unit, rs[i].owners)
    ensures r.Ok? <==> (forall i :: 0 <= i < |rs| ==> !Foreign(t.unit, rs[i].owners)) && NoDuplicates(Expressions(rs))
    ensures r == Err(DuplicateReplacement) <==>
              (forall i :: 0 <= i < |rs| ==> !Foreign(t.unit, rs[i].owners)) && !NoDuplicates(Expressions(rs))
    ensures r.Ok? ==> Valid(o, r.value) && r.value == t.(replacements := r.value.replacements)
    ensures r.Ok? ==> Elements(r.value.replacements) == Elements(rs)
  {
    if exists i :: 0 <= i < |rs| && Foreign(t.unit, rs[i].owners) {
      return Err(ForeignUnit);
    }
    var index := BuildIndex(o.expression, Expressions(rs));
    var duplicate := HasDuplicate(o.expression, Expressions(rs), index);
    if duplicate {
      return Err(DuplicateReplacement);
    }
    ArrangedSorted(o, rs, index);
    r := Ok(t.(replacements := Arranged(rs, index)));
  }

  // ------------------------------------------------------------------ queries

  /** The first requirement in original order for an identity, duplicates included. */
  method StorageRequirementOf(o: Orders, t: CheckedAsync, identity: Identity) returns (r: Option<StorageRequirement>)
    requires OrdersOk(o) && Valid(o, t)
    ensures r.Some? ==> exists i :: 0 <= i < |t.requirements| && t.requirements[i] == r.value
                                    && r.value.identity == identity
                                    && forall j :: 0 <= j < i ==> t.requirements[j].identity != identity
    ensures r.None? <==> forall i :: 0 <= i < |t.requirements| ==> t.requirements[i].identity != identity
  {
    var i := Lookup(o.identity, Identities(t.requirements), t.byIdentity, identity);
    r := if i.Some? then Some(t.requirements[i.value]) else None;
  }

  /** With distinct keys the scan finds the only position with a key. */
  lemma FirstIsOnly<K(!new)>(keys: seq<K>, i: nat)
    requires NoDuplicates(keys) && i < |keys|
    ensures FirstWith(keys, keys[i]) == Some(i)
  {
  }

  /** The one plan for a scope exit, if there is one. */
  method ScopeExitPlanOf(o: Orders, t: CheckedAsync, scope: Scope, exit: Node) returns (r: Option<ScopeExitPlan>)
    requires OrdersOk(o) && Valid(o, t)
    ensures forall i :: 0 <= i < |t.exits| && t.exits[i].scope == scope && t.exits[i].exit == exit ==>
              r == Some(t.exits[i])
    ensures r.Some? ==> r.value in t.exits && r.value.scope == scope && r.value.exit == exit
  {
    var i := Lookup(o.exit, ExitKeys(t.exits), t.byNode, (scope, exit));
    r := if i.Some? then Some(t.exits[i.value]) else None;
    forall k | 0 <= k < |t.exits| && t.exits[k].scope == scope && t.exits[k].exit == exit
      ensures r == Some(t.exits[k])
    {
      FirstIsOnly(ExitKeys(t.exits), k);
    }
  }

  /** Binary search in an ascending list. */
  method Search<K(==, !new)>(le: Order<K>, keys: seq<K>, key: K) returns (r: Option<nat>)
    requires TotalOrder(le) && Ascending(le, keys)
    ensures r.Some? ==> r.value < |keys| && keys[r.value] == key
    ensures forall i :: 0 <= i < |keys| && keys[i] == key ==> r == Some(i)
  {
    var low, high := 0, |keys|;
    while low < high
      invariant 0 <= low <= high <= |keys|
      invariant forall a :: 0 <= a < |keys| && keys[a] == key ==> low <= a < high
    {
      var mid := (low + high) / 2;
      if keys[mid] == key {
        return Some(mid);
      } else if le(keys[mid], key) {
        low := mid + 1;
      } else {
        high := mid;
      }
    }
    r := None;
  }

  method FindReplacement(le: Order<Expression>, rs: seq<ReplacementPlan>, expression: Expression)
    returns (r: Option<ReplacementPlan>)
    requires TotalOrder(le) && SortedReplacements(le, rs)
    ensures forall i :: 0 <= i < |rs| && rs[i].expression == expression ==> r == Some(rs[i])
    ensures r.Some? ==> r.value in rs && r.value.expression == expression
  {
    var keys := Expressions(rs);
    var i := Search(le, keys, expression);
    r := if i.Some? then Some(rs[i.value]) else None;
    forall k | 0 <= k < |rs| && rs[k].expression == expression ensures r == Some(rs[k]) {
      assert keys[k] == expression;
    }
  }

  /** The one replacement plan for an expression, if there is one. */
  method ReplacementOf(o: Orders, t: CheckedAsync, expression: Expression) returns (r: Option<ReplacementPlan>)
    requires OrdersOk(o) && Valid(o, t)
    ensures forall i :: 0 <= i < |t.replacements| && t.replacements[i].expression == expression ==>
              r == Some(t.replacements[i])
    ensures r.Some? ==> r.value in t.replacements && r.value.expression == expression
  {
    r := FindReplacement(o.expression, t.replacements, expression);
  }
}
