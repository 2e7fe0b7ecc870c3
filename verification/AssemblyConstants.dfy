/** The compile-time constants of an inline-assembly contract (crates/bray-bound-tree/src/memory.rs). */
module AssemblyConstants {
  import opened Options
  import opened Sequences
  import opened InlineAssembly

  const BASE_CONSTANTS := 5
  const MAX_CONSTANTS := BASE_CONSTANTS + MAX_OPERANDS

  /** The five literal identities of a contract, in declaration order. */
  datatype Literals = Literals(
    template: ConstantId, constraints: ConstantId, clobbers: ConstantId, features: ConstantId, options: ConstantId)

  /** Every constant the contract mentions, in declaration order and with repetitions. */
  function Mentioned(base: Literals, operands: seq<Operand>): seq<ConstantId> {
    [base.template, base.constraints, base.clobbers, base.features, base.options] + OperandConstants(operands)
  }

  function OperandConstants(operands: seq<Operand>): (s: seq<ConstantId>)
    ensures |s| <= |operands|
  {
    if operands == [] then []
    else (if operands[0].constant.Some? then [operands[0].constant.value] else []) + OperandConstants(operands[1..])
  }

  /** How many of the first `k` operands have a constant. */
  function ConstantsBefore(operands: seq<Operand>, k: nat): nat
    requires k <= |operands|
  {
    if k == 0 then 0 else ConstantsBefore(operands, k - 1) + if operands[k - 1].constant.Some? then 1 else 0
  }

  lemma {:induction false} OperandConstantsLast(operands: seq<Operand>)
    requires operands != []
    ensures
      var front, last := operands[..|operands| - 1], operands[|operands| - 1];
      OperandConstants(operands) == OperandConstants(front) + if last.constant.Some? then [last.constant.value] else []
  {
    if |operands| > 1 {
      OperandConstantsLast(operands[1..]);
      assert operands[1..][..|operands| - 2] == operands[..|operands| - 1][1..];
    } else {
      assert operands[..0] == [] && operands[1..] == [];
    }
  }

  lemma {:induction false} OperandConstantsPlaced(operands: seq<Operand>, n: nat, k: nat)
    requires k < n <= |operands|
    ensures |OperandConstants(operands[..n])| == ConstantsBefore(operands, n)
    ensures operands[k].constant.Some? ==>
      && ConstantsBefore(operands, k) < ConstantsBefore(operands, n)
      && OperandConstants(operands[..n])[ConstantsBefore(operands, k)] == operands[k].constant.value
    decreases n
  {
    var front := operands[..n];
    OperandConstantsLast(front);
    assert front[..n - 1] == operands[..n - 1];
    if n > 1 {
      OperandConstantsPlaced(operands, n - 1, if k < n - 1 then k else 0);
    }
  }

  /** The five literals come first, in declaration order, and then the constants of the operands in operand order. */
  lemma MentionedInOrder(base: Literals, operands: seq<Operand>)
    ensures |Mentioned(base, operands)| == BASE_CONSTANTS + ConstantsBefore(operands, |operands|)
    ensures Mentioned(base, operands)[0] == base.template && Mentioned(base, operands)[1] == base.constraints
    ensures Mentioned(base, operands)[2] == base.clobbers && Mentioned(base, operands)[3] == base.features
    ensures Mentioned(base, operands)[4] == base.options
    ensures forall k :: 0 <= k < |operands| && operands[k].constant.Some? ==>
      && ConstantsBefore(operands, k) < ConstantsBefore(operands, |operands|)
      && Mentioned(base, operands)[BASE_CONSTANTS + ConstantsBefore(operands, k)] == operands[k].constant.value
  {
    assert operands[..|operands|] == operands;
    if operands != [] {
      OperandConstantsPlaced(operands, |operands|, 0);
    }
    forall k | 0 <= k < |operands| && operands[k].constant.Some?
      ensures ConstantsBefore(operands, k) < ConstantsBefore(operands, |operands|)
      ensures Mentioned(base, operands)[BASE_CONSTANTS + ConstantsBefore(operands, k)] == operands[k].constant.value
    {
      OperandConstantsPlaced(operands, |operands|, k);
    }
  }

  /** `s` keeps, of each element of `all`, exactly the first occurrence, in order. */
  ghost predicate KeepsFirst(all: seq<ConstantId>, s: seq<ConstantId>)
    decreases |all|
  {
    if all == [] then s == []
    else
      var rest, last := all[..|all| - 1], all[|all| - 1];
      if last in rest then KeepsFirst(rest, s)
      else s != [] && s[|s| - 1] == last && KeepsFirst(rest, s[..|s| - 1])
  }

  lemma KeepsFirstStep(all: seq<ConstantId>, s: seq<ConstantId>, v: ConstantId)
    requires KeepsFirst(all, s)
    ensures KeepsFirst(all + [v], if v in all then s else s + [v])
  {
    assert (all + [v])[..|all|] == all;
    assert (s + [v])[..|s|] == s;
  }

  /** Such a listing has no repetition and the same elements. */
  lemma {:induction false} KeepsFirstDistinct(all: seq<ConstantId>, s: seq<ConstantId>)
    requires KeepsFirst(all, s)
    ensures NoDuplicates(s) && Elements(s) == Elements(all) && |s| <= |all|
    decreases |all|
  {
    if all != [] {
      var rest, last := all[..|all| - 1], all[|all| - 1];
      assert all == rest + [last];
      ElementsAppend(rest, [last]);
      if last in rest {
        KeepsFirstDistinct(rest, s);
      } else {
        var front := s[..|s| - 1];
        KeepsFirstDistinct(rest, front);
        assert s == front + [last];
        ElementsAppend(front, [last]);
        assert last !in Elements(front);
      }
    }
  }

  /** The first `count` slots hold exactly `s`. */
  ghost predicate Holds(slots: seq<Option<ConstantId>>, s: seq<ConstantId>) {
    |slots| == |s| && forall i :: 0 <= i < |s| ==> slots[i] == Some(s[i])
  }

  method Contains(values: array<Option<ConstantId>>, count: nat, value: ConstantId, ghost s: seq<ConstantId>)
    returns (found: bool)
    requires count <= values.Length && Holds(values[..count], s)
    ensures found <==> value in s
  {
    for i := 0 to count
      invariant value !in s[..i]
    {
      if values[i] == Some(value) {
        assert values[..count][i] == Some(s[i]);
        return true;
      }
      assert values[..count][i] == Some(s[i]) && s[..i + 1] == s[..i] + [s[i]];
    }
    assert s[..count] == s;
    found := false;
  }

  /** One turn of the loop: `all` has been seen, `s` is kept and `v` comes next. */
  method Keep(values: array<Option<ConstantId>>, v: ConstantId, s: seq<ConstantId>, ghost all: seq<ConstantId>)
    returns (kept: seq<ConstantId>)
    requires |s| < values.Length && Holds(values[..|s|], s) && KeepsFirst(all, s)
    modifies values
    ensures |s| <= |kept| <= |s| + 1 && Holds(values[..|kept|], kept) && KeepsFirst(all + [v], kept)
  {
    KeepsFirstDistinct(all, s);
    assert v in all <==> v in Elements(s) by { assert v in all <==> v in Elements(all); }
    KeepsFirstStep(all, s, v);
    var count := |s|;
    var seen := Contains(values, count, v, s);
    kept := s;
    if !seen {
      ghost var filled := values[..count];
      values[count] := Some(v);
      assert values[..count + 1] == filled + [Some(v)];
      kept := s + [v];
    }
  }

  /** The fixed buffer never overflows, and the result lists each constant once, in order of first mention. */
  method ConstantValues(base: Literals, operands: seq<Operand>) returns (constants: seq<ConstantId>)
    requires |operands| <= 32
    ensures KeepsFirst(Mentioned(base, operands), constants)
    ensures NoDuplicates(constants) && Elements(constants) == Elements(Mentioned(base, operands))
  {
    var all := Mentioned(base, operands);
    var values := new Option<ConstantId>[MAX_CONSTANTS](_ => None);
    constants := [];
    var i := 0;
    while i < |all|
      invariant |constants| <= i <= |all| && Holds(values[..|constants|], constants) && KeepsFirst(all[..i], constants)
    {
      constants := Keep(values, all[i], constants, all[..i]);
      assert all[..i + 1] == all[..i] + [all[i]];
      i := i + 1;
    }
    assert all[..i] == all;
    KeepsFirstDistinct(all, constants);
  }
}
