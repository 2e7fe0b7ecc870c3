/**
  * Structural validation of inline-assembly contracts (crates/bray-bound-tree/src/memory.rs): how the
  * constraint parser, the range splitter, the dense-ordinal masks and the template scanner compose in
  * `try_new`, and what the later type checks mean for an accepted contract.
  */
module InlineAssembly {
  import opened Options
  import opened Sequences
  import opened AssemblyConstraints
  import opened AssemblyTemplate
  import CR = ConstraintRanges
  import DenseOrdinals

  type TypeId(==, !new)
  type ConstantId(==, !new)
  type SymbolId(==, !new)
  type U16 = x: nat | x < 65536

  const MAX_OPERANDS := 32

  datatype Operand = Operand(
    kind: OperandKind,
    ty: TypeId,
    input: Option<U16>,
    runtimeInput: Option<U16>,
    output: Option<U16>,
    constant: Option<ConstantId>,
    symbol: Option<SymbolId>,
    start: U16,
    length: U16)

  /** Which ordinal of an operand is meant: tuple input, runtime input or output. */
  type Pick = Operand -> Option<U16>

  const INPUT: Pick := (o: Operand) => o.input
  const RUNTIME: Pick := (o: Operand) => o.runtimeInput
  const OUTPUT: Pick := (o: Operand) => o.output

  /** The ordinals that are present, in operand order. */
  function Select(operands: seq<Operand>, pick: Pick): seq<nat> {
    if operands == [] then []
    else (if pick(operands[0]).Some? then [pick(operands[0]).value] else []) + Select(operands[1..], pick)
  }

  /** Which fields each kind of operand has: the table read by field instead of by kind. */
  predicate Shaped(o: Operand) {
    && (o.input.Some? <==> o.kind in {Input, Memory, InOut, EarlyInOut, Immediate, Symbol})
    && (o.runtimeInput.Some? <==> o.kind in {Input, Memory, InOut, EarlyInOut})
    && (o.output.Some? <==> o.kind in {LateOutput, Output, InOut, EarlyInOut})
    && (o.constant.Some? <==> o.kind == Immediate)
    && (o.symbol.Some? ==> o.kind == Symbol)
  }

  predicate FieldsValid(o: Operand)
    ensures FieldsValid(o) <==> Shaped(o)
  {
    match o.kind
    case Input => o.input.Some? && o.runtimeInput.Some? && o.output.None? && o.constant.None? && o.symbol.None?
    case Memory => o.input.Some? && o.runtimeInput.Some? && o.output.None? && o.constant.None? && o.symbol.None?
    case LateOutput => o.input.None? && o.runtimeInput.None? && o.output.Some? && o.constant.None? && o.symbol.None?
    case Output => o.input.None? && o.runtimeInput.None? && o.output.Some? && o.constant.None? && o.symbol.None?
    case InOut => o.input.Some? && o.runtimeInput.Some? && o.output.Some? && o.constant.None? && o.symbol.None?
    case EarlyInOut => o.input.Some? && o.runtimeInput.Some? && o.output.Some? && o.constant.None? && o.symbol.None?
    case Immediate => o.input.Some? && o.runtimeInput.None? && o.output.None? && o.constant.Some? && o.symbol.None?
    case Symbol => o.input.Some? && o.runtimeInput.None? && o.output.None? && o.constant.None?
    case Label => o.input.None? && o.runtimeInput.None? && o.output.None? && o.constant.None? && o.symbol.None?
  }

  function LlvmOperandCount(operands: seq<Operand>): (n: nat)
    ensures n <= 3 * |operands|
  {
    if operands == [] then 0
    else
      var o := operands[0];
      (if o.output.Some? then 1 else 0) + (if o.input.Some? then 1 else 0) + (if o.kind == Label then 1 else 0)
      + LlvmOperandCount(operands[1..])
  }

  /** One slot for each output, each tuple input and each label. */
  function Slots(operands: seq<Operand>): nat {
    |Select(operands, OUTPUT)| + |Select(operands, INPUT)| + |LabelTypes(operands)|
  }

  lemma {:induction false} SlotsCounted(operands: seq<Operand>)
    ensures LlvmOperandCount(operands) == Slots(operands)
  {
    if operands != [] {
      SlotsCounted(operands[1..]);
      LabelsFromFront(operands);
    }
  }

  lemma {:induction false} LabelsFromFront(operands: seq<Operand>)
    requires operands != []
    ensures LabelTypes(operands)
            == (if operands[0].kind == Label then [operands[0].ty] else []) + LabelTypes(operands[1..])
  {
    if |operands| > 1 {
      var front := operands[..|operands| - 1];
      LabelsFromFront(front);
      assert front[1..] == operands[1..][..|operands| - 2];
    } else {
      assert operands[..0] == [] && operands[1..] == [];
    }
  }

  // ------------------------------------------------------------------ outputs before inputs

  ghost predicate OutputsFirst(operands: seq<Operand>) {
    forall i, j :: 0 <= i < j < |operands| && operands[j].output.Some? ==> operands[i].output.Some?
  }

  method OutputsPrecedeInputs(operands: seq<Operand>) returns (ok: bool)
    ensures ok <==> OutputsFirst(operands)
  {
    var sawPureInput := false;
    for k := 0 to |operands|
      invariant sawPureInput <==> exists i :: 0 <= i < k && operands[i].output.None?
      invariant OutputsFirst(operands[..k])
    {
      var hasOutput := operands[k].output.Some?;
      if sawPureInput && hasOutput {
        return false;
      }
      assert operands[..k + 1] == operands[..k] + [operands[k]];
      sawPureInput := sawPureInput || !hasOutput;
    }
    assert operands[..|operands|] == operands;
    ok := true;
  }

  // ------------------------------------------------------------------ ordinals

  lemma {:induction false} Selected(operands: seq<Operand>, pick: Pick, v: nat)
    ensures v in Select(operands, pick) <==> exists k :: 0 <= k < |operands| && pick(operands[k]) == Some(v)
  {
    if operands != [] {
      Selected(operands[1..], pick, v);
      if k :| 0 <= k < |operands[1..]| && pick(operands[1..][k]) == Some(v) {
        assert pick(operands[k + 1]) == Some(v);
      }
      if k :| 0 <= k < |operands| && pick(operands[k]) == Some(v) && k > 0 {
        assert pick(operands[1..][k - 1]) == Some(v);
      }
    }
  }

  /** Distinct ordinals belong to distinct operands. */
  lemma {:induction false} SelectedOnce(operands: seq<Operand>, pick: Pick, k: nat, l: nat)
    requires NoDuplicates(Select(operands, pick)) && k < l < |operands| && pick(operands[k]).Some?
    ensures pick(operands[k]) != pick(operands[l])
  {
    var all, rest := Select(operands, pick), Select(operands[1..], pick);
    if k > 0 {
      assert rest == all[|all| - |rest|..];
      SelectedOnce(operands[1..], pick, k - 1, l - 1);
    } else if pick(operands[l]).Some? {
      var v := pick(operands[l]).value;
      Selected(operands[1..], pick, v);
      assert pick(operands[1..][l - 1]) == Some(v);
      assert v in rest && all == [pick(operands[0]).value] + rest;
      var i :| 0 <= i < |rest| && rest[i] == v;
      assert all[i + 1] == v && all[0] != all[i + 1];
    }
  }

  /** Operands and a slice of types are matched one to one, ordinal by ordinal, with equal types. */
  ghost predicate Matched(operands: seq<Operand>, pick: Pick, types: seq<TypeId>) {
    && (forall k :: 0 <= k < |operands| && pick(operands[k]).Some? ==>
          pick(operands[k]).value < |types| && types[pick(operands[k]).value] == operands[k].ty)
    && (forall k, l :: 0 <= k < l < |operands| && pick(operands[k]).Some? ==> pick(operands[k]) != pick(operands[l]))
    && (forall v :: 0 <= v < |types| ==> v in Select(operands, pick))
  }

  predicate TypeAgrees(o: Operand, pick: Pick, types: seq<TypeId>) {
    pick(o).Some? ==> pick(o).value < |types| && types[pick(o).value] == o.ty
  }

  predicate AllAgree(operands: seq<Operand>, pick: Pick, types: seq<TypeId>) {
    forall k :: 0 <= k < |operands| ==> TypeAgrees(operands[k], pick, types)
  }

  /** For dense ordinals the checks made by the source amount to a type-preserving bijection. */
  lemma DenseMatched(operands: seq<Operand>, pick: Pick, types: seq<TypeId>)
    requires Permutes(Select(operands, pick))
    ensures AllAgree(operands, pick, types) && |Select(operands, pick)| == |types| <==> Matched(operands, pick, types)
  {
    var ordinals := Select(operands, pick);
    forall k, l | 0 <= k < l < |operands| && pick(operands[k]).Some? ensures pick(operands[k]) != pick(operands[l]) {
      SelectedOnce(operands, pick, k, l);
    }
    if |ordinals| == |types| {
      forall v: nat | v < |types| ensures v in ordinals { assert v in Elements(ordinals); }
    }
    if Matched(operands, pick, types) {
      forall k | 0 <= k < |operands| ensures TypeAgrees(operands[k], pick, types) {
      }
      SizesAgree(operands, pick, types);
    }
  }

  lemma SizesAgree(operands: seq<Operand>, pick: Pick, types: seq<TypeId>)
    requires Permutes(Select(operands, pick)) && Matched(operands, pick, types)
    ensures |Select(operands, pick)| == |types|
  {
    var ordinals := Select(operands, pick);
    forall v: nat ensures v in Below(|ordinals|) <==> v in Below(|types|) {
      if v in Elements(ordinals) {
        Selected(operands, pick, v);
      }
    }
    assert Below(|ordinals|) == Below(|types|);
  }

  predicate ValueTypesValid(operands: seq<Operand>, inputs: seq<TypeId>, outputs: seq<TypeId>) {
    && (forall k :: 0 <= k < |operands| ==>
          TypeAgrees(operands[k], RUNTIME, inputs) && TypeAgrees(operands[k], OUTPUT, outputs))
    && |Select(operands, RUNTIME)| == |inputs|
    && |Select(operands, OUTPUT)| == |outputs|
  }

  /**
    * The runtime inputs of the operands are the positions of `types`, each once, with equal types; told by the
    * field itself.
    */
  ghost predicate InputsMatched(operands: seq<Operand>, types: seq<TypeId>) {
    && (forall k :: 0 <= k < |operands| && operands[k].runtimeInput.Some? ==>
          && operands[k].runtimeInput.value < |types|
          && types[operands[k].runtimeInput.value] == operands[k].ty)
    && (forall k, l :: 0 <= k < l < |operands| && operands[k].runtimeInput.Some? ==>
          operands[k].runtimeInput != operands[l].runtimeInput)
    && (forall v :: 0 <= v < |types| ==> HasRuntimeInput(operands, v))
  }

  /** The same for the outputs. */
  ghost predicate OutputsMatched(operands: seq<Operand>, types: seq<TypeId>) {
    && (forall k :: 0 <= k < |operands| && operands[k].output.Some? ==>
          && operands[k].output.value < |types|
          && types[operands[k].output.value] == operands[k].ty)
    && (forall k, l :: 0 <= k < l < |operands| && operands[k].output.Some? ==>
          operands[k].output != operands[l].output)
    && (forall v :: 0 <= v < |types| ==> HasOutput(operands, v))
  }

  ghost predicate HasRuntimeInput(operands: seq<Operand>, v: int) {
    exists k :: 0 <= k < |operands| && operands[k].runtimeInput.Some? && operands[k].runtimeInput.value == v
  }

  ghost predicate HasOutput(operands: seq<Operand>, v: int) {
    exists k :: 0 <= k < |operands| && operands[k].output.Some? && operands[k].output.value == v
  }

  lemma MatchedInputs(operands: seq<Operand>, types: seq<TypeId>)
    ensures Matched(operands, RUNTIME, types) <==> InputsMatched(operands, types)
  {
    assert forall k :: 0 <= k < |operands| ==> RUNTIME(operands[k]) == operands[k].runtimeInput;
    forall v | 0 <= v < |types| ensures v in Select(operands, RUNTIME) <==> HasRuntimeInput(operands, v) {
      Selected(operands, RUNTIME, v);
    }
  }

  lemma MatchedOutputs(operands: seq<Operand>, types: seq<TypeId>)
    ensures Matched(operands, OUTPUT, types) <==> OutputsMatched(operands, types)
  {
    assert forall k :: 0 <= k < |operands| ==> OUTPUT(operands[k]) == operands[k].output;
    forall v | 0 <= v < |types| ensures v in Select(operands, OUTPUT) <==> HasOutput(operands, v) {
      Selected(operands, OUTPUT, v);
    }
  }

  /** Valid exactly when inputs and outputs are in type-preserving bijection. */
  lemma ValueTypesBijection(operands: seq<Operand>, inputs: seq<TypeId>, outputs: seq<TypeId>)
    requires Permutes(Select(operands, RUNTIME)) && Permutes(Select(operands, OUTPUT))
    ensures ValueTypesValid(operands, inputs, outputs) <==>
            InputsMatched(operands, inputs) && OutputsMatched(operands, outputs)
  {
    DenseMatched(operands, RUNTIME, inputs);
    DenseMatched(operands, OUTPUT, outputs);
    MatchedInputs(operands, inputs);
    MatchedOutputs(operands, outputs);
  }

  /** The types of the label operands, in operand order. */
  function LabelTypes(operands: seq<Operand>): seq<TypeId> {
    if operands == [] then []
    else LabelTypes(operands[..|operands| - 1])
         + if operands[|operands| - 1].kind == Label then [operands[|operands| - 1].ty] else []
  }

  /** Label operands consume the label types in order, all of them. */
  method OperandTypesValid(operands: seq<Operand>, inputs: seq<TypeId>, outputs: seq<TypeId>, labels: seq<TypeId>)
    returns (ok: bool)
    ensures ok <==> ValueTypesValid(operands, inputs, outputs) && labels == LabelTypes(operands)
  {
    if !ValueTypesValid(operands, inputs, outputs) {
      return false;
    }
    var labelIndex := 0;
    for k := 0 to |operands|
      invariant labelIndex <= |labels| && LabelTypes(operands[..k]) == labels[..labelIndex]
    {
      assert operands[..k + 1][..k] == operands[..k];
      if operands[k].kind == Label {
        if labelIndex >= |labels| || labels[labelIndex] != operands[k].ty {
          LabelPrefix(operands, k + 1);
          return false;
        }
        assert labels[..labelIndex + 1] == labels[..labelIndex] + [operands[k].ty];
        labelIndex := labelIndex + 1;
      }
    }
    assert operands[..|operands|] == operands;
    ok := labelIndex == |labels|;
  }

  lemma {:induction false} LabelPrefix(operands: seq<Operand>, k: nat)
    requires k <= |operands|
    ensures LabelTypes(operands[..k]) <= LabelTypes(operands)
    decreases |operands| - k
  {
    if k == |operands| {
      assert operands[..k] == operands;
    } else {
      LabelPrefix(operands, k + 1);
      assert operands[..k + 1][..k] == operands[..k];
    }
  }

  // ------------------------------------------------------------------ the whole contract

  /** The constraint list as parts; the empty list has none. */
  function ConstraintParts(constraints: string): seq<string> {
    if constraints == "" then [] else CR.Parts(constraints)
  }

  predicate KindAgrees(kind: OperandKind, text: string) {
    TryParse(text).Some? && TryParse(text).value.kind == kind
  }

  /** The descriptor of operand `i` is well formed and describes exactly part `i` of the constraint list. */
  ghost predicate Describes(ws: CR.Space, enc: CR.Encoding, parts: seq<string>, i: nat, o: Operand)
    requires i < |parts|
  {
    Shaped(o) && CR.IsPartRange(ws, enc, parts, i, (o.start, o.length)) && KindAgrees(o.kind, CR.Trim(ws, parts[i]))
  }

  ghost predicate AllDescribed(ws: CR.Space, enc: CR.Encoding, parts: seq<string>, operands: seq<Operand>)
    requires |operands| == |parts|
  {
    forall i :: 0 <= i < |parts| ==> Describes(ws, enc, parts, i, operands[i])
  }

  /** Tuple inputs, runtime inputs and outputs are each numbered without gaps or repetitions. */
  ghost predicate Dense(operands: seq<Operand>) {
    Permutes(Select(operands, INPUT)) && Permutes(Select(operands, RUNTIME)) && Permutes(Select(operands, OUTPUT))
  }

  /** What an accepted contract is, without reference to how it is checked. */
  ghost predicate Sound(ws: CR.Space, enc: CR.Encoding, template: string, constraints: string, operands: seq<Operand>) {
    var parts := ConstraintParts(constraints);
    && |operands| == |parts| && CR.AllNonblank(ws, parts) && AllDescribed(ws, enc, parts, operands)
    && Dense(operands) && OutputsFirst(operands)
    && Grammatical(template, InRange(Slots(operands)))
  }

  /** The descriptor slots hold exactly `operands`, followed by empty slots. */
  ghost predicate Fills(slots: seq<Option<Operand>>, count: nat, operands: seq<Operand>) {
    && |operands| == count <= |slots|
    && (forall i :: 0 <= i < count ==> slots[i] == Some(operands[i]))
    && (forall i :: count <= i < |slots| ==> slots[i] == None)
  }

  lemma {:induction false} SelectBound(operands: seq<Operand>, pick: Pick)
    ensures |Select(operands, pick)| <= |operands|
  {
    if operands != [] {
      SelectBound(operands[1..], pick);
    }
  }

  /** Compares each descriptor with its part. */
  method DescriptorsValid(ws: CR.Space, enc: CR.Encoding, parts: seq<string>, ranges: seq<(nat, nat)>,
                          operands: seq<Operand>)
    returns (ok: bool)
    requires |ranges| == |parts| == |operands| && CR.Ranged(ws, enc, parts, ranges)
    ensures ok <==> AllDescribed(ws, enc, parts, operands)
  {
    for i := 0 to |parts|
      invariant forall k :: 0 <= k < i ==> Describes(ws, enc, parts, k, operands[k])
    {
      CR.RangedAt(ws, enc, parts, ranges, i);
      var valid := DescriptorValid(ws, enc, parts, i, ranges[i], operands[i]);
      if !valid {
        return false;
      }
    }
    ok := true;
  }

  /** One descriptor; the slice of the constraint text at the range is the trimmed part. */
  method DescriptorValid(ws: CR.Space, enc: CR.Encoding, parts: seq<string>, i: nat, range: (nat, nat), o: Operand)
    returns (ok: bool)
    requires i < |parts| && CR.IsPartRange(ws, enc, parts, i, range)
    ensures ok <==> Describes(ws, enc, parts, i, o)
  {
    var text := CR.Trim(ws, parts[i]);
    ok := FieldsValid(o) && o.start == range.0 && o.length == range.1 && KindAgrees(o.kind, text);
  }

  method OrdinalsDense(operands: seq<Operand>) returns (ok: bool)
    requires |operands| <= MAX_OPERANDS
    ensures ok <==> Dense(operands)
  {
    SelectBound(operands, INPUT);
    SelectBound(operands, RUNTIME);
    SelectBound(operands, OUTPUT);
    ok := DenseOrdinals.DenseCheck(Select(operands, INPUT));
    if ok { ok := DenseOrdinals.DenseCheck(Select(operands, RUNTIME)); }
    if ok { ok := DenseOrdinals.DenseCheck(Select(operands, OUTPUT)); }
  }

  /** The present descriptors of the first `count` slots, if exactly those slots are filled. */
  method Collect(slots: seq<Option<Operand>>, count: nat) returns (operands: Option<seq<Operand>>)
    requires |slots| == MAX_OPERANDS
    ensures operands.Some? ==> Fills(slots, count, operands.value)
    ensures operands.None? ==> forall all :: !Fills(slots, count, all)
  {
    if count > MAX_OPERANDS {
      return None;
    }
    var found: seq<Operand> := [];
    for i := 0 to count
      invariant |found| == i && forall k :: 0 <= k < i ==> slots[k] == Some(found[k])
    {
      if slots[i] == None {
        return None;
      }
      found := found + [slots[i].value];
    }
    for i := count to |slots|
      invariant forall k :: count <= k < i ==> slots[k] == None
    {
      if slots[i].Some? {
        return None;
      }
    }
    operands := Some(found);
  }

  /** `try_new` accepts exactly the sound contracts. */
  method TryNew(ws: CR.Space, enc: CR.Encoding, template: string, constraints: string, slots: seq<Option<Operand>>,
                count: nat)
    returns (accepted: Option<seq<Operand>>)
    requires |slots| == 32 && |enc(',')| == 1
    ensures accepted.Some? ==>
              Fills(slots, count, accepted.value) && Sound(ws, enc, template, constraints, accepted.value)
    ensures accepted.None? ==>
              forall operands :: Fills(slots, count, operands) ==> !Sound(ws, enc, template, constraints, operands)
  {
    var operands := Collect(slots, count);
    if operands == None {
      return None;
    }
    var ok := StructurallyValid(ws, enc, template, constraints, operands.value);
    accepted := if ok then operands else None;
    forall other | Fills(slots, count, other) ensures other == operands.value {
      assert forall i :: 0 <= i < count ==> slots[i] == Some(other[i]) == Some(operands.value[i]);
    }
  }

  method StructurallyValid(ws: CR.Space, enc: CR.Encoding, template: string, constraints: string,
                           operands: seq<Operand>)
    returns (ok: bool)
    requires |operands| <= MAX_OPERANDS && |enc(',')| == 1
    ensures ok <==> Sound(ws, enc, template, constraints, operands)
  {
    var ranges := CR.Split(ws, enc, constraints);
    if ranges == None || |ranges.value| != |operands| {
      return false;
    }
    ok := DescriptorsValid(ws, enc, ConstraintParts(constraints), ranges.value, operands);
    if ok { ok := OrdinalsDense(operands); }
    if ok { ok := OutputsPrecedeInputs(operands); }
    SlotsCounted(operands);
    if ok { ok := TemplateValid(template, LlvmOperandCount(operands)); }
  }

  /**
    * The bytes of the constraint text at the descriptor's range are the trimmed part `i`, and that parses to
    * the descriptor's kind.
    */
  ghost predicate NamesKind(ws: CR.Space, enc: CR.Encoding, constraints: string, i: nat, o: Operand)
    requires i < |CR.Parts(constraints)|
  {
    var text, bytes := CR.Trim(ws, CR.Parts(constraints)[i]), CR.Encode(enc, constraints);
    && TryParse(text).Some? && TryParse(text).value.kind == o.kind
    && o.start + o.length <= |bytes| && bytes[o.start..o.start + o.length] == CR.Encode(enc, text)
  }

  /** In an accepted contract every descriptor's byte range names exactly the trimmed part it was checked against. */
  lemma DescriptorNamesPart(ws: CR.Space, enc: CR.Encoding, template: string, constraints: string,
                            operands: seq<Operand>, i: nat)
    requires Sound(ws, enc, template, constraints, operands) && i < |operands|
    ensures i < |CR.Parts(constraints)| && NamesKind(ws, enc, constraints, i, operands[i])
  {
    assert Describes(ws, enc, ConstraintParts(constraints), i, operands[i]);
    DescribedSlice(ws, enc, constraints, i, operands[i]);
  }

  lemma DescribedSlice(ws: CR.Space, enc: CR.Encoding, constraints: string, i: nat, o: Operand)
    requires i < |CR.Parts(constraints)| && Describes(ws, enc, CR.Parts(constraints), i, o)
    ensures NamesKind(ws, enc, constraints, i, o)
  {
    CR.PartSlice(ws, enc, constraints, i, (o.start, o.length));
  }

  /** For an accepted contract, the value types are valid exactly when they match one to one. */
  lemma AcceptedTypes(ws: CR.Space, enc: CR.Encoding, template: string, constraints: string, operands: seq<Operand>,
                      inputs: seq<TypeId>, outputs: seq<TypeId>)
    requires Sound(ws, enc, template, constraints, operands)
    ensures ValueTypesValid(operands, inputs, outputs) <==>
            InputsMatched(operands, inputs) && OutputsMatched(operands, outputs)
  {
    ValueTypesBijection(operands, inputs, outputs);
  }
}
