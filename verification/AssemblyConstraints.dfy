/**
  * Constraint spellings of inline assembly (crates/bray-bound-tree/src/memory.rs, `try_parse`) and the
  * rendering that inverts them.
  */
module AssemblyConstraints {
  import opened Options

  datatype OperandKind = Input | LateOutput | Output | InOut | EarlyInOut | Immediate | Symbol | Memory | Label

  datatype Constraint = Constraint(kind: OperandKind, class_: string, explicit: bool)

  // ------------------------------------------------------------------ parsing one constraint

  predicate Marked(s: string, mark: char) {
    |s| >= 1 && s[0] == mark
  }

  predicate MarkedEarly(s: string, mark: char) {
    |s| >= 2 && s[0] == mark && s[1] == '&'
  }

  /** The role a spelling announces, and the class it leaves to be checked. */
  function Classify(text: string): (OperandKind, string) {
    if text == "label" then (Label, text)
    else if MarkedEarly(text, '+') then (EarlyInOut, text[2..])
    else if Marked(text, '+') then (InOut, text[1..])
    else if MarkedEarly(text, '=') then (Output, text[2..])
    else if Marked(text, '=') then (LateOutput, text[1..])
    else if text == "i" then (Immediate, text)
    else if text == "s" then (Symbol, text)
    else if text == "m" then (Memory, text)
    else (Input, text)
  }

  predicate Register(kind: OperandKind) {
    kind in {Input, Output, LateOutput, InOut, EarlyInOut}
  }

  function StripBraces(s: string): Option<string> {
    if |s| >= 2 && s[0] == '{' && s[|s| - 1] == '}' then Some(s[1..|s| - 1]) else None
  }

  function TryParse(text: string): Option<Constraint> {
    var (kind, spelled) := Classify(text);
    ParseClass(kind, spelled)
  }

  /** The class of a classified constraint. */
  function ParseClass(kind: OperandKind, spelled: string): Option<Constraint> {
    if kind == Label then Some(Constraint(kind, spelled, false))
    else if spelled == "" || spelled[0] in "=+&*%" || '\0' in spelled then None
    else
      var explicit := spelled[0] == '{' || spelled[|spelled| - 1] == '}';
      var inner := if explicit then StripBraces(spelled) else Some(spelled);
      if inner == None || inner.value == "" || '{' in inner.value || '}' in inner.value then None
      else if Register(kind) && !explicit && inner.value in {"m", "i", "s", "label"} then None
      else Some(Constraint(kind, inner.value, explicit))
  }

  function Prefix(kind: OperandKind): string {
    match kind
    case EarlyInOut => "+&"
    case InOut => "+"
    case Output => "=&"
    case LateOutput => "="
    case _ => ""
  }

  function Spelled(c: Constraint): string {
    if c.explicit then "{" + c.class_ + "}" else c.class_
  }

  /** The one spelling of a constraint. */
  function Render(c: Constraint): string {
    Prefix(c.kind) + Spelled(c)
  }

  /** The constraints that exist: reserved classes for their own kinds, register classes for the others. */
  ghost predicate WellFormed(c: Constraint) {
    match c.kind
    case Label => c.class_ == "label" && !c.explicit
    case Immediate => c.class_ == "i" && !c.explicit
    case Symbol => c.class_ == "s" && !c.explicit
    case Memory => c.class_ == "m" && !c.explicit
    case _ =>
      && c.class_ != "" && '{' !in c.class_ && '}' !in c.class_ && '\0' !in c.class_
      && (!c.explicit ==> c.class_[0] !in "=+&*%" && c.class_ !in {"m", "i", "s", "label"})
  }

  lemma ClassifySpells(text: string)
    ensures
      var (kind, spelled) := Classify(text);
      text == Prefix(kind) + spelled
  {
    var (kind, spelled) := Classify(text);
    if kind in {EarlyInOut, Output} {
      assert text == [text[0], text[1]] + text[2..];
    } else if kind in {InOut, LateOutput} {
      assert text == [text[0]] + text[1..];
    }
  }

  lemma ParsedSpelling(text: string)
    requires TryParse(text).Some?
    ensures
      var (kind, spelled) := Classify(text);
      TryParse(text).value.kind == kind && Spelled(TryParse(text).value) == spelled
  {
    var (kind, spelled) := Classify(text);
    if kind != Label && TryParse(text).value.explicit {
      assert spelled == "{" + spelled[1..|spelled| - 1] + "}";
    }
  }

  /** What is accepted is well formed and spells back to exactly the accepted text. */
  lemma ParseRenders(text: string)
    requires TryParse(text).Some?
    ensures WellFormed(TryParse(text).value) && Render(TryParse(text).value) == text
  {
    ClassifySpells(text);
    ParsedSpelling(text);
  }

  /** Every well-formed constraint parses back to itself, so no text has two roles. */
  lemma RenderParses(c: Constraint)
    requires WellFormed(c)
    ensures TryParse(Render(c)) == Some(c)
  {
    if Register(c.kind) {
      RenderClassifies(c);
      if c.explicit {
        ExplicitParses(c.kind, c.class_);
      } else {
        PlainParses(c.kind, c.class_);
      }
    } else {
      ReservedClassifies(c);
      ReservedParses(c);
    }
  }

  /** A register name in braces. */
  lemma ExplicitParses(kind: OperandKind, name: string)
    requires Register(kind) && name != "" && '{' !in name && '}' !in name && '\0' !in name
    ensures ParseClass(kind, "{" + name + "}") == Some(Constraint(kind, name, true))
  {
    var spelled := "{" + name + "}";
    assert spelled[0] == '{' && spelled[|spelled| - 1] == '}' && spelled[1..|spelled| - 1] == name;
    assert StripBraces(spelled) == Some(name);
    assert '\0' !in spelled && '{' !in "=+&*%";
  }

  /** A register class. */
  lemma PlainParses(kind: OperandKind, class_: string)
    requires Register(kind) && class_ != "" && '{' !in class_ && '}' !in class_ && '\0' !in class_
    requires class_[0] !in "=+&*%" && class_ !in {"m", "i", "s", "label"}
    ensures ParseClass(kind, class_) == Some(Constraint(kind, class_, false))
  {
    assert class_[0] in class_ && class_[|class_| - 1] in class_;
  }

  lemma ReservedClassifies(c: Constraint)
    requires WellFormed(c) && !Register(c.kind)
    ensures Classify(Render(c)) == (c.kind, c.class_)
  {
    assert Render(c) == c.class_;
    assert "label"[0] == 'l' && "i"[0] == 'i' && "s"[0] == 's' && "m"[0] == 'm';
    assert |"label"| == 5 && |"i"| == |"s"| == |"m"| == 1;
  }

  lemma ReservedParses(c: Constraint)
    requires WellFormed(c) && !Register(c.kind)
    ensures ParseClass(c.kind, c.class_) == Some(c)
  {
    if c.kind != Label {
      assert |c.class_| == 1 && c.class_[0] in "ism";
      assert c.class_[0] !in "=+&*%";
    }
  }

  lemma RenderClassifies(c: Constraint)
    requires WellFormed(c) && Register(c.kind)
    ensures Classify(Render(c)) == (c.kind, Spelled(c))
  {
    var spelled := Spelled(c);
    SpelledStart(c);
    match c.kind
    case EarlyInOut => EarlyClassifies('+', EarlyInOut, spelled);
    case Output => EarlyClassifies('=', Output, spelled);
    case InOut => LateClassifies('+', InOut, spelled);
    case LateOutput => LateClassifies('=', LateOutput, spelled);
    case Input =>
      assert Render(c) == spelled;
      InputClassifies(spelled);
  }

  /** A spelled register starts with no mark and is no reserved text. */
  lemma SpelledStart(c: Constraint)
    requires WellFormed(c) && Register(c.kind)
    ensures Spelled(c) != "" && Spelled(c)[0] !in "=+&*%" && Spelled(c) !in {"m", "i", "s", "label"}
  {
    if c.explicit {
      assert Spelled(c)[0] == '{' && "label"[0] == 'l' && "i"[0] == 'i' && "s"[0] == 's' && "m"[0] == 'm';
    }
  }

  lemma EarlyClassifies(mark: char, kind: OperandKind, spelled: string)
    requires (mark == '+' && kind == EarlyInOut) || (mark == '=' && kind == Output)
    ensures Classify([mark, '&'] + spelled) == (kind, spelled)
  {
    var text := [mark, '&'] + spelled;
    assert text[0] == mark && text[1] == '&' && text[2..] == spelled && "label"[0] == 'l';
  }

  lemma LateClassifies(mark: char, kind: OperandKind, spelled: string)
    requires (mark == '+' && kind == InOut) || (mark == '=' && kind == LateOutput)
    requires spelled != "" && spelled[0] !in "=+&*%"
    ensures Classify([mark] + spelled) == (kind, spelled)
  {
    var text := [mark] + spelled;
    assert text[0] == mark && text[1] == spelled[0] && text[1..] == spelled && "label"[0] == 'l';
  }

  lemma InputClassifies(spelled: string)
    requires spelled != "" && spelled[0] !in "=+&*%" && spelled !in {"m", "i", "s", "label"}
    ensures Classify(spelled) == (Input, spelled)
  {
  }
}
