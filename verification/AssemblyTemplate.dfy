/**
  * The `$`-template scanner of inline assembly (crates/bray-bound-tree/src/memory.rs,
  * `template_valid`), against a grammar of template pieces. Every element of the text is one byte.
  */
module AssemblyTemplate {
  import opened Options

  const USIZE_MAX: nat := 0xFFFF_FFFF_FFFF_FFFF

  predicate IsDigit(c: char) {
    '0' <= c <= '9'
  }

  ghost predicate AllDigits(s: string) {
    forall i :: 0 <= i < |s| ==> IsDigit(s[i])
  }

  function DigitValue(c: char): nat {
    if IsDigit(c) then (c - '0') as nat else 0
  }

  /** The number a digit string denotes. */
  function Value(digits: string): nat {
    if digits == "" then 0 else 10 * Value(digits[..|digits| - 1]) + DigitValue(digits[|digits| - 1])
  }

  // ------------------------------------------------------------------ the grammar

  /** Which digit strings name an operand. */
  type Ordinals = string -> bool

  datatype Piece = Plain(c: char) | Dollar | Bare(digits: string) | Braced(digits: string)

  function RenderPiece(p: Piece): string {
    match p
    case Plain(c) => [c]
    case Dollar => "$$"
    case Bare(digits) => "$" + digits
    case Braced(digits) => "${" + digits + "}"
  }

  function Render(pieces: seq<Piece>): string {
    if pieces == [] then "" else RenderPiece(pieces[0]) + Render(pieces[1..])
  }

  ghost predicate OrdinalOk(digits: string, inRange: Ordinals) {
    digits != "" && AllDigits(digits) && inRange(digits)
  }

  ghost predicate PieceOk(p: Piece, inRange: Ordinals) {
    match p
    case Plain(c) => c != '$' && c != '\0'
    case Dollar => true
    case Bare(digits) => OrdinalOk(digits, inRange)
    case Braced(digits) => OrdinalOk(digits, inRange)
  }

  /** Digits are read greedily: an unbraced ordinal is never followed by another digit. */
  ghost predicate Follows(p: Piece, rest: seq<Piece>) {
    p.Bare? && rest != [] && rest[0].Plain? ==> !IsDigit(rest[0].c)
  }

  ghost predicate WellFormed(pieces: seq<Piece>, inRange: Ordinals) {
    pieces == [] || (PieceOk(pieces[0], inRange) && Follows(pieces[0], pieces[1..]) && WellFormed(pieces[1..], inRange))
  }

  /** The template is made of ordinary bytes, `$$`, `$n` and `${n}` with every ordinal in range. */
  ghost predicate Grammatical(t: string, inRange: Ordinals) {
    exists pieces :: WellFormed(pieces, inRange) && Render(pieces) == t
  }

  // ------------------------------------------------------------------ scanning a text from its start

  /** The number of leading digits. */
  function DigitRun(t: string): (n: nat)
    ensures n <= |t|
  {
    if t != "" && IsDigit(t[0]) then 1 + DigitRun(t[1..]) else 0
  }

  lemma {:induction false} DigitRunDigits(t: string)
    ensures AllDigits(t[..DigitRun(t)]) && (DigitRun(t) < |t| ==> !IsDigit(t[DigitRun(t)]))
  {
    if t != "" && IsDigit(t[0]) {
      DigitRunDigits(t[1..]);
      assert t[..DigitRun(t)] == [t[0]] + t[1..][..DigitRun(t[1..])];
    }
  }

  lemma {:induction false} DigitRunUnique(digits: string, rest: string)
    requires AllDigits(digits) && (rest != "" ==> !IsDigit(rest[0]))
    ensures DigitRun(digits + rest) == |digits|
  {
    if digits == "" {
      assert digits + rest == rest;
    } else {
      assert (digits + rest)[1..] == digits[1..] + rest;
      DigitRunUnique(digits[1..], rest);
    }
  }

  /** The length of an ordinal, with its closing brace if it was opened with one. */
  function OrdinalLength(t: string, braced: bool, inRange: Ordinals): Option<nat> {
    var n := DigitRun(t);
    if n == 0 || !inRange(t[..n]) then None
    else if !braced then Some(n)
    else if n < |t| && t[n] == '}' then Some(n + 1)
    else None
  }

  /** The length of the piece a nonempty text starts with, if that is a valid one. */
  function PieceLength(t: string, inRange: Ordinals): (n: Option<nat>)
    requires t != ""
    ensures n.Some? ==> 0 < n.value <= |t|
  {
    if t[0] != '$' then if t[0] != '\0' then Some(1) else None
    else if |t| > 1 && t[1] == '$' then Some(2)
    else if |t| > 1 && t[1] == '{' then
      var n := OrdinalLength(t[2..], true, inRange);
      if n == None then None else Some(2 + n.value)
    else
      var n := OrdinalLength(t[1..], false, inRange);
      if n == None then None else Some(1 + n.value)
  }

  ghost predicate Accepts(t: string, inRange: Ordinals)
    decreases |t|
  {
    t == "" || (PieceLength(t, inRange).Some? && Accepts(t[PieceLength(t, inRange).value..], inRange))
  }

  /** No digit may follow an unbraced ordinal. */
  ghost predicate Separated(p: Piece, rest: string) {
    p.Bare? && rest != "" ==> !IsDigit(rest[0])
  }

  lemma OrdinalFound(t: string, braced: bool, inRange: Ordinals) returns (digits: string, rest: string)
    requires OrdinalLength(t, braced, inRange).Some?
    ensures OrdinalOk(digits, inRange)
    ensures braced ==> t == digits + "}" + rest
    ensures !braced ==> t == digits + rest && (rest != "" ==> !IsDigit(rest[0]))
    ensures OrdinalLength(t, braced, inRange).value == |t| - |rest|
  {
    var n := DigitRun(t);
    DigitRunDigits(t);
    digits := t[..n];
    rest := if braced then t[n + 1..] else t[n..];
    assert t == t[..n] + t[n..];
    assert braced ==> t[n..] == "}" + t[n + 1..];
  }

  /** The piece that scanning finds, and the text after it. */
  lemma PieceFound(t: string, inRange: Ordinals) returns (p: Piece, rest: string)
    requires t != "" && PieceLength(t, inRange).Some?
    ensures PieceOk(p, inRange) && Separated(p, rest)
    ensures t == RenderPiece(p) + rest && PieceLength(t, inRange) == Some(|RenderPiece(p)|)
  {
    if t[0] != '$' {
      p, rest := Plain(t[0]), t[1..];
    } else if |t| > 1 && t[1] == '$' {
      p, rest := Dollar, t[2..];
    } else if |t| > 1 && t[1] == '{' {
      var digits, after := OrdinalFound(t[2..], true, inRange);
      p, rest := Braced(digits), after;
      assert t == "${" + t[2..];
      assert "${" + (digits + "}" + after) == "${" + digits + "}" + after;
    } else {
      var digits, after := OrdinalFound(t[1..], false, inRange);
      p, rest := Bare(digits), after;
      assert t == "$" + t[1..];
      assert "$" + (digits + after) == "$" + digits + after;
    }
  }

  lemma BareScanned(digits: string, rest: string, inRange: Ordinals)
    requires OrdinalOk(digits, inRange) && (rest != "" ==> !IsDigit(rest[0]))
    ensures PieceLength("$" + digits + rest, inRange) == Some(1 + |digits|)
  {
    var t := "$" + digits + rest;
    assert t[1..] == digits + rest;
    assert t[0] == '$' && IsDigit(t[1]);
    OrdinalScanned(digits, rest, false, inRange);
  }

  lemma BracedScanned(digits: string, rest: string, inRange: Ordinals)
    requires OrdinalOk(digits, inRange)
    ensures PieceLength("${" + digits + "}" + rest, inRange) == Some(3 + |digits|)
  {
    var t := "${" + digits + "}" + rest;
    assert t[2..] == digits + ("}" + rest);
    assert t[0] == '$' && t[1] == '{';
    OrdinalScanned(digits, "}" + rest, true, inRange);
  }

  /** Scanning finds the end of whatever valid piece a text starts with. */
  lemma PieceScanned(p: Piece, rest: string, inRange: Ordinals)
    requires PieceOk(p, inRange) && Separated(p, rest)
    ensures PieceLength(RenderPiece(p) + rest, inRange) == Some(|RenderPiece(p)|)
  {
    match p
    case Plain(_) =>
    case Dollar =>
    case Bare(digits) => BareScanned(digits, rest, inRange);
    case Braced(digits) => BracedScanned(digits, rest, inRange);
  }

  lemma OrdinalScanned(digits: string, rest: string, braced: bool, inRange: Ordinals)
    requires OrdinalOk(digits, inRange) && (rest != "" ==> !IsDigit(rest[0]))
    requires (braced ==> rest != "" && rest[0] == '}')
    ensures OrdinalLength(digits + rest, braced, inRange) == Some(|digits| + if braced then 1 else 0)
  {
    DigitRunUnique(digits, rest);
    assert (digits + rest)[..|digits|] == digits;
  }

  // ------------------------------------------------------------------ scanning and the grammar

  /** A scan that succeeds yields a well-formed reading of what it scanned ... */
  lemma {:induction false} AcceptsReads(t: string, inRange: Ordinals) returns (pieces: seq<Piece>)
    requires Accepts(t, inRange)
    ensures WellFormed(pieces, inRange) && Render(pieces) == t
    decreases |t|
  {
    pieces := [];
    if t != "" {
      var p, rest := PieceFound(t, inRange);
      assert t[|RenderPiece(p)|..] == rest;
      var more := AcceptsReads(rest, inRange);
      pieces := [p] + more;
      assert pieces[1..] == more;
      assert more != [] ==> Render(more)[0] == RenderPiece(more[0])[0];
    }
  }

  /** ... and succeeds on every well-formed reading. */
  lemma {:induction false} ReadingAccepted(pieces: seq<Piece>, inRange: Ordinals)
    requires WellFormed(pieces, inRange)
    ensures Accepts(Render(pieces), inRange)
    decreases |pieces|
  {
    if pieces != [] {
      var p, rest := pieces[0], Render(pieces[1..]);
      ReadingAccepted(pieces[1..], inRange);
      assert pieces[1..] != [] ==> rest[0] == RenderPiece(pieces[1])[0];
      PieceScanned(p, rest, inRange);
      assert (RenderPiece(p) + rest)[|RenderPiece(p)|..] == rest;
    }
  }

  lemma {:induction false} ReadingNoNul(pieces: seq<Piece>, inRange: Ordinals)
    requires WellFormed(pieces, inRange)
    ensures '\0' !in Render(pieces)
  {
    if pieces != [] {
      ReadingNoNul(pieces[1..], inRange);
      match pieces[0]
      case Plain(_) =>
      case Dollar =>
      case Bare(digits) => assert '\0' !in digits;
      case Braced(digits) => assert '\0' !in digits;
    }
  }

  lemma AcceptsMeansGrammatical(t: string, inRange: Ordinals)
    ensures Accepts(t, inRange) <==> Grammatical(t, inRange)
    ensures Accepts(t, inRange) ==> '\0' !in t
  {
    if Accepts(t, inRange) {
      var pieces := AcceptsReads(t, inRange);
      ReadingNoNul(pieces, inRange);
    }
    if Grammatical(t, inRange) {
      var pieces :| WellFormed(pieces, inRange) && Render(pieces) == t;
      ReadingAccepted(pieces, inRange);
    }
  }

  // ------------------------------------------------------------------ numbers

  /** `parse::<usize>` on a digit string: overflow of either step is an error. */
  function ParseUsize(digits: string): Option<nat> {
    if digits == "" then Some(0)
    else
      var high := ParseUsize(digits[..|digits| - 1]);
      if high == None || 10 * high.value > USIZE_MAX then None
      else
        var value := 10 * high.value + DigitValue(digits[|digits| - 1]);
        if value > USIZE_MAX then None else Some(value)
  }

  /** Overflow rejects exactly the numbers that no operand count can exceed. */
  lemma {:induction false} ParseExact(digits: string)
    ensures ParseUsize(digits) == if Value(digits) <= USIZE_MAX then Some(Value(digits)) else None
  {
    if digits != "" {
      ParseExact(digits[..|digits| - 1]);
    }
  }

  /** The digit strings that denote an ordinal below `count`. */
  function InRange(count: nat): Ordinals {
    digits => Value(digits) < count
  }

  // ------------------------------------------------------------------ the scanner

  /** The part of the scanning loop that follows a `$` or `${`; the result is the position after the ordinal. */
  method ScanOrdinal(t: string, start: nat, braced: bool, count: nat) returns (end: Option<nat>)
    requires start <= |t| && count <= USIZE_MAX
    ensures
      var n := OrdinalLength(t[start..], braced, InRange(count));
      end == if n == None then None else Some(start + n.value)
  {
    var index := start;
    while index < |t| && IsDigit(t[index])
      invariant start <= index <= |t| && DigitRun(t[start..]) == index - start + DigitRun(t[index..])
    {
      assert t[index..][1..] == t[index + 1..];
      index := index + 1;
    }
    ghost var rest := t[start..];
    assert DigitRun(t[index..]) == 0 && DigitRun(rest) == index - start;
    assert rest[..index - start] == t[start..index] && (index < |t| ==> rest[index - start] == t[index]);
    if start == index {
      return None;
    }
    ParseExact(t[start..index]);
    var ordinal := ParseUsize(t[start..index]);
    if ordinal == None || ordinal.value >= count {
      return None;
    }
    if braced {
      if index >= |t| || t[index] != '}' {
        return None;
      }
      index := index + 1;
    }
    end := Some(index);
  }

  /** One turn of the scanning loop; the result is the position after the piece at `index`. */
  method ScanPiece(t: string, index: nat, count: nat) returns (end: Option<nat>)
    requires index < |t| && t[index] != '\0' && count <= USIZE_MAX
    ensures
      var n := PieceLength(t[index..], InRange(count));
      end == if n == None then None else Some(index + n.value)
  {
    if t[index] != '$' {
      return Some(index + 1);
    }
    if index + 1 < |t| && t[index + 1] == '$' {
      return Some(index + 2);
    }
    var braced := index + 1 < |t| && t[index + 1] == '{';
    var start := index + 1 + if braced then 1 else 0;
    assert t[index..][start - index..] == t[start..];
    end := ScanOrdinal(t, start, braced, count);
  }

  /** What the result of one turn says about the rest of the text. */
  lemma ScannedPiece(t: string, index: nat, count: nat, end: Option<nat>)
    requires index < |t|
    requires
      var n := PieceLength(t[index..], InRange(count));
      end == if n == None then None else Some(index + n.value)
    ensures end == None ==> !Accepts(t[index..], InRange(count))
    ensures end.Some? ==> index < end.value <= |t|
    ensures end.Some? ==> (Accepts(t[index..], InRange(count)) <==> Accepts(t[end.value..], InRange(count)))
  {
    AcceptsFrom(t, index, InRange(count));
  }

  lemma AcceptsFrom(t: string, index: nat, inRange: Ordinals)
    requires index < |t|
    ensures
      var n := PieceLength(t[index..], inRange);
      Accepts(t[index..], inRange) <==> n.Some? && Accepts(t[index + n.value..], inRange)
  {
    var n := PieceLength(t[index..], inRange);
    if n.Some? {
      assert t[index..][n.value..] == t[index + n.value..];
    }
  }

  method TemplateValid(t: string, count: nat) returns (ok: bool)
    requires count <= USIZE_MAX
    ensures ok <==> Grammatical(t, InRange(count))
  {
    AcceptsMeansGrammatical(t, InRange(count));
    if '\0' in t {
      return false;
    }
    ok := ScanTemplate(t, count);
  }

  /** The scanning loop. */
  method ScanTemplate(t: string, count: nat) returns (ok: bool)
    requires count <= USIZE_MAX && '\0' !in t
    ensures ok <==> Accepts(t, InRange(count))
  {
    var index := 0;
    ok := true;
    assert t[0..] == t;
    ghost var verdict := Accepts(t, InRange(count));
    while ok && index < |t|
      invariant index <= |t|
      invariant if ok then verdict <==> Accepts(t[index..], InRange(count)) else !verdict
      decreases |t| - index, ok
    {
      assert t[index] in t;
      var end := ScanPiece(t, index, count);
      ScannedPiece(t, index, count, end);
      ok := end.Some?;
      if ok {
        index := end.value;
      }
    }
    assert ok ==> t[index..] == "";
  }
}
