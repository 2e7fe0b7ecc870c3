/** Which number an ordinal in an inline-assembly template denotes (crates/bray-bound-tree/src/memory.rs). */
module DecimalOrdinals {
  import opened AssemblyTemplate
  import opened Options

  /** The ten digits in order. */
  function DigitOf(d: nat): char
    requires d < 10
  {
    match d
    case 0 => '0'
    case 1 => '1'
    case 2 => '2'
    case 3 => '3'
    case 4 => '4'
    case 5 => '5'
    case 6 => '6'
    case 7 => '7'
    case 8 => '8'
    case 9 => '9'
  }

  /** The decimal text of a number, by division. */
  function Decimal(n: nat): (s: string)
    ensures s != ""
  {
    if n < 10 then [DigitOf(n)] else Decimal(n / 10) + [DigitOf(n % 10)]
  }

  lemma DigitDenotes(d: nat)
    requires d < 10
    ensures IsDigit(DigitOf(d)) && DigitValue(DigitOf(d)) == d
  {
  }

  /** The digits are these ten characters and no others. */
  lemma DigitCharacters(c: char)
    ensures IsDigit(c) <==> exists d: nat :: d < 10 && DigitOf(d) == c
  {
    if IsDigit(c) {
      assert DigitOf(DigitValue(c)) == c;
    }
    if d: nat :| d < 10 && DigitOf(d) == c {
      DigitDenotes(d);
    }
  }

  ghost predicate AllZeros(s: string) {
    forall i :: 0 <= i < |s| ==> s[i] == '0'
  }

  lemma {:induction false} ZerosValue(zeros: string)
    requires AllZeros(zeros)
    ensures Value(zeros) == 0 && AllDigits(zeros)
  {
    if zeros != "" {
      ZerosValue(zeros[..|zeros| - 1]);
    }
  }

  /** One more digit. */
  lemma ValueAppend(s: string, d: nat)
    requires d < 10 && AllDigits(s)
    ensures Value(s + [DigitOf(d)]) == 10 * Value(s) + d && AllDigits(s + [DigitOf(d)])
  {
    DigitDenotes(d);
    assert (s + [DigitOf(d)])[..|s|] == s;
  }

  lemma Associate(a: string, b: string, c: string)
    ensures a + (b + c) == (a + b) + c
  {
  }

  /** Digits denote the number whose decimal text they are, leading zeros included. */
  lemma {:induction false} DecimalValue(zeros: string, n: nat)
    requires AllZeros(zeros)
    ensures Value(zeros + Decimal(n)) == n && AllDigits(zeros + Decimal(n))
    decreases n
  {
    if n < 10 {
      ZerosValue(zeros);
      ValueAppend(zeros, n);
    } else {
      DecimalValue(zeros, n / 10);
      ValueAppend(zeros + Decimal(n / 10), n % 10);
      Associate(zeros, Decimal(n / 10), [DigitOf(n % 10)]);
    }
  }

  /** One ordinal on its own, bare or in braces. */
  function OrdinalText(digits: string, braced: bool): string {
    if braced then "${" + digits + "}" else "$" + digits
  }

  /** Whether a template of one ordinal scans depends on the ordinal only. */
  lemma OrdinalAccepted(digits: string, braced: bool, inRange: Ordinals)
    requires digits != "" && AllDigits(digits)
    ensures Accepts(OrdinalText(digits, braced), inRange) <==> inRange(digits)
  {
    var t := OrdinalText(digits, braced);
    if inRange(digits) {
      PieceScanned(if braced then Braced(digits) else Bare(digits), "", inRange);
      assert RenderPiece(if braced then Braced(digits) else Bare(digits)) + "" == t;
      assert t[|t|..] == "";
    } else if braced {
      assert t[0] == '$' && t[1] == '{' && t[2..] == digits + "}";
      OrdinalRefused(digits, "}", braced, inRange);
    } else {
      assert t[0] == '$' && t[1] == digits[0] && t[1..] == digits + "";
      OrdinalRefused(digits, "", braced, inRange);
    }
  }

  lemma OrdinalRefused(digits: string, rest: string, braced: bool, inRange: Ordinals)
    requires digits != "" && AllDigits(digits) && (rest != "" ==> !IsDigit(rest[0])) && !inRange(digits)
    ensures OrdinalLength(digits + rest, braced, inRange) == None
  {
    DigitRunUnique(digits, rest);
    assert (digits + rest)[..|digits|] == digits;
  }

  /** A template that names operand `n` in decimal, leading zeros included, is valid exactly above `n` operands. */
  lemma OrdinalBelowCount(zeros: string, n: nat, braced: bool, count: nat)
    requires AllZeros(zeros)
    ensures Grammatical(OrdinalText(zeros + Decimal(n), braced), InRange(count)) <==> n < count
  {
    var digits := zeros + Decimal(n);
    DecimalValue(zeros, n);
    OrdinalAccepted(digits, braced, InRange(count));
    AcceptsMeansGrammatical(OrdinalText(digits, braced), InRange(count));
  }

  /** Machine arithmetic reads the same number unless it does not fit a word. */
  lemma DecimalParsed(zeros: string, n: nat)
    requires AllZeros(zeros)
    ensures ParseUsize(zeros + Decimal(n)) == if n < 0x1_0000_0000_0000_0000 then Some(n) else None
  {
    DecimalValue(zeros, n);
    ParseExact(zeros + Decimal(n));
  }
}
