/**
  * Splitting a constraint list into trimmed byte ranges (crates/bray-bound-tree/src/memory.rs,
  * `constraint_ranges`). Texts are character sequences with an encoding into bytes; which characters
  * are white space, and how characters are encoded, is left open but for the one-byte comma.
  */
module ConstraintRanges {
  import opened Options

  type Byte(==, !new)
  type Encoding = char -> seq<Byte>

  function Encode(enc: Encoding, s: string): seq<Byte> {
    if s == [] then [] else enc(s[0]) + Encode(enc, s[1..])
  }

  lemma {:induction false} EncodeAppend(enc: Encoding, s: string, t: string)
    ensures Encode(enc, s + t) == Encode(enc, s) + Encode(enc, t)
  {
    if s == [] {
      assert s + t == t;
    } else {
      assert (s + t)[1..] == s[1..] + t;
      EncodeAppend(enc, s[1..], t);
    }
  }

  /** The number of bytes of a text. */
  function Length(enc: Encoding, s: string): nat {
    if s == [] then 0 else |enc(s[0])| + Length(enc, s[1..])
  }

  lemma {:induction false} LengthEncoded(enc: Encoding, s: string)
    ensures Length(enc, s) == |Encode(enc, s)|
  {
    if s != [] {
      LengthEncoded(enc, s[1..]);
    }
  }

  lemma {:induction false} LengthAppend(enc: Encoding, s: string, t: string)
    ensures Length(enc, s + t) == Length(enc, s) + Length(enc, t)
  {
    if s == [] {
      assert s + t == t;
    } else {
      assert (s + t)[1..] == s[1..] + t;
      LengthAppend(enc, s[1..], t);
    }
  }

  // ------------------------------------------------------------------ comma-separated parts

  function Parts(s: string): (parts: seq<string>)
    ensures parts != []
  {
    if s == "" then [""]
    else
      var rest := Parts(s[1..]);
      if s[0] == ',' then [""] + rest else [[s[0]] + rest[0]] + rest[1..]
  }

  ghost function Join(parts: seq<string>): string
    requires parts != []
  {
    if |parts| == 1 then parts[0] else parts[0] + "," + Join(parts[1..])
  }

  ghost predicate CommaFree(parts: seq<string>) {
    forall i :: 0 <= i < |parts| ==> ',' !in parts[i]
  }

  /** The parts are the comma-free texts that joined by commas give the list back ... */
  lemma {:induction false} PartsJoin(s: string)
    ensures Join(Parts(s)) == s && CommaFree(Parts(s))
  {
    if s != "" {
      PartsJoin(s[1..]);
      var rest := Parts(s[1..]);
      if s[0] == ',' {
        assert ([""] + rest)[1..] == rest;
      } else {
        var parts := [[s[0]] + rest[0]] + rest[1..];
        if |rest| > 1 {
          assert parts[1..] == rest[1..];
          assert [s[0]] + rest[0] + "," + Join(rest[1..]) == [s[0]] + (rest[0] + "," + Join(rest[1..]));
        }
      }
    }
  }

  /** ... and the only such texts. */
  lemma {:induction false} PartsUnique(parts: seq<string>)
    requires parts != [] && CommaFree(parts)
    ensures Parts(Join(parts)) == parts
    decreases |Join(parts)|, |parts|
  {
    var s := Join(parts);
    if |parts| == 1 && parts[0] == "" {
    } else if parts[0] == "" {
      assert s == "," + Join(parts[1..]);
      assert s[1..] == Join(parts[1..]);
      PartsUnique(parts[1..]);
      assert parts == [""] + parts[1..];
    } else {
      var shorter := [parts[0][1..]] + parts[1..];
      assert shorter[1..] == parts[1..];
      assert s == [parts[0][0]] + Join(shorter) by {
        if |parts| > 1 {
          assert parts[0] + "," + Join(parts[1..]) == [parts[0][0]] + (parts[0][1..] + "," + Join(parts[1..]));
        } else {
          assert parts[0] == [parts[0][0]] + parts[0][1..];
        }
      }
      assert s[1..] == Join(shorter) && s[0] == parts[0][0];
      assert parts[0][0] in parts[0];
      PartsUnique(shorter);
      assert parts[0] == [s[0]] + shorter[0];
    }
  }

  // ------------------------------------------------------------------ trimming

  type Space = char -> bool

  function TrimStart(ws: Space, s: string): string {
    if s != "" && ws(s[0]) then TrimStart(ws, s[1..]) else s
  }

  function TrimEnd(ws: Space, s: string): string {
    if s != "" && ws(s[|s| - 1]) then TrimEnd(ws, s[..|s| - 1]) else s
  }

  function Trim(ws: Space, s: string): string {
    TrimEnd(ws, TrimStart(ws, s))
  }

  ghost predicate Blank(ws: Space, s: string) {
    forall i :: 0 <= i < |s| ==> ws(s[i])
  }

  lemma Associate(a: string, b: string, c: string)
    ensures a + (b + c) == (a + b) + c
  {
  }

  lemma {:induction false} TrimStartSplits(ws: Space, s: string) returns (lead: string)
    ensures s == lead + TrimStart(ws, s) && Blank(ws, lead)
    ensures TrimStart(ws, s) != "" ==> !ws(TrimStart(ws, s)[0])
  {
    if s != "" && ws(s[0]) {
      var core := TrimStart(ws, s[1..]);
      var rest := TrimStartSplits(ws, s[1..]);
      lead := [s[0]] + rest;
      assert s == [s[0]] + s[1..];
      Associate([s[0]], rest, core);
    } else {
      lead := "";
    }
  }

  lemma {:induction false} TrimEndSplits(ws: Space, s: string) returns (tail: string)
    ensures s == TrimEnd(ws, s) + tail && Blank(ws, tail)
    ensures TrimEnd(ws, s) != "" ==> !ws(TrimEnd(ws, s)[|TrimEnd(ws, s)| - 1])
  {
    if s != "" && ws(s[|s| - 1]) {
      var core := TrimEnd(ws, s[..|s| - 1]);
      var rest := TrimEndSplits(ws, s[..|s| - 1]);
      tail := rest + [s[|s| - 1]];
      assert s == s[..|s| - 1] + [s[|s| - 1]];
      Associate(core, rest, [s[|s| - 1]]);
    } else {
      tail := "";
    }
  }

  /** A part trims to nothing exactly when it is blank. */
  lemma TrimBlank(ws: Space, s: string)
    ensures Trim(ws, s) == "" <==> Blank(ws, s)
  {
    var lead := TrimStartSplits(ws, s);
    var core := TrimStart(ws, s);
    var tail := TrimEndSplits(ws, core);
    if core != "" {
      assert s[|lead|] == core[0];
      assert Trim(ws, s) == "" ==> core == tail;
    }
  }

  /** Trimming takes away white space at both ends, as much as there is, and nothing else. */
  lemma TrimExact(ws: Space, s: string) returns (lead: string, tail: string)
    ensures s == lead + Trim(ws, s) + tail && Blank(ws, lead) && Blank(ws, tail)
    ensures Trim(ws, s) != "" ==> !ws(Trim(ws, s)[0]) && !ws(Trim(ws, s)[|Trim(ws, s)| - 1])
  {
    lead := TrimStartSplits(ws, s);
    tail := TrimEndSplits(ws, TrimStart(ws, s));
    Associate(lead, Trim(ws, s), tail);
    assert Trim(ws, s) != "" ==> TrimStart(ws, s)[0] == Trim(ws, s)[0];
  }

  // ------------------------------------------------------------------ ranges

  /** The text before part `i`, commas included. */
  ghost function Lead(parts: seq<string>, i: nat): string
    requires i <= |parts|
  {
    if i == 0 then "" else Lead(parts, i - 1) + parts[i - 1] + ","
  }

  lemma {:induction false} JoinSplits(parts: seq<string>, i: nat)
    requires i < |parts|
    ensures Join(parts) == Lead(parts, i) + Join(parts[i..])
  {
    if i == 0 {
      assert parts[0..] == parts;
    } else {
      JoinSplits(parts, i - 1);
      assert parts[i - 1..][1..] == parts[i..];
      var rest := Join(parts[i..]);
      assert Join(parts[i - 1..]) == parts[i - 1] + "," + rest;
      Associate(Lead(parts, i - 1), parts[i - 1] + ",", rest);
      Associate(Lead(parts, i - 1), parts[i - 1], ",");
    }
  }

  /** `value` holds `text` at the byte range `range`. */
  ghost predicate NamesText(enc: Encoding, value: string, range: (nat, nat), text: string) {
    exists before: string, after: string ::
      value == before + text + after && range == (Length(enc, before), Length(enc, text))
  }

  /** Then slicing the encoded value at the range is in bounds and gives exactly the encoded text. */
  lemma NamedSlice(enc: Encoding, value: string, range: (nat, nat), text: string)
    requires NamesText(enc, value, range, text)
    ensures range.0 + range.1 <= |Encode(enc, value)|
    ensures Encode(enc, value)[range.0..range.0 + range.1] == Encode(enc, text)
  {
    var before, after :| value == before + text + after && range == (Length(enc, before), Length(enc, text));
    EncodeAppend(enc, before + text, after);
    EncodeAppend(enc, before, text);
    LengthEncoded(enc, before);
    LengthEncoded(enc, text);
  }

  lemma JoinAround(parts: seq<string>, i: nat) returns (after: string)
    requires i < |parts|
    ensures Join(parts) == Lead(parts, i) + parts[i] + after
  {
    JoinSplits(parts, i);
    assert parts[i..][1..] == parts[i + 1..];
    after := if i + 1 < |parts| then "," + Join(parts[i + 1..]) else "";
    assert Join(parts[i..]) == parts[i] + after;
    assert Lead(parts, i) + (parts[i] + after) == Lead(parts, i) + parts[i] + after;
  }

  /** The white space skipped at the start of a part, in bytes. */
  function Skipped(ws: Space, enc: Encoding, part: string): int {
    Length(enc, part) - Length(enc, TrimStart(ws, part))
  }

  /** `range` starts after the white space skipped in part `i` and is as long as the trimmed part. */
  ghost predicate IsPartRange(ws: Space, enc: Encoding, parts: seq<string>, i: nat, range: (nat, nat))
    requires i < |parts|
  {
    range.0 == Length(enc, Lead(parts, i)) + Skipped(ws, enc, parts[i]) && range.1 == Length(enc, Trim(ws, parts[i]))
  }

  lemma Reassociate(a: string, b: string, c: string, d: string, e: string)
    ensures a + (b + (c + d)) + e == (a + b) + c + (d + e)
  {
  }

  lemma TrimmedAround(ws: Space, parts: seq<string>, i: nat) returns (lead: string, tail: string, after: string)
    requires i < |parts|
    ensures parts[i] == lead + TrimStart(ws, parts[i]) && TrimStart(ws, parts[i]) == Trim(ws, parts[i]) + tail
    ensures Join(parts) == (Lead(parts, i) + lead) + Trim(ws, parts[i]) + (tail + after)
  {
    lead := TrimStartSplits(ws, parts[i]);
    tail := TrimEndSplits(ws, TrimStart(ws, parts[i]));
    after := JoinAround(parts, i);
    Reassociate(Lead(parts, i), lead, Trim(ws, parts[i]), tail, after);
  }

  lemma TrimmedWithin(ws: Space, enc: Encoding, part: string)
    ensures 0 <= Skipped(ws, enc, part) && Skipped(ws, enc, part) + Length(enc, Trim(ws, part)) <= Length(enc, part)
  {
    var lead := TrimStartSplits(ws, part);
    var tail := TrimEndSplits(ws, TrimStart(ws, part));
    LengthAppend(enc, lead, TrimStart(ws, part));
    LengthAppend(enc, Trim(ws, part), tail);
  }

  /** The range of part `i` names exactly the trimmed part. */
  lemma RangeNamesPart(ws: Space, enc: Encoding, parts: seq<string>, i: nat, range: (nat, nat))
    requires i < |parts| && IsPartRange(ws, enc, parts, i, range)
    ensures NamesText(enc, Join(parts), range, Trim(ws, parts[i]))
  {
    var lead, tail, after := TrimmedAround(ws, parts, i);
    LengthAppend(enc, lead, TrimStart(ws, parts[i]));
    LengthAppend(enc, Lead(parts, i), lead);
    TextNamed(enc, Lead(parts, i) + lead, Trim(ws, parts[i]), tail + after, range);
  }

  lemma TextNamed(enc: Encoding, before: string, text: string, after: string, range: (nat, nat))
    requires range.0 == Length(enc, before) && range.1 == Length(enc, text)
    ensures NamesText(enc, before + text + after, range, text)
  {
  }

  /** So the range of part `i` cuts the trimmed part out of the encoded text. */
  lemma PartSlice(ws: Space, enc: Encoding, value: string, i: nat, range: (nat, nat))
    requires i < |Parts(value)| && IsPartRange(ws, enc, Parts(value), i, range)
    ensures range.0 + range.1 <= |Encode(enc, value)|
    ensures Encode(enc, value)[range.0..range.0 + range.1] == Encode(enc, Trim(ws, Parts(value)[i]))
  {
    PartsJoin(value);
    RangeNamesPart(ws, enc, Parts(value), i, range);
    NamedSlice(enc, value, range, Trim(ws, Parts(value)[i]));
  }

  lemma LeadStep(enc: Encoding, parts: seq<string>, i: nat)
    requires i < |parts| && |enc(',')| == 1
    ensures Length(enc, Lead(parts, i + 1)) == Length(enc, Lead(parts, i)) + Length(enc, parts[i]) + 1
  {
    LengthAppend(enc, Lead(parts, i) + parts[i], ",");
    LengthAppend(enc, Lead(parts, i), parts[i]);
    assert Length(enc, ",") == |enc(',')| + Length(enc, "");
  }

  lemma LeadEnd(enc: Encoding, parts: seq<string>)
    requires parts != [] && |enc(',')| == 1
    ensures Length(enc, Lead(parts, |parts|)) == Length(enc, Join(parts)) + 1
  {
    var n := |parts| - 1;
    JoinSplits(parts, n);
    assert parts[n..] == [parts[n]];
    LengthAppend(enc, Lead(parts, n), parts[n]);
    LeadStep(enc, parts, n);
  }

  ghost predicate AllNonblank(ws: Space, parts: seq<string>) {
    forall i :: 0 <= i < |parts| ==> !Blank(ws, parts[i])
  }

  /** The ranges are those of the first parts. */
  ghost predicate Ranged(ws: Space, enc: Encoding, parts: seq<string>, ranges: seq<(nat, nat)>)
    decreases |ranges|
  {
    ranges == [] ||
    var i := |ranges| - 1;
    i < |parts| && IsPartRange(ws, enc, parts, i, ranges[i]) && Ranged(ws, enc, parts, ranges[..i])
  }

  lemma {:induction false} RangedAt(ws: Space, enc: Encoding, parts: seq<string>, ranges: seq<(nat, nat)>, i: nat)
    requires Ranged(ws, enc, parts, ranges) && i < |ranges|
    ensures i < |parts| && IsPartRange(ws, enc, parts, i, ranges[i])
    decreases |ranges|
  {
    if i < |ranges| - 1 {
      RangedAt(ws, enc, parts, ranges[..|ranges| - 1], i);
    }
  }

  /** The ranges come in order, without touching each other or `limit`. */
  ghost predicate Ordered(ranges: seq<(nat, nat)>, limit: nat) {
    && (forall i :: 0 <= i < |ranges| ==> ranges[i].0 + ranges[i].1 < limit)
    && (forall i, j :: 0 <= i < j < |ranges| ==> ranges[i].0 + ranges[i].1 < ranges[j].0)
  }

  lemma OrderedStep(ranges: seq<(nat, nat)>, limit: nat, range: (nat, nat), limit': nat)
    requires Ordered(ranges, limit) && limit <= range.0 && range.0 + range.1 < limit'
    ensures Ordered(ranges + [range], limit')
  {
  }

  /** The ranges found so far, and the byte offset of the part that comes next. */
  ghost predicate Progress(ws: Space, enc: Encoding, parts: seq<string>, found: seq<(nat, nat)>, offset: nat)
    requires parts != []
  {
    && |found| <= |parts| && offset == Length(enc, Lead(parts, |found|))
    && Ranged(ws, enc, parts, found) && Ordered(found, offset)
  }

  lemma ProgressStep(ws: Space, enc: Encoding, parts: seq<string>, found: seq<(nat, nat)>, offset: nat,
                     range: (nat, nat))
    requires |found| < |parts| && |enc(',')| == 1 && Progress(ws, enc, parts, found, offset)
    requires IsPartRange(ws, enc, parts, |found|, range)
    ensures Progress(ws, enc, parts, found + [range], offset + Length(enc, parts[|found|]) + 1)
  {
    TrimmedWithin(ws, enc, parts[|found|]);
    assert (found + [range])[..|found|] == found;
    LeadStep(enc, parts, |found|);
    OrderedStep(found, offset, range, offset + Length(enc, parts[|found|]) + 1);
  }

  /** The loop over the parts. */
  method RangesOf(ws: Space, enc: Encoding, parts: seq<string>) returns (ranges: Option<seq<(nat, nat)>>)
    requires parts != [] && |enc(',')| == 1
    ensures ranges.Some? <==> AllNonblank(ws, parts)
    ensures ranges.Some? ==> |ranges.value| == |parts| && Ranged(ws, enc, parts, ranges.value)
    ensures ranges.Some? ==> Ordered(ranges.value, Length(enc, Join(parts)) + 1)
  {
    var found: seq<(nat, nat)>, offset: nat := [], 0;
    for i := 0 to |parts|
      invariant |found| == i && Progress(ws, enc, parts, found, offset)
      invariant forall k :: 0 <= k < i ==> !Blank(ws, parts[k])
    {
      var range := NextRange(ws, enc, parts, found, offset);
      if range == None {
        return None;
      }
      found := found + [range.value];
      offset := offset + Length(enc, parts[i]) + 1;
    }
    ProgressDone(ws, enc, parts, found, offset);
    ranges := Some(found);
  }

  /** One turn of the loop. */
  method NextRange(ws: Space, enc: Encoding, parts: seq<string>, found: seq<(nat, nat)>, offset: nat)
    returns (range: Option<(nat, nat)>)
    requires |found| < |parts| && |enc(',')| == 1 && Progress(ws, enc, parts, found, offset)
    ensures range == None <==> Blank(ws, parts[|found|])
    ensures range.Some? ==>
              Progress(ws, enc, parts, found + [range.value], offset + Length(enc, parts[|found|]) + 1)
  {
    range := RangeAt(ws, enc, parts[|found|], offset);
    if range.Some? {
      ProgressStep(ws, enc, parts, found, offset, range.value);
    }
  }

  lemma ProgressDone(ws: Space, enc: Encoding, parts: seq<string>, found: seq<(nat, nat)>, offset: nat)
    requires parts != [] && |found| == |parts| && |enc(',')| == 1 && Progress(ws, enc, parts, found, offset)
    ensures Ranged(ws, enc, parts, found) && Ordered(found, Length(enc, Join(parts)) + 1)
  {
    LeadEnd(enc, parts);
  }

  /** The range of one part that starts at `offset`, unless it is blank. */
  method RangeAt(ws: Space, enc: Encoding, part: string, offset: nat) returns (range: Option<(nat, nat)>)
    ensures range == None <==> Blank(ws, part)
    ensures range.Some? ==> range.value.0 == offset + Skipped(ws, enc, part)
    ensures range.Some? ==> range.value.1 == Length(enc, Trim(ws, part))
  {
    var trimmed := Trim(ws, part);
    TrimBlank(ws, part);
    if trimmed == "" {
      return None;
    }
    TrimmedWithin(ws, enc, part);
    range := Some((offset + Skipped(ws, enc, part), Length(enc, trimmed)));
  }

  /** An empty list has no ranges; otherwise every part must be nonblank, and each range names its trimmed part. */
  method Split(ws: Space, enc: Encoding, value: string) returns (ranges: Option<seq<(nat, nat)>>)
    requires |enc(',')| == 1
    ensures value == "" ==> ranges == Some([])
    ensures value != "" ==> (ranges.Some? <==> AllNonblank(ws, Parts(value)))
    ensures value != "" && ranges.Some? ==>
              && |ranges.value| == |Parts(value)| && Ranged(ws, enc, Parts(value), ranges.value)
              && Ordered(ranges.value, Length(enc, value) + 1)
  {
    if value == "" {
      return Some([]);
    }
    PartsJoin(value);
    ranges := RangesOf(ws, enc, Parts(value));
  }
}
