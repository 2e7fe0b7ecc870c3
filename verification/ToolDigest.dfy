/**
  * The byte stream that identifies the preparation tools (xtask/src/preparation_tools.rs).
  * The hash applied to the stream is uninterpreted.
  */
module ToolDigest {
  import opened Canonical
  import opened Options
  import opened Sequences

  type Byte = b: int | 0 <= b < 256
  type Digest = d: seq<Byte> | |d| == 32 witness seq(32, _ => 0)

  type Name(==, !new) // a tool as the caller lists it
  type Path(==, !new) // a canonical path

  /** What the host answers: lookups, lossy path text and file fingerprints. */
  datatype Host = Host(
    wordBytes: nat, // the size of a machine length in bytes
    locate: Name -> Option<Path>,
    canonical: Path -> Option<Path>,
    text: Path -> seq<Byte>,
    content: Path -> Option<Digest>,
    le: (Path, Path) -> bool)

  datatype Error = Absent(name: Name) | Unresolved(path: Path) | Unreadable(path: Path)
  datatype Result<+T> = Ok(value: T) | Err(error: Error)

  /** One framed tool. */
  datatype Record = Record(text: seq<Byte>, content: Digest)

  // ------------------------------------------------------------------ lengths

  ghost function Power256(n: nat): nat {
    if n == 0 then 1 else 256 * Power256(n - 1)
  }

  function LittleEndian(n: nat, width: nat): (bytes: seq<Byte>)
    ensures |bytes| == width
  {
    if width == 0 then [] else [n % 256] + LittleEndian(n / 256, width - 1)
  }

  function ReadLength(bytes: seq<Byte>): nat {
    if bytes == [] then 0 else bytes[0] + 256 * ReadLength(bytes[1..])
  }

  lemma {:induction false} LengthRoundTrip(n: nat, width: nat)
    requires n < Power256(width)
    ensures ReadLength(LittleEndian(n, width)) == n
  {
    if width > 0 {
      LengthRoundTrip(n / 256, width - 1);
      assert LittleEndian(n, width)[1..] == LittleEndian(n / 256, width - 1);
    }
  }

  lemma LowByte(b: Byte, rest: nat)
    ensures (b + 256 * rest) % 256 == b && (b + 256 * rest) / 256 == rest
  {
  }

  lemma {:induction false} BytesRoundTrip(bytes: seq<Byte>)
    ensures LittleEndian(ReadLength(bytes), |bytes|) == bytes
    ensures ReadLength(bytes) < Power256(|bytes|)
  {
    if bytes != [] {
      var rest := ReadLength(bytes[1..]);
      BytesRoundTrip(bytes[1..]);
      LowByte(bytes[0], rest);
      assert LittleEndian(bytes[0] + 256 * rest, |bytes|) == [bytes[0]] + LittleEndian(rest, |bytes| - 1);
      assert bytes == [bytes[0]] + bytes[1..];
    }
  }

  // ------------------------------------------------------------------ framing

  function Frame(w: nat, r: Record): seq<Byte> {
    LittleEndian(|r.text|, w) + r.text + r.content
  }

  function Encode(w: nat, rs: seq<Record>): seq<Byte> {
    if rs == [] then [] else Frame(w, rs[0]) + Encode(w, rs[1..])
  }

  /** An independent reader of the stream. */
  function Decode(w: nat, s: seq<Byte>): Option<seq<Record>>
    decreases |s|
  {
    if s == [] then Some([])
    else if |s| < w then None
    else
      var n, body := ReadLength(s[..w]), s[w..];
      if |body| < n + 32 then None
      else
        var rest := Decode(w, body[n + 32..]);
        if rest == None then None else Some([Record(body[..n], body[n..n + 32])] + rest.value)
  }

  /** A text whose length a machine word can hold. */
  ghost predicate Framable(w: nat, r: Record) {
    |r.text| < Power256(w)
  }

  ghost predicate AllFramable(w: nat, rs: seq<Record>) {
    forall i :: 0 <= i < |rs| ==> Framable(w, rs[i])
  }

  lemma DecodeFrame(w: nat, r: Record, s: seq<Byte>)
    requires Framable(w, r)
    ensures Decode(w, Frame(w, r) + s) == (if Decode(w, s) == None then None else Some([r] + Decode(w, s).value))
  {
    LengthRoundTrip(|r.text|, w);
    var length, whole := LittleEndian(|r.text|, w), Frame(w, r) + s;
    assert whole[..w] == length;
    var body := whole[w..];
    assert body == r.text + (r.content + s);
    assert body[..|r.text|] == r.text;
    assert body[|r.text|..|r.text| + 32] == r.content;
    assert body[|r.text| + 32..] == s;
  }

  /** The reader recovers exactly what was framed ... */
  lemma {:induction false} DecodeEncodes(w: nat, rs: seq<Record>)
    requires AllFramable(w, rs)
    ensures Decode(w, Encode(w, rs)) == Some(rs)
  {
    if rs != [] {
      DecodeEncodes(w, rs[1..]);
      DecodeFrame(w, rs[0], Encode(w, rs[1..]));
      assert [rs[0]] + rs[1..] == rs;
    }
  }

  lemma TakeFrame(w: nat, s: seq<Byte>) returns (r: Record, rest: seq<Byte>)
    requires s != [] && Decode(w, s).Some?
    ensures s == Frame(w, r) + rest && Framable(w, r) && |rest| < |s|
    ensures Decode(w, rest).Some? && Decode(w, s).value == [r] + Decode(w, rest).value
  {
    var length, body := s[..w], s[w..];
    var n := ReadLength(length);
    BytesRoundTrip(length);
    rest := body[n + 32..];
    r := Record(body[..n], body[n..n + 32]);
    Reassembled(s, w, n);
  }

  lemma Reassembled(s: seq<Byte>, w: nat, n: nat)
    requires w + n + 32 <= |s|
    ensures var body := s[w..]; s == s[..w] + body[..n] + body[n..n + 32] + body[n + 32..]
  {
  }

  /** ... and accepts nothing but framed records. */
  lemma {:induction false} EncodeDecodes(w: nat, s: seq<Byte>)
    requires Decode(w, s).Some?
    ensures AllFramable(w, Decode(w, s).value) && Encode(w, Decode(w, s).value) == s
    decreases |s|
  {
    if s != [] {
      var r, rest := TakeFrame(w, s);
      EncodeDecodes(w, rest);
      assert ([r] + Decode(w, rest).value)[1..] == Decode(w, rest).value;
    }
  }

  // ------------------------------------------------------------------ the two loops

  function Resolve(host: Host, name: Name): Result<Path> {
    match host.locate(name)
    case None => Err(Absent(name))
    case Some(path) =>
      match host.canonical(path)
      case None => Err(Unresolved(path))
      case Some(p) => Ok(p)
  }

  /** In listed order, stopping at the first failure. */
  function ResolveAll(host: Host, names: seq<Name>): Result<seq<Path>> {
    if names == [] then Ok([])
    else
      match Resolve(host, names[0])
      case Err(e) => Err(e)
      case Ok(p) =>
        match ResolveAll(host, names[1..])
        case Err(e) => Err(e)
        case Ok(ps) => Ok([p] + ps)
  }

  /** In path order, stopping at the first file that cannot be read. */
  function Records(host: Host, paths: seq<Path>): Result<seq<Record>> {
    if paths == [] then Ok([])
    else
      match host.content(paths[0])
      case None => Err(Unreadable(paths[0]))
      case Some(d) =>
        match Records(host, paths[1..])
        case Err(e) => Err(e)
        case Ok(rs) => Ok([Record(host.text(paths[0]), d)] + rs)
  }

  /** The stream that reaches the hash. */
  function Stream(host: Host, names: seq<Name>): Result<seq<Byte>> {
    match ResolveAll(host, names)
    case Err(e) => Err(e)
    case Ok(paths) =>
      match Records(host, SortedUnique(host.le, paths))
      case Err(e) => Err(e)
      case Ok(rs) => Ok(Encode(host.wordBytes, rs))
  }

  lemma {:induction false} ResolveAppend(host: Host, a: seq<Name>, b: seq<Name>)
    ensures ResolveAll(host, a + b) ==
            match ResolveAll(host, a)
            case Err(e) => Err(e)
            case Ok(ps) => match ResolveAll(host, b) case Err(e) => Err(e) case Ok(qs) => Ok(ps + qs)
  {
    if a == [] {
      assert a + b == b;
      if ResolveAll(host, b).Ok? {
        assert [] + ResolveAll(host, b).value == ResolveAll(host, b).value;
      }
    } else {
      assert (a + b)[1..] == a[1..] + b;
      ResolveAppend(host, a[1..], b);
      if Resolve(host, a[0]).Ok? && ResolveAll(host, a[1..]).Ok? && ResolveAll(host, b).Ok? {
        var p, ps, qs := Resolve(host, a[0]).value, ResolveAll(host, a[1..]).value, ResolveAll(host, b).value;
        assert [p] + (ps + qs) == ([p] + ps) + qs;
      }
    }
  }

  /** `resolved` is the ordered set that the first loop fills. */
  method ResolveLoop(host: Host, names: seq<Name>) returns (r: Result<seq<Path>>)
    requires TotalOrder(host.le)
    ensures r.Ok? <==> ResolveAll(host, names).Ok?
    ensures r.Ok? ==> r.value == SortedUnique(host.le, ResolveAll(host, names).value)
    ensures r.Err? ==> r.error == ResolveAll(host, names).error
  {
    var resolved: seq<Path> := [];
    var i := 0;
    while i < |names|
      invariant 0 <= i <= |names|
      invariant ResolveAll(host, names[..i]).Ok?
      invariant Ascending(host.le, resolved) && Elements(resolved) == Elements(ResolveAll(host, names[..i]).value)
    {
      ghost var before := ResolveAll(host, names[..i]).value;
      ResolveAppend(host, names[..i], [names[i]]);
      assert names[..i + 1] == names[..i] + [names[i]];
      assert [names[i]][1..] == [];
      match Resolve(host, names[i]) {
        case Err(e) =>
          ResolveAppend(host, names[..i + 1], names[i + 1..]);
          assert names == names[..i + 1] + names[i + 1..];
          return Err(e);
        case Ok(path) =>
          InsertAscending(host.le, path, resolved);
          InsertElements(host.le, path, resolved);
          ElementsAppend(before, [path]);
          resolved := Insert(host.le, path, resolved);
      }
      i := i + 1;
    }
    assert names[..i] == names;
    SortedUniqueSound(host.le, ResolveAll(host, names).value);
    AscendingUnique(host.le, resolved, SortedUnique(host.le, ResolveAll(host, names).value));
    return Ok(resolved);
  }

  /** What the second loop still adds to the bytes already fed to the hash. */
  function Fed(host: Host, stream: seq<Byte>, paths: seq<Path>): Result<seq<Byte>> {
    match Records(host, paths)
    case Err(e) => Err(e)
    case Ok(rs) => Ok(stream + Encode(host.wordBytes, rs))
  }

  lemma FedFromStart(host: Host, paths: seq<Path>)
    ensures Records(host, paths).Ok? ==> Fed(host, [], paths) == Ok(Encode(host.wordBytes, Records(host, paths).value))
  {
    if Records(host, paths).Ok? {
      var e := Encode(host.wordBytes, Records(host, paths).value);
      assert [] + e == e;
    }
  }

  lemma FeedOne(host: Host, stream: seq<Byte>, paths: seq<Path>)
    requires paths != [] && host.content(paths[0]).Some?
    ensures
      var w, p := host.wordBytes, paths[0];
      Fed(host, stream, paths)
      == Fed(host, stream + LittleEndian(|host.text(p)|, w) + host.text(p) + host.content(p).value, paths[1..])
  {
    var w, p := host.wordBytes, paths[0];
    if Records(host, paths[1..]).Ok? {
      var r, rs := Record(host.text(p), host.content(p).value), Records(host, paths[1..]).value;
      assert ([r] + rs)[1..] == rs;
      assert stream + (Frame(w, r) + Encode(w, rs))
          == (stream + LittleEndian(|r.text|, w) + r.text + r.content) + Encode(w, rs);
    }
  }

  method DigestPaths(host: Host, hash: seq<Byte> -> string, names: seq<Name>) returns (r: Result<string>)
    requires TotalOrder(host.le)
    ensures r.Ok? <==> Stream(host, names).Ok?
    ensures r.Ok? ==> r.value == hash(Stream(host, names).value)
    ensures r.Err? ==> r.error == Stream(host, names).error
  {
    var resolved := ResolveLoop(host, names);
    if resolved.Err? {
      return Err(resolved.error);
    }
    var stream: seq<Byte> := [];
    var paths := resolved.value;
    FedFromStart(host, paths);
    while paths != []
      invariant Fed(host, stream, paths) == Stream(host, names)
    {
      var path := paths[0];
      var content := host.content(path);
      if content == None {
        return Err(Unreadable(path));
      }
      FeedOne(host, stream, paths);
      stream := stream + LittleEndian(|host.text(path)|, host.wordBytes);
      stream := stream + host.text(path);
      stream := stream + content.value;
      paths := paths[1..];
    }
    assert stream + [] == stream;
    return Ok(hash(stream));
  }

  // ------------------------------------------------------------------ what the stream depends on

  /** The two hosts say the same about the text and contents of `paths`. */
  ghost predicate AgreeOn(h: Host, k: Host, paths: set<Path>) {
    h.wordBytes == k.wordBytes && forall p :: p in paths ==> h.text(p) == k.text(p) && h.content(p) == k.content(p)
  }

  lemma {:induction false} RecordsAgree(h: Host, k: Host, paths: seq<Path>)
    requires AgreeOn(h, k, Elements(paths))
    ensures Records(h, paths) == Records(k, paths)
  {
    if paths != [] {
      ElementsAppend([paths[0]], paths[1..]);
      assert paths == [paths[0]] + paths[1..];
      assert paths[0] in Elements(paths);
      RecordsAgree(h, k, paths[1..]);
    }
  }

  /**
    * Order, multiplicity and spelling of the list do not matter: only the set of resolved paths and their
    * contents do.
    */
  lemma StreamDependsOnSet(h: Host, k: Host, a: seq<Name>, b: seq<Name>)
    requires TotalOrder(h.le) && k.le == h.le
    requires ResolveAll(h, a).Ok? && ResolveAll(k, b).Ok?
    requires Elements(ResolveAll(h, a).value) == Elements(ResolveAll(k, b).value)
    requires AgreeOn(h, k, Elements(ResolveAll(h, a).value))
    ensures Stream(h, a) == Stream(k, b)
  {
    var p, q := ResolveAll(h, a).value, ResolveAll(k, b).value;
    SortedUniqueCanonical(h.le, p, q);
    SortedUniqueSound(h.le, p);
    RecordsAgree(h, k, SortedUnique(h.le, p));
  }

  lemma {:induction false} ResolvesWhen(host: Host, names: seq<Name>)
    ensures ResolveAll(host, names).Ok? <==> forall n :: n in names ==> Resolve(host, n).Ok?
    ensures ResolveAll(host, names).Ok? ==>
      forall p :: p in Elements(ResolveAll(host, names).value) <==> exists n :: n in names && Resolve(host, n) == Ok(p)
  {
    if names != [] {
      var name, rest := names[0], names[1..];
      ResolvesWhen(host, rest);
      assert names == [name] + rest;
      if ResolveAll(host, names).Ok? {
        var p, ps := Resolve(host, name).value, ResolveAll(host, rest).value;
        ElementsAppend([p], ps);
        forall q ensures q in Elements([p] + ps) <==> exists n :: n in names && Resolve(host, n) == Ok(q) {
          if q in Elements([p] + ps) {
            if q == p {
              assert name in names;
            } else {
              var n :| n in rest && Resolve(host, n) == Ok(q);
              assert n in names;
            }
          }
        }
      }
    }
  }

  /** Reordering or repeating the list changes nothing. */
  lemma ListOrderIrrelevant(host: Host, a: seq<Name>, b: seq<Name>)
    requires TotalOrder(host.le) && Elements(a) == Elements(b)
    ensures Stream(host, a).Ok? <==> Stream(host, b).Ok?
    ensures Stream(host, a).Ok? ==> Stream(host, a) == Stream(host, b)
  {
    ResolvesWhen(host, a);
    ResolvesWhen(host, b);
    assert forall n :: (n in a) == (n in Elements(a)) && (n in b) == (n in Elements(b));
    if ResolveAll(host, a).Ok? {
      assert Elements(ResolveAll(host, a).value) == Elements(ResolveAll(host, b).value);
      StreamDependsOnSet(host, host, a, b);
    }
  }

  // ------------------------------------------------------------------ what the stream determines

  /** The records of a list of tools: one for each resolved path. */
  ghost function RecordSet(host: Host, paths: set<Path>): set<Record>
    requires forall p :: p in paths ==> host.content(p).Some?
  {
    set p | p in paths :: Record(host.text(p), host.content(p).value)
  }

  /** Every path's text is short enough for a machine length. */
  ghost predicate TextsFit(host: Host) {
    forall p :: |host.text(p)| < Power256(host.wordBytes)
  }

  lemma {:induction false} RecordsExact(host: Host, paths: seq<Path>)
    requires TextsFit(host)
    ensures Records(host, paths).Ok? <==> forall p :: p in Elements(paths) ==> host.content(p).Some?
    ensures Records(host, paths).Ok? ==>
      AllFramable(host.wordBytes, Records(host, paths).value)
      && Elements(Records(host, paths).value) == RecordSet(host, Elements(paths))
  {
    if paths != [] {
      var p, rest := paths[0], paths[1..];
      RecordsExact(host, rest);
      assert paths == [p] + rest;
      ElementsAppend([p], rest);
      assert p in Elements(paths);
      if Records(host, paths).Ok? {
        ElementsAppend([Record(host.text(p), host.content(p).value)], Records(host, rest).value);
        assert RecordSet(host, Elements(paths))
            == RecordSet(host, Elements(rest)) + {Record(host.text(p), host.content(p).value)};
      }
    }
  }

  /** The stream exists exactly when every tool resolves and is readable, and reading it back gives its records. */
  lemma StreamDecodes(host: Host, names: seq<Name>)
    requires TotalOrder(host.le) && TextsFit(host)
    ensures Stream(host, names).Ok? <==>
      ResolveAll(host, names).Ok? && forall p :: p in Elements(ResolveAll(host, names).value) ==> host.content(p).Some?
    ensures Stream(host, names).Ok? ==>
      var read := Decode(host.wordBytes, Stream(host, names).value);
      read.Some? && Elements(read.value) == RecordSet(host, Elements(ResolveAll(host, names).value))
  {
    if ResolveAll(host, names).Ok? {
      var paths := ResolveAll(host, names).value;
      SortedUniqueSound(host.le, paths);
      RecordsExact(host, SortedUnique(host.le, paths));
      if Stream(host, names).Ok? {
        DecodeEncodes(host.wordBytes, Records(host, SortedUnique(host.le, paths)).value);
      }
    }
  }

  /** Unique decodability: equal streams come from equal sets of path text and content digest. */
  lemma EqualStreamsEqualTools(h: Host, k: Host, a: seq<Name>, b: seq<Name>)
    requires TotalOrder(h.le) && TextsFit(h) && TotalOrder(k.le) && TextsFit(k) && h.wordBytes == k.wordBytes
    requires Stream(h, a).Ok? && Stream(k, b) == Stream(h, a)
    ensures ResolveAll(h, a).Ok? && forall p :: p in Elements(ResolveAll(h, a).value) ==> h.content(p).Some?
    ensures ResolveAll(k, b).Ok? && forall p :: p in Elements(ResolveAll(k, b).value) ==> k.content(p).Some?
    ensures RecordSet(h, Elements(ResolveAll(h, a).value)) == RecordSet(k, Elements(ResolveAll(k, b).value))
  {
    StreamDecodes(h, a);
    StreamDecodes(k, b);
  }

  /** The canonical paths that a list of tools resolves to. */
  ghost function PathSet(host: Host, names: seq<Name>): set<Path> {
    match ResolveAll(host, names)
    case Ok(paths) => Elements(paths)
    case Err(_) => {}
  }

  /** The file found under `name` has the canonical path `p`. */
  predicate LeadsTo(host: Host, name: Name, p: Path) {
    host.locate(name).Some? && host.canonical(host.locate(name).value) == Some(p)
  }

  ghost predicate Leads(host: Host, name: Name) {
    exists p :: LeadsTo(host, name, p)
  }

  /** Of the names only what they lead to enters the path set, and all of that does. */
  lemma PathSetExact(host: Host, names: seq<Name>)
    ensures ResolveAll(host, names).Ok? <==> forall n :: n in names ==> Leads(host, n)
    ensures ResolveAll(host, names).Ok? ==>
      forall p :: p in PathSet(host, names) <==> exists n :: n in names && LeadsTo(host, n, p)
  {
    ResolvesWhen(host, names);
    forall n ensures Resolve(host, n).Ok? <==> Leads(host, n) {
      if Resolve(host, n).Ok? {
        assert LeadsTo(host, n, Resolve(host, n).value);
      }
    }
    assert forall n, p :: LeadsTo(host, n, p) <==> Resolve(host, n) == Ok(p);
  }

  /** The first name without a canonical path, and why it has none. */
  ghost predicate FirstLost(host: Host, names: seq<Name>, i: nat, e: Error) {
    && i < |names| && (forall j :: 0 <= j < i ==> Leads(host, names[j]))
    && match host.locate(names[i])
       case None => e == Absent(names[i])
       case Some(found) => host.canonical(found) == None && e == Unresolved(found)
  }

  lemma {:induction false} LostNamed(host: Host, names: seq<Name>) returns (i: nat)
    requires ResolveAll(host, names).Err?
    ensures FirstLost(host, names, i, ResolveAll(host, names).error)
  {
    if Resolve(host, names[0]).Err? {
      i := 0;
    } else {
      assert LeadsTo(host, names[0], Resolve(host, names[0]).value);
      var k := LostNamed(host, names[1..]);
      i := k + 1;
      assert names[i] == names[1..][k] && ResolveAll(host, names).error == ResolveAll(host, names[1..]).error;
      forall j | 0 <= j < i ensures Leads(host, names[j]) {
        if j > 0 {
          assert names[j] == names[1..][j - 1];
        }
      }
    }
  }

  /** The first path in path order whose file cannot be read. */
  ghost predicate FirstUnreadable(host: Host, paths: set<Path>, e: Error) {
    && e.Unreadable? && e.path in paths && host.content(e.path) == None
    && forall q :: q in paths && host.le(q, e.path) && q != e.path ==> host.content(q).Some?
  }

  lemma {:induction false} UnreadableNamed(host: Host, paths: seq<Path>)
    requires TotalOrder(host.le) && Ascending(host.le, paths) && Records(host, paths).Err?
    ensures FirstUnreadable(host, Elements(paths), Records(host, paths).error)
  {
    var first, rest := paths[0], paths[1..];
    assert paths == [first] + rest;
    ElementsAppend([first], rest);
    assert first in Elements(paths);
    if host.content(first) == None {
      forall q | q in Elements(paths) ensures q == first || host.le(first, q) {
        var k :| 0 <= k < |paths| && paths[k] == q;
      }
    } else {
      UnreadableNamed(host, rest);
    }
  }

  /** Every failure is the first one of the first loop that has one, with its own kind and subject. */
  lemma FailureNamed(host: Host, names: seq<Name>)
    requires TotalOrder(host.le) && Stream(host, names).Err?
    ensures
      var e := Stream(host, names).error;
      || (exists i :: FirstLost(host, names, i, e))
      || (ResolveAll(host, names).Ok? && FirstUnreadable(host, PathSet(host, names), e))
  {
    if ResolveAll(host, names).Err? {
      var i := LostNamed(host, names);
    } else {
      var paths := ResolveAll(host, names).value;
      SortedUniqueSound(host.le, paths);
      UnreadableNamed(host, SortedUnique(host.le, paths));
    }
  }

  ghost predicate Usable(host: Host, name: Name) {
    Resolve(host, name).Ok? && host.content(Resolve(host, name).value).Some?
  }

  /** Two usable tools with different paths, of the same text and with the same content. */
  ghost predicate Confused(host: Host, a: Name, b: Name) {
    && Usable(host, a) && Usable(host, b)
    && var p, q := Resolve(host, a).value, Resolve(host, b).value;
       p != q && host.text(p) == host.text(q) && host.content(p) == host.content(q)
  }

  ghost predicate NoneConfused(host: Host, a: seq<Name>, b: seq<Name>) {
    forall n, m :: n in a && m in b ==> !Confused(host, n, m)
  }

  /** Lists without confused tools: the stream pins down the path set itself. */
  lemma EqualStreamsEqualPaths(host: Host, a: seq<Name>, b: seq<Name>)
    requires TotalOrder(host.le) && TextsFit(host)
    requires Stream(host, a).Ok? && Stream(host, b) == Stream(host, a)
    requires NoneConfused(host, a, b)
    ensures PathSet(host, a) == PathSet(host, b)
  {
    EqualStreamsEqualTools(host, host, a, b);
    forall n, m | n in b && m in a ensures !Confused(host, n, m) {
      assert !Confused(host, m, n);
    }
    PathsWithin(host, a, b);
    PathsWithin(host, b, a);
  }

  lemma PathsWithin(host: Host, a: seq<Name>, b: seq<Name>)
    requires ResolveAll(host, a).Ok? && forall p :: p in PathSet(host, a) ==> host.content(p).Some?
    requires ResolveAll(host, b).Ok? && forall p :: p in PathSet(host, b) ==> host.content(p).Some?
    requires RecordSet(host, PathSet(host, a)) <= RecordSet(host, PathSet(host, b)) && NoneConfused(host, a, b)
    ensures PathSet(host, a) <= PathSet(host, b)
  {
    ResolvesWhen(host, a);
    ResolvesWhen(host, b);
    forall p | p in PathSet(host, a) ensures p in PathSet(host, b) {
      var r := Record(host.text(p), host.content(p).value);
      assert r in RecordSet(host, PathSet(host, b));
      var q :| q in PathSet(host, b) && Record(host.text(q), host.content(q).value) == r;
      var n :| n in a && Resolve(host, n) == Ok(p);
      var m :| m in b && Resolve(host, m) == Ok(q);
      assert !Confused(host, n, m);
    }
  }

  lemma SingleTool(host: Host, a: Name)
    requires Usable(host, a)
    ensures
      var p := Resolve(host, a).value;
      && PathSet(host, [a]) == {p}
      && Stream(host, [a]) == Ok(Encode(host.wordBytes, [Record(host.text(p), host.content(p).value)]))
  {
    var p := Resolve(host, a).value;
    var r := Record(host.text(p), host.content(p).value);
    assert [a][1..] == [] && [p][1..] == [];
    assert [p] + [] == [p] && [r] + [] == [r];
    assert ResolveAll(host, [a]) == Ok([p]) && SortedUnique(host.le, [p]) == [p] && Records(host, [p]) == Ok([r]);
  }

  /** Confused tools are told apart by their path sets and not by their streams. */
  lemma LossyTextCollides(host: Host, a: Name, b: Name)
    requires Confused(host, a, b)
    ensures Stream(host, [a]).Ok? && Stream(host, [a]) == Stream(host, [b])
    ensures PathSet(host, [a]) != PathSet(host, [b])
  {
    SingleTool(host, a);
    SingleTool(host, b);
    assert Resolve(host, a).value in PathSet(host, [a]) && Resolve(host, a).value !in PathSet(host, [b]);
  }

  /** Equal streams mean equal path sets, whatever the lists. */
  ghost predicate StreamsDeterminePaths(host: Host) {
    forall a, b :: Stream(host, a).Ok? && Stream(host, b) == Stream(host, a) ==> PathSet(host, a) == PathSet(host, b)
  }

  /** They do exactly when no two usable tools are confused. */
  lemma PathsDeterminedExactly(host: Host)
    requires TotalOrder(host.le) && TextsFit(host)
    ensures StreamsDeterminePaths(host) <==> forall n, m :: !Confused(host, n, m)
  {
    if forall n, m :: !Confused(host, n, m) {
      forall a, b | Stream(host, a).Ok? && Stream(host, b) == Stream(host, a)
        ensures PathSet(host, a) == PathSet(host, b)
      {
        EqualStreamsEqualPaths(host, a, b);
      }
    }
    if n, m :| Confused(host, n, m) {
      LossyTextCollides(host, n, m);
    }
  }
}
