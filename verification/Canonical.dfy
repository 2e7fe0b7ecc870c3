/** Sorting with removal of repetitions, as `sort_unstable` followed by `dedup` over a total order. */
module Canonical {
  import opened Sequences

  ghost predicate TotalOrder<T(!new)>(le: (T, T) -> bool) {
    && (forall x, y :: le(x, y) || le(y, x))
    && (forall x, y :: le(x, y) && le(y, x) ==> x == y)
    && (forall x, y, z :: le(x, y) && le(y, z) ==> le(x, z))
  }

  function Insert<T(==)>(le: (T, T) -> bool, x: T, s: seq<T>): seq<T> {
    if s == [] then [x]
    else if x == s[0] then s
    else if le(x, s[0]) then [x] + s
    else [s[0]] + Insert(le, x, s[1..])
  }

  function SortedUnique<T(==)>(le: (T, T) -> bool, s: seq<T>): seq<T> {
    if s == [] then [] else Insert(le, s[0], SortedUnique(le, s[1..]))
  }

  ghost predicate Ascending<T(!new)>(le: (T, T) -> bool, s: seq<T>) {
    forall i, j :: 0 <= i < j < |s| ==> le(s[i], s[j]) && s[i] != s[j]
  }

  lemma {:induction false} InsertElements<T>(le: (T, T) -> bool, x: T, s: seq<T>)
    ensures Elements(Insert(le, x, s)) == Elements(s) + {x}
  {
    if s != [] && x != s[0] && !le(x, s[0]) {
      InsertElements(le, x, s[1..]);
      ElementsAppend([s[0]], Insert(le, x, s[1..]));
      ElementsAppend([s[0]], s[1..]);
      assert s == [s[0]] + s[1..];
    } else {
      ElementsAppend([x], s);
    }
  }

  ghost predicate BelowAll<T(!new)>(le: (T, T) -> bool, x: T, s: set<T>) {
    forall y :: y in s ==> le(x, y) && x != y
  }

  lemma ConsAscending<T(!new)>(le: (T, T) -> bool, x: T, s: seq<T>)
    requires Ascending(le, s) && BelowAll(le, x, Elements(s))
    ensures Ascending(le, [x] + s)
  {
    assert forall j :: 0 <= j < |s| ==> s[j] in Elements(s);
  }

  lemma HeadBelowTail<T(!new)>(le: (T, T) -> bool, s: seq<T>)
    requires s != [] && Ascending(le, s)
    ensures BelowAll(le, s[0], Elements(s[1..]))
  {
    forall y | y in Elements(s[1..]) ensures le(s[0], y) && s[0] != y {
      var j :| 0 <= j < |s[1..]| && s[1..][j] == y;
      assert s[j + 1] == y;
    }
  }

  lemma BelowHead<T(!new)>(le: (T, T) -> bool, x: T, s: seq<T>)
    requires TotalOrder(le) && s != [] && Ascending(le, s) && le(x, s[0]) && x != s[0]
    ensures BelowAll(le, x, Elements(s))
  {
    forall y | y in Elements(s) ensures le(x, y) && x != y {
      var j :| 0 <= j < |s| && s[j] == y;
      assert j == 0 || le(s[0], s[j]);
    }
  }

  lemma {:induction false} InsertAscending<T(!new)>(le: (T, T) -> bool, x: T, s: seq<T>)
    requires TotalOrder(le) && Ascending(le, s)
    ensures Ascending(le, Insert(le, x, s))
  {
    if s == [] || x == s[0] {
    } else if le(x, s[0]) {
      BelowHead(le, x, s);
      ConsAscending(le, x, s);
    } else {
      InsertAscending(le, x, s[1..]);
      InsertElements(le, x, s[1..]);
      HeadBelowTail(le, s);
      assert le(s[0], x);
      ConsAscending(le, s[0], Insert(le, x, s[1..]));
    }
  }

  /** The result is ascending and has the same elements ... */
  lemma {:induction false} SortedUniqueSound<T(!new)>(le: (T, T) -> bool, s: seq<T>)
    requires TotalOrder(le)
    ensures Ascending(le, SortedUnique(le, s)) && Elements(SortedUnique(le, s)) == Elements(s)
  {
    if s != [] {
      SortedUniqueSound(le, s[1..]);
      InsertAscending(le, s[0], SortedUnique(le, s[1..]));
      InsertElements(le, s[0], SortedUnique(le, s[1..]));
      ElementsAppend([s[0]], s[1..]);
      assert s == [s[0]] + s[1..];
    }
  }

  /** ... and is the only such sequence. */
  lemma {:induction false} AscendingUnique<T(!new)>(le: (T, T) -> bool, s: seq<T>, t: seq<T>)
    requires TotalOrder(le) && Ascending(le, s) && Ascending(le, t) && Elements(s) == Elements(t)
    ensures s == t
  {
    SameEmptiness(s, t);
    if s != [] {
      LeastFirst(le, s, t);
      TailElements(le, s);
      TailElements(le, t);
      AscendingUnique(le, s[1..], t[1..]);
      assert s == [s[0]] + s[1..] && t == [t[0]] + t[1..];
    }
  }

  lemma SameEmptiness<T(!new)>(s: seq<T>, t: seq<T>)
    requires Elements(s) == Elements(t)
    ensures s == [] <==> t == []
  {
    assert s != [] ==> s[0] in Elements(s);
    assert t != [] ==> t[0] in Elements(t);
  }

  lemma LeastFirst<T(!new)>(le: (T, T) -> bool, s: seq<T>, t: seq<T>)
    requires TotalOrder(le) && s != [] && t != [] && Ascending(le, s) && Ascending(le, t) && Elements(s) == Elements(t)
    ensures s[0] == t[0]
  {
    assert s[0] in Elements(t) && t[0] in Elements(s);
    var j :| 0 <= j < |t| && t[j] == s[0];
    var i :| 0 <= i < |s| && s[i] == t[0];
  }

  lemma TailElements<T(!new)>(le: (T, T) -> bool, s: seq<T>)
    requires s != [] && Ascending(le, s)
    ensures Elements(s[1..]) == Elements(s) - {s[0]}
  {
    assert s == [s[0]] + s[1..];
    ElementsAppend([s[0]], s[1..]);
  }

  /** So the result depends on the elements only. */
  lemma SortedUniqueCanonical<T(!new)>(le: (T, T) -> bool, s: seq<T>, t: seq<T>)
    requires TotalOrder(le) && Elements(s) == Elements(t)
    ensures SortedUnique(le, s) == SortedUnique(le, t)
  {
    SortedUniqueSound(le, s);
    SortedUniqueSound(le, t);
    AscendingUnique(le, SortedUnique(le, s), SortedUnique(le, t));
  }
}
