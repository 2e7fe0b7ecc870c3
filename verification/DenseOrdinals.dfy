/**
  * The 64-bit mask test for dense ordinals (crates/bray-bound-tree/src/memory.rs, `dense_ordinals`).
  * Machine words are naturals below 2^64.
  */
module DenseOrdinals {
  import opened Bits
  import opened Options
  import opened Sequences

  const BITS := 64

  /** `1_u64.checked_shl(n)` */
  function CheckedShlOne(n: nat): Option<nat> {
    if n < BITS then Some(Pow2(n)) else None
  }

  function WrappingDecrement(x: nat): int {
    if x == 0 then Pow2(BITS) - 1 else x - 1
  }

  // ------------------------------------------------------------------ the check

  /**
    * The mask of seen ordinals accepts exactly the permutations of 0, ..., n-1 for n up to the word
    * size, including n = 64 where the shifted bit overflows and wraps to all ones.
    */
  method DenseCheck(ordinals: seq<nat>) returns (ok: bool)
    ensures ok <==> Permutes(ordinals) && |ordinals| <= 64
  {
    var seen: nat, count: nat := 0, 0;
    forall i: nat ensures !HasBit(0, i) { NoHighBits(0, i); }
    for k := 0 to |ordinals|
      invariant count == k && seen < Pow2(BITS)
      invariant NoDuplicates(ordinals[..k]) && forall v :: v in ordinals[..k] ==> v < BITS
      invariant forall i: nat :: HasBit(seen, i) <==> i in ordinals[..k]
    {
      var ordinal := ordinals[k];
      assert ordinals[..k + 1] == ordinals[..k] + [ordinal];
      var bit := CheckedShlOne(ordinal);
      if bit == None {
        TooLarge(ordinals, k);
        return false;
      }
      AndTestsBit(seen, ordinal);
      if BitAnd(seen, bit.value) != 0 {
        var i :| 0 <= i < k && ordinals[i] == ordinal;
        return false;
      }
      forall i: nat ensures HasBit(BitOr(seen, bit.value), i) <==> i in ordinals[..k + 1] {
        OrSetsBit(seen, ordinal, i);
      }
      OrStaysBelow(seen, ordinal, BITS);
      seen := BitOr(seen, bit.value);
      count := count + 1;
    }
    assert ordinals[..|ordinals|] == ordinals;
    var limit := CheckedShlOne(count);
    ok := seen == WrappingDecrement(if limit == None then 0 else limit.value);
    MaskMeansPermutation(ordinals, seen);
  }

  lemma TooLarge(ordinals: seq<nat>, k: nat)
    requires k < |ordinals| && ordinals[k] >= BITS
    ensures !(Permutes(ordinals) && |ordinals| <= BITS)
  {
    assert ordinals[k] in Elements(ordinals);
  }

  lemma WordSize(s: seq<nat>)
    requires NoDuplicates(s) && forall v :: v in s ==> v < BITS
    ensures |s| <= BITS
  {
    NoDuplicatesSize(s);
    SubsetSize(Elements(s), Below(BITS));
  }

  /** Comparing the mask with 2^n - 1 decides whether distinct ordinals are dense. */
  lemma MaskMeansPermutation(ordinals: seq<nat>, seen: nat)
    requires NoDuplicates(ordinals) && forall v :: v in ordinals ==> v < BITS
    requires seen < Pow2(BITS) && forall i: nat :: HasBit(seen, i) <==> i in ordinals
    ensures
      var limit := CheckedShlOne(|ordinals|);
      seen == WrappingDecrement(if limit == None then 0 else limit.value) <==> Permutes(ordinals) && |ordinals| <= BITS
  {
    WordSize(ordinals);
    MaskDense(ordinals, seen, BITS);
  }

  lemma MaskDense(ordinals: seq<nat>, seen: nat, w: nat)
    requires NoDuplicates(ordinals) && |ordinals| <= w
    requires seen < Pow2(w) && forall i: nat :: HasBit(seen, i) <==> i in ordinals
    ensures seen == Pow2(|ordinals|) - 1 <==> Permutes(ordinals)
  {
    if seen == Pow2(|ordinals|) - 1 {
      forall v | v in Elements(ordinals) ensures v in Below(|ordinals|) { LowMaskBits(|ordinals|, v); }
      BoundedDistinctPermutes(ordinals);
    } else if Permutes(ordinals) {
      PermutationMask(ordinals, seen, w);
    }
  }

  lemma PermutationMask(ordinals: seq<nat>, seen: nat, w: nat)
    requires Permutes(ordinals) && |ordinals| <= w
    requires seen < Pow2(w) && forall i: nat :: HasBit(seen, i) <==> i in ordinals
    ensures seen == Pow2(|ordinals|) - 1
  {
    var n := |ordinals|;
    if n < w { PowerGrows(n, w); }
    forall i: nat | i < w ensures HasBit(seen, i) <==> HasBit(Pow2(n) - 1, i) {
      LowMaskBits(n, i);
      assert i in Elements(ordinals) <==> i in Below(n);
    }
    SameBitsEqual(seen, Pow2(n) - 1, w);
  }

  /** A permutation of 65 ordinals is refused: the word has no bit for the last one. */
  lemma SixtyFiveRefused(s: seq<nat>)
    requires |s| == BITS + 1 && forall i :: 0 <= i < |s| ==> s[i] == i
    ensures Permutes(s) && exists v :: v in s && CheckedShlOne(v) == None
  {
    assert s[BITS] in s;
    BoundedDistinctPermutes(s);
  }
}
