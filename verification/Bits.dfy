/** Naturals as strings of bits, with `&` and `|` defined bit by bit. */
module Bits {

  function Pow2(n: nat): (p: nat)
    ensures p > 0
  {
    if n == 0 then 1 else 2 * Pow2(n - 1)
  }

  predicate HasBit(x: nat, i: nat)
    decreases i
  {
    if i == 0 then x % 2 == 1 else HasBit(x / 2, i - 1)
  }

  function BitAnd(x: nat, y: nat): nat {
    if x == 0 || y == 0 then 0 else (x % 2) * (y % 2) + 2 * BitAnd(x / 2, y / 2)
  }

  function BitOr(x: nat, y: nat): nat
    decreases x + y
  {
    if x == 0 then y else if y == 0 then x
    else (if x % 2 == 1 || y % 2 == 1 then 1 else 0) + 2 * BitOr(x / 2, y / 2)
  }

  lemma {:induction false} NoHighBits(x: nat, i: nat)
    requires x < Pow2(i)
    ensures !HasBit(x, i)
  {
    if i > 0 {
      NoHighBits(x / 2, i - 1);
    }
  }

  lemma {:induction false} AndTestsBit(x: nat, i: nat)
    ensures BitAnd(x, Pow2(i)) != 0 <==> HasBit(x, i)
  {
    if i == 0 {
      assert BitAnd(x / 2, 0) == 0;
      if x == 0 { NoHighBits(0, 0); }
    } else {
      assert Pow2(i) % 2 == 0 && Pow2(i) / 2 == Pow2(i - 1);
      if x == 0 { NoHighBits(0, i); } else { AndTestsBit(x / 2, i - 1); }
    }
  }

  lemma {:induction false} OrSetsBit(x: nat, i: nat, j: nat)
    ensures HasBit(BitOr(x, Pow2(i)), j) <==> HasBit(x, j) || i == j
    decreases i + j
  {
    PowerBits(i, j);
    if x == 0 {
      NoHighBits(0, j);
    } else if i == 0 {
      assert BitOr(x / 2, 0) == x / 2;
      assert BitOr(x, 1) / 2 == x / 2;
    } else {
      assert Pow2(i) % 2 == 0 && Pow2(i) / 2 == Pow2(i - 1);
      var r := BitOr(x / 2, Pow2(i - 1));
      assert BitOr(x, Pow2(i)) == x % 2 + 2 * r;
      if j > 0 {
        OrSetsBit(x / 2, i - 1, j - 1);
      }
    }
  }

  lemma {:induction false} PowerBits(i: nat, j: nat)
    ensures HasBit(Pow2(i), j) <==> i == j
    decreases j
  {
    if j == 0 {
    } else if i == 0 {
      NoHighBits(0, j - 1);
    } else {
      PowerBits(i - 1, j - 1);
    }
  }

  lemma {:induction false} OrStaysBelow(x: nat, i: nat, w: nat)
    requires x < Pow2(w) && i < w
    ensures BitOr(x, Pow2(i)) < Pow2(w)
    decreases w
  {
    PowerGrows(i, w);
    if x != 0 {
      if i == 0 {
        assert BitOr(x / 2, 0) == x / 2;
      } else {
        assert Pow2(i) % 2 == 0 && Pow2(i) / 2 == Pow2(i - 1);
        OrStaysBelow(x / 2, i - 1, w - 1);
      }
    }
  }

  lemma {:induction false} PowerGrows(i: nat, w: nat)
    requires i < w
    ensures Pow2(i) < Pow2(w)
    decreases w
  {
    if i < w - 1 {
      PowerGrows(i, w - 1);
    }
  }

  /** All ones: the low `n` bits of 2^n - 1. */
  lemma {:induction false} LowMaskBits(n: nat, i: nat)
    ensures HasBit(Pow2(n) - 1, i) <==> i < n
    decreases i
  {
    if n == 0 {
      NoHighBits(0, i);
    } else if i > 0 {
      assert (Pow2(n) - 1) / 2 == Pow2(n - 1) - 1;
      LowMaskBits(n - 1, i - 1);
    }
  }

  /** Words with the same bits are equal. */
  lemma {:induction false} SameBitsEqual(x: nat, y: nat, w: nat)
    requires x < Pow2(w) && y < Pow2(w)
    requires forall i: nat :: i < w ==> (HasBit(x, i) <==> HasBit(y, i))
    ensures x == y
    decreases w
  {
    if w > 0 {
      assert HasBit(x, 0) <==> HasBit(y, 0);
      forall i: nat | i < w - 1 ensures HasBit(x / 2, i) <==> HasBit(y / 2, i) {
        assert HasBit(x, i + 1) <==> HasBit(y, i + 1);
      }
      SameBitsEqual(x / 2, y / 2, w - 1);
    }
  }

  // ------------------------------------------------------------------ powers of two

  ghost predicate IsPower(x: nat) {
    exists k: nat :: x == Pow2(k)
  }

  lemma {:induction false} AndSelf(x: nat)
    ensures BitAnd(x, x) == x
  {
    if x != 0 {
      AndSelf(x / 2);
    }
  }

  lemma PowerHalves(x: nat)
    requires x > 1
    ensures IsPower(x) <==> x % 2 == 0 && IsPower(x / 2)
  {
    if IsPower(x) {
      var k: nat :| x == Pow2(k);
      assert k > 0 && x == 2 * Pow2(k - 1);
    }
    if x % 2 == 0 && IsPower(x / 2) {
      var k: nat :| x / 2 == Pow2(k);
      assert x == Pow2(k + 1);
    }
  }

  /** `x & (x - 1)` clears the lowest set bit, so it is zero exactly for powers of two. */
  lemma {:induction false} PowerTest(x: nat)
    requires x > 0
    ensures BitAnd(x, x - 1) == 0 <==> IsPower(x)
  {
    if x == 1 {
      assert x == Pow2(0);
    } else if x % 2 == 1 {
      PowerHalves(x);
      assert (x - 1) / 2 == x / 2 && (x - 1) % 2 == 0;
      AndSelf(x / 2);
    } else {
      PowerHalves(x);
      PowerTest(x / 2);
      assert (x - 1) / 2 == x / 2 - 1;
      assert BitAnd(x, x - 1) == 2 * BitAnd(x / 2, x / 2 - 1);
    }
  }

  lemma {:induction false} AndOnes(x: nat, w: nat)
    requires x < Pow2(w)
    ensures BitAnd(x, Pow2(w) - 1) == x
    decreases w
  {
    if x != 0 {
      assert (Pow2(w) - 1) % 2 == 1 && (Pow2(w) - 1) / 2 == Pow2(w - 1) - 1;
      AndOnes(x / 2, w - 1);
    }
  }

  lemma DoubleProduct(q: nat, p: nat)
    ensures q * (2 * p) == 2 * (q * p)
  {
  }

  /** Masking with the complement of `2^k - 1` in a `w`-bit word rounds down to a multiple of 2^k. */
  lemma {:induction false} ClearLowBits(x: nat, k: nat, w: nat) returns (q: nat)
    requires k <= w && x < Pow2(w)
    ensures Pow2(k) <= Pow2(w)
    ensures BitAnd(x, Pow2(w) - Pow2(k)) == q * Pow2(k)
    ensures q * Pow2(k) <= x < q * Pow2(k) + Pow2(k)
    decreases w
  {
    if k < w { PowerGrows(k, w); }
    if k == w {
      q := 0;
    } else if k == 0 {
      AndOnes(x, w);
      q := x;
    } else {
      q := ClearLowBits(x / 2, k - 1, w - 1);
      AndEven(x, Pow2(w - 1) - Pow2(k - 1));
      DoubleBounds(x, q, Pow2(k - 1));
    }
  }

  /** Masking with an even mask masks the upper bits. */
  lemma AndEven(x: nat, half: nat)
    ensures BitAnd(x, 2 * half) == 2 * BitAnd(x / 2, half)
  {
  }

  lemma DoubleBounds(x: nat, q: nat, p: nat)
    requires q * p <= x / 2 < q * p + p
    ensures q * (2 * p) == 2 * (q * p) && q * (2 * p) <= x < q * (2 * p) + 2 * p
  {
    DoubleProduct(q, p);
  }
}
