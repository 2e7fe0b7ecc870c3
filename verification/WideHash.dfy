/**
  * The stable text hash of the performance peers: two 64-bit limbs in C++
  * (xtask/fixtures/performance-peer.cpp) and 128-bit integers in Rust
  * (xtask/fixtures/performance-peer.rs), both computing one polynomial modulo 2^127 - 1 by
  * double-and-add. Machine words are naturals; wrap-around is written out.
  */
module WideHash {

  const WORD: nat := 0x1_0000_0000_0000_0000
  const MODULUS: nat := 0x7FFF_FFFF_FFFF_FFFF_FFFF_FFFF_FFFF_FFFF
  const INITIAL: nat := 14_695_981_039_346_656_037
  const MULTIPLIER: nat := 1_099_511_628_211

  type U64 = x: nat | x < 0x1_0000_0000_0000_0000
  type U128 = x: nat | x < 0x1_0000_0000_0000_0000_0000_0000_0000_0000
  type Byte = x: nat | x < 256

  // ------------------------------------------------------------------ the polynomial

  function Power(k: nat, n: nat): nat {
    if n == 0 then 1 else k * Power(k, n - 1)
  }

  /** The bytes as coefficients of descending powers, the last one being the first power. */
  function Coefficients(bytes: seq<Byte>): nat {
    if bytes == [] then 0 else bytes[0] * Power(MULTIPLIER, |bytes|) + Coefficients(bytes[1..])
  }

  /** The exact, unreduced value whose residue is the hash. */
  function Polynomial(bytes: seq<Byte>): nat {
    (INITIAL + |bytes|) * Power(MULTIPLIER, |bytes| + 1) + Coefficients(bytes)
  }

  /** The same value computed one byte at a time from a start value. */
  function Horner(start: nat, bytes: seq<Byte>): nat {
    if bytes == [] then start else (Horner(start, bytes[..|bytes| - 1]) + bytes[|bytes| - 1]) * MULTIPLIER
  }

  lemma {:induction false} CoefficientsAppend(bytes: seq<Byte>, b: Byte)
    ensures Coefficients(bytes + [b]) == (Coefficients(bytes) + b) * MULTIPLIER
  {
    if bytes == [] {
      assert [] + [b] == [b] && [b][1..] == [];
      assert Power(MULTIPLIER, 1) == MULTIPLIER * Power(MULTIPLIER, 0);
    } else {
      assert (bytes + [b])[1..] == bytes[1..] + [b];
      CoefficientsAppend(bytes[1..], b);
      var n := |bytes|;
      assert Power(MULTIPLIER, n + 1) == MULTIPLIER * Power(MULTIPLIER, n);
      ShiftTerm(bytes[0], Power(MULTIPLIER, n), Coefficients(bytes[1..]) + b);
    }
  }

  lemma ShiftTerm(c: nat, p: nat, rest: nat)
    ensures c * (MULTIPLIER * p) + rest * MULTIPLIER == (c * p + rest) * MULTIPLIER
  {
  }

  lemma {:induction false} HornerExpands(start: nat, bytes: seq<Byte>)
    ensures Horner(start, bytes) == start * Power(MULTIPLIER, |bytes|) + Coefficients(bytes)
  {
    if bytes != [] {
      var front, last := bytes[..|bytes| - 1], bytes[|bytes| - 1];
      HornerExpands(start, front);
      assert bytes == front + [last];
      CoefficientsAppend(front, last);
      ShiftTerm(start, Power(MULTIPLIER, |front|), Coefficients(front) + last);
    }
  }

  lemma HornerIsPolynomial(bytes: seq<Byte>)
    ensures Horner((INITIAL + |bytes|) * MULTIPLIER, bytes) == Polynomial(bytes)
  {
    var base := INITIAL + |bytes|;
    HornerExpands(base * MULTIPLIER, bytes);
    Associate(base, MULTIPLIER, Power(MULTIPLIER, |bytes|));
  }

  lemma Associate(a: nat, b: nat, c: nat)
    ensures (a * b) * c == a * (b * c)
  {
  }

  // ------------------------------------------------------------------ residues

  ghost predicate Congruent(a: int, b: int) {
    a % MODULUS == b % MODULUS
  }

  lemma CongruentShift(a: int, k: int)
    ensures Congruent(a + k * MODULUS, a)
  {
  }

  lemma CongruentSum(a: int, b: int, c: int, d: int)
    requires Congruent(a, b) && Congruent(c, d)
    ensures Congruent(a + c, b + d)
  {
  }

  lemma CongruentProduct(a: int, b: int, k: int)
    requires Congruent(a, b)
    ensures Congruent(a * k, b * k)
  {
    var q := a / MODULUS - b / MODULUS;
    assert a == b + q * MODULUS;
    assert a * k == b * k + (q * k) * MODULUS by { Distribute(b, q, k); }
    CongruentShift(b * k, q * k);
  }

  lemma Distribute(b: int, q: int, k: int)
    ensures (b + q * MODULUS) * k == b * k + (q * k) * MODULUS
  {
  }

  /** One doubling step keeps `product + factor * multiplier` modulo the modulus. */
  lemma DoubleStep(product: nat, factor: nat, right: nat, product': nat, factor': nat)
    requires right > 0
    requires product' == if right % 2 == 1 then (product + factor) % MODULUS else product
    requires factor' == (factor + factor) % MODULUS
    ensures Congruent(product' + factor' * (right / 2), product + factor * right)
  {
    var half := right / 2;
    CongruentProduct(factor', factor + factor, half);
    var odd := if right % 2 == 1 then factor else 0;
    assert Congruent(product', product + odd);
    CongruentSum(product', product + odd, factor' * half, (factor + factor) * half);
    assert factor * right == odd + (factor + factor) * half by {
      if right % 2 == 1 { assert right == 1 + 2 * half; } else { assert right == 2 * half; }
      Halve(factor, half);
    }
  }

  /** What the double-and-add loop still makes of its state. */
  ghost function DoubleAndAdd(product: nat, factor: nat, right: nat): nat
    decreases right
  {
    if right == 0 then product
    else
      var product' := if right % 2 == 1 then (product + factor) % MODULUS else product;
      DoubleAndAdd(product', (factor + factor) % MODULUS, right / 2)
  }

  /** It is the residue of the product. */
  lemma {:induction false} DoubleAndAddMultiplies(product: nat, factor: nat, right: nat)
    requires product < MODULUS
    ensures DoubleAndAdd(product, factor, right) == (product + factor * right) % MODULUS
    decreases right
  {
    if right == 0 {
      ReducedSum(product, 0);
    } else {
      var product' := if right % 2 == 1 then (product + factor) % MODULUS else product;
      var factor' := (factor + factor) % MODULUS;
      DoubleAndAddMultiplies(product', factor', right / 2);
      DoubleStep(product, factor, right, product', factor');
    }
  }

  lemma ReducedSum(a: nat, b: nat)
    requires a < MODULUS && b < MODULUS
    ensures (a + b) % MODULUS == if a + b < MODULUS then a + b else a + b - MODULUS
  {
  }

  lemma Halve(f: int, h: int)
    ensures f * (2 * h) == (f + f) * h && f * (1 + 2 * h) == f + (f + f) * h
  {
  }

  // ------------------------------------------------------------------ C++: two limbs

  datatype Wide = Wide(high: U64, low: U64)

  function Number(w: Wide): nat {
    w.high * WORD + w.low
  }

  const WIDE_MODULUS := Wide(0x7FFF_FFFF_FFFF_FFFF, 0xFFFF_FFFF_FFFF_FFFF)

  lemma WrapOnce(x: int)
    requires 0 - WORD <= x < 2 * WORD
    ensures x % WORD == if x < 0 then x + WORD else if x < WORD then x else x - WORD
  {
  }

  predicate Less(left: Wide, right: Wide)
    ensures Less(left, right) <==> Number(left) < Number(right)
  {
    left.high < right.high || (left.high == right.high && left.low < right.low)
  }

  /** Unsigned arithmetic wraps in each limb; the borrow is taken from the comparison of the low limbs. */
  function Subtract(left: Wide, right: Wide): (w: Wide)
    ensures Number(right) <= Number(left) ==> Number(w) == Number(left) - Number(right)
  {
    var borrow := if left.low < right.low then 1 else 0;
    WrapOnce(left.low - right.low);
    WrapOnce(left.high - right.high - borrow);
    Wide((left.high - right.high - borrow) % WORD, (left.low - right.low) % WORD)
  }

  /** The carry is seen as a low limb smaller than its summand. */
  function Add(left: Wide, right: Wide): (w: Wide)
    ensures Number(left) + Number(right) < WORD * WORD ==> Number(w) == Number(left) + Number(right)
  {
    var low := (left.low + right.low) % WORD;
    var carry := if low < left.low then 1 else 0;
    WrapOnce(left.low + right.low);
    WrapOnce(left.high + right.high + carry);
    Wide((left.high + right.high + carry) % WORD, low)
  }

  function AddModulo(left: Wide, right: Wide): (w: Wide)
    requires Number(left) < MODULUS && Number(right) < MODULUS
    ensures Number(w) == (Number(left) + Number(right)) % MODULUS
  {
    var remaining := Subtract(WIDE_MODULUS, right);
    assert Number(WIDE_MODULUS) == MODULUS;
    assert Number(remaining) == MODULUS - Number(right);
    ReducedSum(Number(left), Number(right));
    if !Less(left, remaining) then Subtract(left, remaining) else Add(left, right)
  }

  method MultiplyModulo(left: Wide, right0: U64) returns (product: Wide)
    requires Number(left) < MODULUS
    ensures Number(product) == (Number(left) * right0) % MODULUS
  {
    var factor, right := left, right0;
    product := Wide(0, 0);
    while right > 0
      invariant Number(product) < MODULUS && Number(factor) < MODULUS
      invariant DoubleAndAdd(Number(product), Number(factor), right) == DoubleAndAdd(0, Number(left), right0)
    {
      if right % 2 == 1 {
        product := AddModulo(product, factor);
      }
      factor := AddModulo(factor, factor);
      right := right / 2;
    }
    DoubleAndAddMultiplies(0, Number(left), right0);
  }

  /** One round of the hash. */
  method Absorb(state: Wide, amount: U64) returns (next: Wide)
    requires Number(state) < MODULUS
    ensures Number(next) == ((Number(state) + amount) % MODULUS * MULTIPLIER) % MODULUS
  {
    assert Number(Wide(0, amount)) == amount;
    var sum := AddModulo(state, Wide(0, amount));
    next := MultiplyModulo(sum, MULTIPLIER);
  }

  /** The hash state after the length and `prefix` have been absorbed. */
  ghost predicate Hashed(state: nat, length: nat, prefix: seq<Byte>) {
    state < MODULUS && Congruent(state, Horner((INITIAL + length) * MULTIPLIER, prefix))
  }

  lemma HashStart(length: nat, state: nat)
    requires state == ((INITIAL + length) % MODULUS * MULTIPLIER) % MODULUS
    ensures Hashed(state, length, [])
  {
    CongruentProduct((INITIAL + length) % MODULUS, INITIAL + length, MULTIPLIER);
  }

  lemma HashStep(value: seq<Byte>, i: nat, before: nat, after: nat)
    requires i < |value| && Hashed(before, |value|, value[..i])
    requires after == ((before + value[i]) % MODULUS * MULTIPLIER) % MODULUS
    ensures Hashed(after, |value|, value[..i + 1])
  {
    assert value[..i + 1][..i] == value[..i];
    AbsorbedCongruent(before, Horner((INITIAL + |value|) * MULTIPLIER, value[..i]), value[i]);
  }

  lemma AbsorbedCongruent(before: nat, exact: nat, amount: nat)
    requires Congruent(before, exact)
    ensures Congruent(((before + amount) % MODULUS * MULTIPLIER) % MODULUS, (exact + amount) * MULTIPLIER)
  {
    CongruentSum(before, exact, amount, amount);
    CongruentProduct((before + amount) % MODULUS, exact + amount, MULTIPLIER);
  }

  lemma HashDone(value: seq<Byte>, state: nat)
    requires Hashed(state, |value|, value[..|value|])
    ensures state == Polynomial(value) % MODULUS
  {
    assert value[..|value|] == value;
    HornerIsPolynomial(value);
  }

  method StableHash(value: seq<Byte>) returns (state: Wide)
    requires |value| < WORD
    ensures Number(state) == Polynomial(value) % MODULUS
  {
    assert Number(Wide(0, INITIAL)) == INITIAL;
    state := Absorb(Wide(0, INITIAL), |value|);
    HashStart(|value|, Number(state));
    for i := 0 to |value|
      invariant Hashed(Number(state), |value|, value[..i])
    {
      ghost var before := Number(state);
      state := Absorb(state, value[i]);
      HashStep(value, i, before, Number(state));
    }
    HashDone(value, Number(state));
  }

  // ------------------------------------------------------------------ Rust: one 128-bit word

  lemma ProductOfResidue(residue: nat, left: nat, right: nat)
    requires residue == left % MODULUS
    ensures (residue * right) % MODULUS == (left * right) % MODULUS
  {
    CongruentProduct(residue, left, right);
  }

  lemma SumOfResidues(a: nat, b: nat)
    ensures (a % MODULUS + b % MODULUS) % MODULUS == (a + b) % MODULUS
  {
    CongruentSum(a % MODULUS, a, b % MODULUS, b);
  }

  function AddModulo128(left: U128, right: U128): (r: U128)
    ensures r == (left + right) % MODULUS
  {
    var reducedLeft, reducedRight := left % MODULUS, right % MODULUS;
    ReducedSum(reducedLeft, reducedRight);
    SumOfResidues(left, right);
    var remaining := MODULUS - reducedRight;
    if reducedLeft >= remaining then reducedLeft - remaining else reducedLeft + reducedRight
  }

  method MultiplyModulo128(left: U128, right: U128) returns (product: U128)
    ensures product == (left * right) % MODULUS
  {
    var factor: U128, multiplier := left % MODULUS, right;
    product := 0;
    ghost var residue := factor;
    while multiplier > 0
      invariant product < MODULUS
      invariant DoubleAndAdd(product, factor, multiplier) == DoubleAndAdd(0, residue, right)
    {
      if multiplier % 2 == 1 {
        product := AddModulo128(product, factor);
      }
      factor := AddModulo128(factor, factor);
      multiplier := multiplier / 2;
    }
    DoubleAndAddMultiplies(0, residue, right);
    ProductOfResidue(residue, left, right);
  }

  method Absorb128(state: U128, amount: U128) returns (next: U128)
    ensures next == ((state + amount) % MODULUS * MULTIPLIER) % MODULUS
  {
    var sum := AddModulo128(state, amount);
    next := MultiplyModulo128(sum, MULTIPLIER);
  }

  method StableHash128(value: seq<Byte>) returns (state: U128)
    requires |value| < WORD
    ensures state == Polynomial(value) % MODULUS
  {
    state := Absorb128(INITIAL, |value|);
    HashStart(|value|, state);
    for i := 0 to |value|
      invariant Hashed(state, |value|, value[..i])
    {
      ghost var before := state;
      state := Absorb128(state, value[i]);
      HashStep(value, i, before, state);
    }
    HashDone(value, state);
  }

  /** The two implementations agree on every text. */
  method HashesAgree(value: seq<Byte>) returns (limbs: Wide, word: U128)
    requires |value| < WORD
    ensures Number(limbs) == word == Polynomial(value) % MODULUS
  {
    limbs := StableHash(value);
    word := StableHash128(value);
  }
}
