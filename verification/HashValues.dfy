/** The stable text hash at two short texts, as numbers (xtask/fixtures/performance-peer.rs). */
module HashValues {
  import opened WideHash

  lemma EmptyPolynomial()
    ensures Polynomial([]) == 16_158_402_040_730_025_834_900_042_659_807
  {
    assert Power(MULTIPLIER, 1) == MULTIPLIER * Power(MULTIPLIER, 0);
  }

  /** Both programs hash the empty text to this number. */
  method EmptyText() returns (limbs: Wide, word: U128)
    ensures Number(limbs) == word == 16_158_402_040_730_025_834_900_042_659_807
  {
    EmptyPolynomial();
    limbs, word := HashesAgree([]);
  }

  lemma LetterPolynomial()
    ensures Polynomial([97]) % 0x7FFF_FFFF_FFFF_FFFF_FFFF_FFFF_FFFF_FFFF
            == 38_418_965_358_199_361_446_452_679_276_451_893_198
  {
    var bytes: seq<Byte> := [97];
    assert Power(MULTIPLIER, 1) == MULTIPLIER * Power(MULTIPLIER, 0);
    assert Power(MULTIPLIER, 2) == MULTIPLIER * Power(MULTIPLIER, 1);
    assert bytes[1..] == [] && Coefficients([]) == 0;
    assert Coefficients(bytes) == 97 * MULTIPLIER;
  }

  /** And the text "a" to this one. */
  method LetterText() returns (limbs: Wide, word: U128)
    ensures Number(limbs) == word == 38_418_965_358_199_361_446_452_679_276_451_893_198
  {
    LetterPolynomial();
    limbs, word := HashesAgree([97]);
  }
}
