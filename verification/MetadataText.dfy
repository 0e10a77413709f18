/** How a number gets into a metadata record: printed in decimal, cut to the nine characters the buffer holds, read back. */
module MetadataText {
  import opened CTypes
  import opened DiskModel
  import opened IoText

  function Ten(k: nat): (n: nat)
    ensures n > 0
  {
    if k == 0 then 1 else 10 * Ten(k - 1)
  }

  /** A number has `k` digits or fewer exactly when it is below the power of ten. */
  lemma {:induction false} DecimalLength(n: nat, k: nat)
    requires k > 0
    ensures |Decimal(n)| <= k <==> n < Ten(k)
  {
    if n >= 10 && k > 1 {
      DecimalLength(n / 10, k - 1);
    } else if n >= 10 {
      assert Ten(1) == 10 * Ten(0);
    } else {
      assert Ten(k) == 10 * Ten(k - 1);
    }
  }

  /** What is stored is what the first nine characters of the decimal form spell. */
  lemma StoredIs(v: u32)
    ensures Stored(v) == DigitsValue(Decimal(v)[..Min(9, |Decimal(v)|)])
  {
    assert Ten(9) == LIMIT by { Tens(); }
    var s := Decimal(v);
    DecimalLength(v, 9);
    if v < LIMIT {
      DecimalValue(v);
      assert s[..|s|] == s;
    } else {
      Tens();
      DecimalLength(v, 10);
      DecimalValue(v / 10);
      assert s[..9] == Decimal(v / 10);
    }
  }

  lemma Tens()
    ensures Ten(8) == 100_000_000 && Ten(9) == 1_000_000_000 && Ten(10) == 10_000_000_000
  {
    assert Ten(4) == 10_000;
  }
}
