/** Slot indices of power-of-two rings: `cursor & (N - 1)`. */
module RingIndex {
  import opened Bits

  function Index(cursor: nat, bits: nat): (i: nat)
    ensures i == cursor % Pow2(bits) < Pow2(bits)
  {
    MaskIsMod(cursor, bits);
    And(cursor, Pow2(bits) - 1)
  }

  /** Cursors less than a lap apart use different slots. */
  lemma DistinctSlots(a: nat, b: nat, bits: nat)
    requires a < b < a + Pow2(bits)
    ensures Index(a, bits) != Index(b, bits)
  {
    ModApart(a, b, Pow2(bits));
  }

  lemma ModApart(a: nat, b: nat, n: nat)
    requires n > 0 && a < b < a + n
    ensures a % n != b % n
  {
    if a % n == b % n {
      var d := b / n - a / n;
      assert b - a == n * d;
      if d >= 1 { MulLe(1, d, n); } else { MulLe(d, 0, n); }
      assert false;
    }
  }
}
