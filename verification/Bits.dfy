/** Bitwise operators on machine words, defined bit by bit over naturals.
    Every word-level operator the sources use (shift, mask, and, or, clear lowest set bit)
    reduces to the functions below. */
module Bits {

  const B8: int := 0x100
  const B16: int := 0x1_0000
  const B24: int := 0x100_0000
  const B32: int := 0x1_0000_0000
  const B40: int := 0x100_0000_0000
  const B56: int := 0x100_0000_0000_0000
  const B64: int := 0x1_0000_0000_0000_0000
  const B128: int := 0x1_0000_0000_0000_0000_0000_0000_0000_0000
  const B256: int := 0x1_0000_0000_0000_0000_0000_0000_0000_0000_0000_0000_0000_0000_0000_0000_0000_0000

  type U64 = x: int | 0 <= x < B64

  function Min(a: nat, b: nat): nat { if a <= b then a else b }

  function Indicator(b: bool): nat { if b then 1 else 0 }

  function Pow2(k: nat): (r: nat)
    ensures r >= 1
  {
    if k == 0 then 1 else 2 * Pow2(k - 1)
  }

  /** The bit of weight 2^i. */
  predicate Bit(w: nat, i: nat) {
    if i == 0 then w % 2 == 1 else Bit(w / 2, i - 1)
  }

  function And(a: nat, b: nat): nat {
    if a == 0 || b == 0 then 0
    else (if a % 2 == 1 && b % 2 == 1 then 1 else 0) + 2 * And(a / 2, b / 2)
  }

  function Or(a: nat, b: nat): nat {
    if a == 0 then b
    else (if a % 2 == 1 || b % 2 == 1 then 1 else 0) + 2 * Or(a / 2, b / 2)
  }

  lemma {:induction false} ZeroHasNoBits(i: nat)
    ensures !Bit(0, i)
  {
    if i > 0 { ZeroHasNoBits(i - 1); }
  }

  lemma {:induction false} AndBit(a: nat, b: nat, i: nat)
    ensures Bit(And(a, b), i) == (Bit(a, i) && Bit(b, i))
  {
    if a == 0 || b == 0 {
      ZeroHasNoBits(i);
    } else if i > 0 {
      AndBit(a / 2, b / 2, i - 1);
      assert And(a, b) / 2 == And(a / 2, b / 2);
    }
  }

  lemma {:induction false} OrBit(a: nat, b: nat, i: nat)
    ensures Bit(Or(a, b), i) == (Bit(a, i) || Bit(b, i))
  {
    if a == 0 {
      ZeroHasNoBits(i);
    } else if i > 0 {
      OrBit(a / 2, b / 2, i - 1);
      assert Or(a, b) / 2 == Or(a / 2, b / 2);
    }
  }

  /** `1 << k` has exactly one bit. */
  lemma {:induction false} Pow2Bit(k: nat, i: nat)
    ensures Bit(Pow2(k), i) == (i == k)
  {
    if k == 0 {
      if i > 0 { ZeroHasNoBits(i - 1); }
    } else if i > 0 {
      assert Pow2(k) / 2 == Pow2(k - 1);
      Pow2Bit(k - 1, i - 1);
    }
  }

  lemma {:induction false} Pow2Add(a: nat, b: nat)
    ensures Pow2(a + b) == Pow2(a) * Pow2(b)
  {
    if a > 0 {
      Pow2Add(a - 1, b);
      assert Pow2(a + b) == 2 * Pow2(a - 1 + b) == 2 * (Pow2(a - 1) * Pow2(b)) == Pow2(a) * Pow2(b);
    }
  }

  lemma {:induction false} Pow2Mono(a: nat, b: nat)
    requires a <= b
    ensures Pow2(a) <= Pow2(b)
  {
    if a < b { Pow2Mono(a, b - 1); }
  }

  /** Shifting right then testing the lowest bit reads bit i. */
  lemma {:induction false} BitByShift(w: nat, i: nat)
    ensures Bit(w, i) == ((w / Pow2(i)) % 2 == 1)
  {
    if i > 0 {
      BitByShift(w / 2, i - 1);
      DivDiv(w, 2, Pow2(i - 1));
    }
  }

  /** Signed division of the source language: truncation toward zero. */
  function TruncDiv(x: int, d: int): int
    requires d > 0
  {
    if x >= 0 then x / d else -((-x) / d)
  }

  lemma DivDiv(x: nat, a: nat, b: nat)
    requires a > 0 && b > 0
    ensures a * b > 0
    ensures (x / a) / b == x / (a * b)
  {
    var q := (x / a) / b;
    var r := (x / a) % b;
    var s := x % a;
    assert x == a * (b * q + r) + s;
    assert a * (b * q + r) == (a * b) * q + a * r by { MulAssoc(a, b, q, r); }
    assert 0 <= a * r <= a * (b - 1) by { MulLe(r, b - 1, a); MulLe(0, r, a); }
    assert a * (b - 1) == a * b - a by { MulAssoc(a, 1, b, -1); }
    assert 0 <= a * r + s < a * b;
    DivUnique(x, a * b, q, a * r + s);
  }

  lemma MulAssoc(a: int, b: int, q: int, r: int)
    ensures a * (b * q + r) == (a * b) * q + a * r
  {
    assert a * (b * q) == (a * b) * q;
  }

  lemma MulLe(x: int, y: int, k: int)
    requires x <= y && 0 <= k
    ensures k * x <= k * y
    ensures x * k <= y * k
  {
    assert k * (y - x) >= 0;
  }

  /** The floor quotient is the only quotient whose remainder is in range. */
  lemma DivUnique(x: int, d: int, q: int, r: int)
    requires d > 0 && x == d * q + r && 0 <= r < d
    ensures x / d == q && x % d == r
  {
    var q' := x / d;
    assert x == d * q' + x % d;
    if q' < q {
      assert d * (q - q') >= d by { MulLe(1, q - q', d); }
      assert false;
    } else if q' > q {
      assert d * (q' - q) >= d by { MulLe(1, q' - q, d); }
      assert false;
    }
  }

  lemma CancelFactor(x: int, y: int, k: int)
    requires k > 0 && x * k <= y * k
    ensures x <= y
  {
    if x > y {
      MulLe(y + 1, x, k);
      assert false;
    }
  }

  lemma QuotientBounds(num: nat, den: nat)
    requires den > 0
    ensures (num / den) * den <= num < (num / den) * den + den
  {
  }

  lemma QuotientAtLeast(num: nat, den: nat, q: nat)
    requires den > 0 && q * den <= num
    ensures q <= num / den
  {
    if num / den < q {
      MulLe(num / den + 1, q, den);
      assert false;
    }
  }

  lemma QuotientAtMost(num: nat, den: nat, q: nat)
    requires den > 0 && num < q * den + den
    ensures num / den <= q
  {
    if q < num / den {
      MulLe(q + 1, num / den, den);
      assert false;
    }
  }

  /** Masking with `2^k - 1` is the remainder by 2^k: the ring index `cursor & (N - 1)`. */
  lemma MaskIsMod(w: nat, k: nat)
    ensures And(w, Pow2(k) - 1) == w % Pow2(k)
  {
    MaskBelow(w, k, Pow2(k));
  }

  lemma {:induction false} MaskBelow(w: nat, k: nat, m: nat)
    requires m == Pow2(k)
    ensures And(w, m - 1) == w % m
  {
    if k == 0 {
      DivUnique(w, 1, w, 0);
    } else {
      var h := Pow2(k - 1);
      MaskBelow(w / 2, k - 1, h);
      AndOdd(w, m - 1, h - 1);
      RemainderByTwice(w, h);
    }
  }

  lemma AndOdd(w: nat, m: nat, h: nat)
    requires m == 2 * h + 1
    ensures And(w, m) == 2 * And(w / 2, h) + w % 2
  {
    assert m / 2 == h && m % 2 == 1;
  }

  lemma RemainderByTwice(w: nat, h: nat)
    requires h > 0
    ensures w % (2 * h) == 2 * (w / 2 % h) + w % 2
  {
    var q, r := (w / 2) / h, (w / 2) % h;
    MulAssoc(2, h, q, r);
    DivUnique(w, 2 * h, q, 2 * r + w % 2);
  }

  /** Oring in a bit that is clear adds its weight. */
  lemma {:induction false} OrFreshBit(w: nat, i: nat)
    requires !Bit(w, i)
    ensures Or(w, Pow2(i)) == w + Pow2(i)
  {
    if w == 0 {
    } else if i == 0 {
      assert Or(w / 2, 0) == w / 2 by { OrZero(w / 2); }
    } else {
      OrFreshBit(w / 2, i - 1);
      assert Pow2(i) % 2 == 0 && Pow2(i) / 2 == Pow2(i - 1);
    }
  }

  /** Oring in a bit that is set changes nothing. */
  lemma {:induction false} OrSetBit(w: nat, i: nat)
    requires Bit(w, i)
    ensures Or(w, Pow2(i)) == w
  {
    if w == 0 {
      ZeroHasNoBits(i);
    } else if i == 0 {
      assert Or(w / 2, 0) == w / 2 by { OrZero(w / 2); }
    } else {
      OrSetBit(w / 2, i - 1);
      assert Pow2(i) % 2 == 0 && Pow2(i) / 2 == Pow2(i - 1);
    }
  }

  lemma {:induction false} OrZero(w: nat)
    ensures Or(w, 0) == w
  {
    if w > 0 { OrZero(w / 2); }
  }

  /** A word below 2^k has no bit at or above k. */
  lemma {:induction false} SmallHasNoHighBits(w: nat, k: nat, i: nat)
    requires w < Pow2(k) && k <= i
    ensures !Bit(w, i)
  {
    if k == 0 {
      ZeroHasNoBits(i);
    } else {
      SmallHasNoHighBits(w / 2, k - 1, i - 1);
    }
  }

  // The sizes of machine words.

  lemma DoublePow(k: nat)
    ensures Pow2(k + k) == Pow2(k) * Pow2(k)
  {
    Pow2Add(k, k);
  }

  lemma PowAt(k: nat)
    ensures k == 16 ==> Pow2(k) == 0x1_0000
    ensures k == 64 ==> Pow2(k) == B64
    ensures k == 128 ==> Pow2(k) == B128
    ensures k == 256 ==> Pow2(k) == B256
    decreases k
  {
    if k == 16 {
      assert Pow2(4) == 16;
      DoublePow(4);
      DoublePow(8);
    } else if k == 64 {
      PowAt(16);
      DoublePow(16);
      DoublePow(32);
    } else if k == 128 {
      PowAt(64);
      DoublePow(64);
    } else if k == 256 {
      PowAt(128);
      DoublePow(128);
    }
  }
}
