/** The stack-allocated 256-bit unsigned integer of the Stableswap solver: two 128-bit limbs.
    Arithmetic follows the release profile, in which limb operations wrap. */
module Uint256 {
  import opened Bits

  const H128: int := 0x8000_0000_0000_0000_0000_0000_0000_0000

  type U128 = x: int | 0 <= x < B128

  datatype U256 = U256(hi: U128, lo: U128) {

    function Value(): (v: nat)
      ensures v < B256
    {
      hi * B128 + lo
    }

    predicate IsZero() { hi == 0 && lo == 0 }

    /** Derived lexicographic order: high limb first. */
    predicate Less(other: U256) {
      hi < other.hi || (hi == other.hi && lo < other.lo)
    }

    function Add(other: U256): (r: U256)
      ensures r.Value() == (Value() + other.Value()) % B256
    {
      var carry := if lo + other.lo >= B128 then 1 else 0;
      var r := U256((hi + other.hi + carry) % B128, (lo + other.lo) % B128);
      AddLimbs(this, other, r);
      r
    }

    function Sub(other: U256): (r: U256)
      ensures r.Value() == (Value() - other.Value()) % B256
    {
      var borrow := if lo < other.lo then 1 else 0;
      var r := U256((hi - other.hi - borrow) % B128, (lo - other.lo) % B128);
      SubLimbs(this, other, r);
      r
    }

    function MulU128(other: U128): (r: U256)
      ensures r.Value() == (Value() * other) % B256
    {
      var (low, top) := FullProduct(lo, other);
      var r := U256((top + (hi * other) % B128) % B128, low);
      LowTerm(this, other, low, top, r);
      r
    }

    function Mul(other: U256): (r: U256)
      ensures r.Value() == (Value() * other.Value()) % B256
    {
      var res := MulU128(other.lo);
      var r := U256((res.hi + (lo * other.hi) % B128) % B128, res.lo);
      MulLimbs(this, other, res, r);
      r
    }

    function ShiftLeft1(): (r: U256)
      ensures r.lo % 2 == 0
      ensures Value() < B256 / 2 ==> r.Value() == 2 * Value()
    {
      DoubledLimb(lo);
      DoubledLimb(hi);
      OrLowBit((2 * hi) % B128, lo / H128);
      var r := U256(Or((2 * hi) % B128, lo / H128), (2 * lo) % B128);
      ShiftedValue(this, r);
      r
    }

    /** The remainder shifted left with the next dividend bit or-ed into its low limb. */
    function BringDown(bit: bool): (r: U256)
      ensures Value() < B256 / 2 ==> r.Value() == 2 * Value() + if bit then 1 else 0
    {
      var shifted := ShiftLeft1();
      if !bit then shifted
      else
        OrLowBit(shifted.lo, 1);
        shifted.(lo := Or(shifted.lo, 1))
    }

    predicate GetBit(bit: nat)
      requires bit < 256
    {
      if bit < 128 then (lo / Pow2(bit)) % 2 == 1 else (hi / Pow2(bit - 128)) % 2 == 1
    }

    /** `|= 1 << bit` on the limb that holds the bit. */
    function SetBit(bit: nat): (r: U256)
      requires bit < 256
      ensures r.Value() == if GetBit(bit) then Value() else Value() + Pow2(bit)
    {
      if bit < 128 then
        LimbBitFits(lo, bit);
        U256(hi, Or(lo, Pow2(bit)))
      else
        LimbBitFits(hi, bit - 128);
        PowLimb(bit - 128);
        U256(Or(hi, Pow2(bit - 128)), lo)
    }

    /** The pass for bit i: bring the bit down, and subtract and set the quotient bit when the divisor
        fits. `high` is the quotient of the bits above. */
    method DivPass(other: U256, i: nat, remainder: U256, q: U256, ghost high: nat)
        returns (remainder': U256, q': U256, ghost high': nat)
      requires i < 256 && remainder.Value() < other.Value()
      requires Value() / Pow2(i + 1) == high * other.Value() + remainder.Value()
      requires q.Value() == high * Pow2(i + 1)
      ensures remainder'.Value() < other.Value()
      ensures Value() / Pow2(i) == high' * other.Value() + remainder'.Value()
      ensures q'.Value() == high' * Pow2(i)
    {
      LongDivisionStep(this, other, q, remainder, high, i);
      remainder', q', high' := remainder.BringDown(GetBit(i)), q, 2 * high;
      LessIsValueOrder(remainder', other);
      if !remainder'.Less(other) {
        SubExact(remainder', other);
        DistributeOne(high', other.Value());
        DistributeOne(high', Pow2(i));
        remainder' := remainder'.Sub(other);
        q' := q'.SetBit(i);
        high' := high' + 1;
      }
    }

    /** Bit by bit long division. A zero divisor panics. */
    method Div(other: U256) returns (q: U256)
      requires !other.IsZero()
      ensures q.Value() == Value() / other.Value()
    {
      LessIsValueOrder(this, other);
      if Less(other) {
        DivUnique(Value(), other.Value(), 0, Value());
        return U256(0, 0);
      }
      if other == One {
        return this;
      }
      var remainder := U256(0, 0);
      q := U256(0, 0);
      ghost var high: nat := 0;
      var i := 256;
      PowWord();
      DivUnique(Value(), B256, 0, Value());
      while i > 0
        invariant 0 <= i <= 256
        invariant Value() / Pow2(i) == high * other.Value() + remainder.Value()
        invariant q.Value() == high * Pow2(i)
        invariant remainder.Value() < other.Value()
      {
        i := i - 1;
        remainder, q, high := DivPass(other, i, remainder, q, high);
      }
      assert Value() / 1 == Value();
      MulLe(0, high, other.Value());
      DivUnique(Value(), other.Value(), high, remainder.Value());
    }
  }

  const One := U256(0, 1)

  function FromU128(v: U128): (r: U256)
    ensures r.Value() == v
  {
    U256(0, v)
  }

  /** 128 x 128 -> 256 by 64-bit halves: the low limb, and the not yet wrapped high part made of
      the top product, the middle sum's upper half with its carry, and the carry out of the low limb. */
  function FullProduct(x: U128, y: U128): (r: (U128, nat))
    ensures x * y == r.0 + r.1 * B128
  {
    var xLo, xHi, yLo, yHi := x % B64, x / B64, y % B64, y / B64;
    HalfProducts(xLo, xHi, yLo, yHi);
    SplitProduct(xLo, xHi, yLo, yHi);
    var p0, p1, p2, p3 := xLo * yLo, xLo * yHi, xHi * yLo, xHi * yHi;
    SumHalves(p0, p1 + p2, p3)
  }

  function SumHalves(p0: nat, m: nat, p3: nat): (r: (U128, nat))
    requires p0 < B128 && m < 2 * B128
    ensures p0 + m * B64 + p3 * B128 == r.0 + r.1 * B128
  {
    Carried(m, B128);
    var mid := m % B128;
    Carried(p0 + (mid % B64) * B64, B128);
    var midHi := mid / B64 + if m >= B128 then B64 else 0;
    var low := p0 + (mid % B64) * B64;
    (low % B128, p3 + midHi + if low >= B128 then 1 else 0)
  }

  lemma ModSmall(x: nat, m: nat)
    requires m > 0
    ensures x % m == x <==> x < m
  {
    if x < m { DivUnique(x, m, 0, x); }
  }

  /** `mul` is exact exactly when the true product fits in 256 bits. */
  lemma MulExactIff(a: U256, b: U256)
    ensures a.Mul(b).Value() == a.Value() * b.Value() <==> a.Value() * b.Value() < B256
  {
    var r := a.Mul(b).Value();
    MulLe(0, b.Value(), a.Value());
    ModSmall(a.Value() * b.Value(), B256);
  }

  lemma AddExact(a: U256, b: U256)
    requires a.Value() + b.Value() < B256
    ensures a.Add(b).Value() == a.Value() + b.Value()
  {
    ModSmall(a.Value() + b.Value(), B256);
  }

  lemma SubExact(a: U256, b: U256)
    requires a.Value() >= b.Value()
    ensures a.Sub(b).Value() == a.Value() - b.Value()
  {
    ModSmall(a.Value() - b.Value(), B256);
  }

  lemma MulExact(a: U256, b: U256, p: int)
    requires a.Value() * b.Value() == p < B256
    ensures a.Mul(b).Value() == p
  {
    MulExactIff(a, b);
  }

  lemma AddLimbs(a: U256, b: U256, r: U256)
    requires r.lo == (a.lo + b.lo) % B128
    requires r.hi == (a.hi + b.hi + if a.lo + b.lo >= B128 then 1 else 0) % B128
    ensures r.Value() == (a.Value() + b.Value()) % B256
  {
    Carried(a.lo + b.lo, B128);
    Carried(a.hi + b.hi + if a.lo + b.lo >= B128 then 1 else 0, B128);
    Carried(a.Value() + b.Value(), B256);
  }

  lemma Carried(x: int, m: int)
    requires m > 0 && 0 <= x < 2 * m
    ensures x % m == if x < m then x else x - m
  {
    if x < m { DivUnique(x, m, 0, x); } else { DivUnique(x, m, 1, x - m); }
  }

  lemma Wrapped(x: int, m: int)
    requires m > 0 && -m <= x < m
    ensures x % m == if x < 0 then x + m else x
  {
    if x < 0 { DivUnique(x, m, -1, x + m); } else { DivUnique(x, m, 0, x); }
  }

  lemma SubLimbs(a: U256, b: U256, r: U256)
    requires r.lo == (a.lo - b.lo) % B128
    requires r.hi == (a.hi - b.hi - if a.lo < b.lo then 1 else 0) % B128
    ensures r.Value() == (a.Value() - b.Value()) % B256
  {
    Wrapped(a.lo - b.lo, B128);
    Wrapped(a.hi - b.hi - if a.lo < b.lo then 1 else 0, B128);
    Wrapped(a.Value() - b.Value(), B256);
  }

  /** The four half-limb products stay below 2^128, with room for a carry. */
  lemma HalfProducts(x0: int, x1: int, y0: int, y1: int)
    requires 0 <= x0 < B64 && 0 <= x1 < B64 && 0 <= y0 < B64 && 0 <= y1 < B64
    ensures 0 <= x0 * y0 <= B128 - 2 * B64 + 1 && 0 <= x0 * y1 <= B128 - 2 * B64 + 1
    ensures 0 <= x1 * y0 <= B128 - 2 * B64 + 1 && 0 <= x1 * y1 <= B128 - 2 * B64 + 1
  {
    ProductBound(x0, y0);
    ProductBound(x0, y1);
    ProductBound(x1, y0);
    ProductBound(x1, y1);
  }

  lemma ProductBound(x: int, y: int)
    requires 0 <= x < B64 && 0 <= y < B64
    ensures 0 <= x * y <= B128 - 2 * B64 + 1
  {
    MulLe(0, y, x);
    MulLe(y, B64 - 1, x);
  }

  lemma SplitProduct(x0: int, x1: int, y0: int, y1: int)
    ensures (x1 * B64 + x0) * (y1 * B64 + y0) == x0 * y0 + (x0 * y1 + x1 * y0) * B64 + (x1 * y1) * B128
  {
    Distribute4(x1 * B64, x0, y1 * B64, y0);
    assert (x1 * B64) * (y1 * B64) == (x1 * y1) * B128;
    assert (x1 * B64) * y0 == (x1 * y0) * B64;
    assert x0 * (y1 * B64) == (x0 * y1) * B64;
  }

  lemma Distribute4(a: int, b: int, c: int, d: int)
    ensures (a + b) * (c + d) == a * c + a * d + b * c + b * d
  {
  }

  lemma Distribute(hi: int, lo: int, k: int)
    ensures (hi * B128 + lo) * k == (hi * k) * B128 + lo * k
  {
  }

  lemma DistributeOne(h: int, k: int)
    ensures (h + 1) * k == h * k + k
  {
  }

  /** Wrapping the high limb is reduction modulo 2^256. */
  lemma WrapHigh(r: U256, top: int, extra: int)
    requires r.hi == (top + extra % B128) % B128
    ensures r.Value() == (r.lo + (top + extra) * B128) % B256
  {
    var q := extra / B128 + (top + extra % B128) / B128;
    assert top + extra == r.hi + q * B128;
    DivUnique(r.lo + (top + extra) * B128, B256, q, r.Value());
  }

  lemma ModPlus(x: int, y: int, k: int, m: int)
    requires m > 0 && x == y + k * m
    ensures x % m == y % m
  {
    DivUnique(x, m, y / m + k, y % m) by { MulAssoc(m, 1, y / m, k); assert m * (y / m + k) == m * (y / m) + k * m; }
  }

  lemma SplitOther(ah: int, al: int, bh: int, bl: int)
    ensures (ah * B128 + al) * (bh * B128 + bl) == (ah * B128 + al) * bl + (al * bh) * B128 + (ah * bh) * B256
  {
    Distribute4(ah * B128, al, bh * B128, bl);
    Distribute(ah, al, bl);
    assert (ah * B128) * (bh * B128) == (ah * bh) * B256;
    assert al * (bh * B128) == (al * bh) * B128;
  }

  lemma MulLimbs(a: U256, b: U256, res: U256, r: U256)
    requires res.Value() == (a.Value() * b.lo) % B256
    requires r.lo == res.lo && r.hi == (res.hi + (a.lo * b.hi) % B128) % B128
    ensures r.Value() == (a.Value() * b.Value()) % B256
  {
    WrapHigh(r, res.hi, a.lo * b.hi);
    SplitOther(a.hi, a.lo, b.hi, b.lo);
    CrossTerm(a.Value() * b.lo, a.lo * b.hi, a.hi * b.hi, res.Value());
  }

  /** Of the products by the high limb only the cross term shows modulo 2^256. */
  lemma CrossTerm(low: int, cross: int, top: int, res: int)
    requires res == low % B256
    ensures (res + cross * B128) % B256 == (low + cross * B128 + top * B256) % B256
  {
    ModPlus(low + cross * B128 + top * B256, res + cross * B128, top + low / B256, B256);
  }

  lemma LowTerm(u: U256, o: U128, low: U128, top: nat, r: U256)
    requires u.lo * o == low + top * B128
    requires r.lo == low && r.hi == (top + (u.hi * o) % B128) % B128
    ensures r.Value() == (u.Value() * o) % B256
  {
    Distribute(u.hi, u.lo, o);
    WrapHigh(r, top, u.hi * o);
  }

  lemma LessIsValueOrder(a: U256, b: U256)
    ensures a.Less(b) <==> a.Value() < b.Value()
  {
  }

  /** A limb shifted left: its top bit leaves as the carry. */
  lemma DoubledLimb(w: U128)
    ensures (2 * w) % B128 % 2 == 0 && w / H128 < 2 && 2 * w == (2 * w) % B128 + (w / H128) * B128
  {
    if w < H128 {
      DivUnique(w, H128, 0, w);
      DivUnique(2 * w, B128, 0, 2 * w);
    } else {
      DivUnique(w, H128, 1, w - H128);
      DivUnique(2 * w, B128, 1, 2 * w - B128);
    }
  }

  lemma ShiftedValue(u: U256, r: U256)
    requires r.lo == (2 * u.lo) % B128 && r.hi == (2 * u.hi) % B128 + u.lo / H128
    ensures u.Value() < B256 / 2 ==> r.Value() == 2 * u.Value()
  {
    DoubledLimb(u.lo);
    if u.Value() < B256 / 2 { DivUnique(2 * u.hi, B128, 0, 2 * u.hi); }
  }

  lemma OrLowBit(even: nat, b: nat)
    requires even % 2 == 0 && b < 2
    ensures Or(even, b) == even + b
  {
    if b == 1 {
      OrFreshBit(even, 0);
    } else {
      OrZero(even);
    }
  }

  lemma PowWord()
    ensures Pow2(128) == B128 && Pow2(256) == B256
  {
    PowAt(128);
    PowAt(256);
  }

  lemma PowHalf()
    ensures Pow2(127) == H128
  {
    PowAt(128);
    PowStep(127);
  }

  lemma PowStep(k: nat)
    ensures Pow2(k + 1) == 2 * Pow2(k)
  {
  }

  lemma PowLimb(k: nat)
    ensures Pow2(k + 128) == Pow2(k) * B128
  {
    PowAt(128);
    Pow2Add(k, 128);
  }

  /** Two limbs, one power: 2^128 splits at every bit of a limb. */
  lemma SplitLimb(bit: nat, half: nat)
    requires bit < 128 && half == Pow2(127 - bit)
    ensures 2 * half * Pow2(bit) == B128
  {
    PowAt(128);
    Pow2Add(128 - bit, bit);
  }

  lemma LimbBitFits(w: U128, bit: nat)
    requires bit < 128
    ensures Or(w, Pow2(bit)) < B128
    ensures Or(w, Pow2(bit)) == if (w / Pow2(bit)) % 2 == 1 then w else w + Pow2(bit)
  {
    BitByShift(w, bit);
    if Bit(w, bit) {
      OrSetBit(w, bit);
    } else {
      OrFreshBit(w, bit);
      var n := Pow2(127 - bit);
      SplitLimb(bit, n);
      EvenQuotientFits(w, Pow2(bit), n);
    }
  }

  lemma EvenQuotientFits(w: nat, p: nat, n: nat)
    requires p > 0 && w < 2 * n * p && (w / p) % 2 == 0
    ensures w + p < 2 * n * p
  {
    var q := w / p;
    if q >= 2 * n {
      MulLe(2 * n, q, p);
      assert false;
    }
    MulLe(q + 2, 2 * n, p);
    assert (q + 2) * p == q * p + 2 * p;
  }

  /** Bit i of the pair of limbs is bit i of the value. */
  lemma BitOfValue(u: U256, i: nat)
    requires i < 256
    ensures u.GetBit(i) <==> (u.Value() / Pow2(i)) % 2 == 1
  {
    if i >= 128 { HighBit(u, i - 128); } else { LowBit(u, i); }
  }

  lemma HighBit(u: U256, i: nat)
    requires i < 128
    ensures u.Value() / Pow2(i + 128) == u.hi / Pow2(i)
  {
    PowLimb(i);
    HighLimbQuotient(u.hi, u.lo, Pow2(i));
  }

  lemma LowBit(u: U256, i: nat)
    requires i < 128
    ensures (u.Value() / Pow2(i)) % 2 == (u.lo / Pow2(i)) % 2
  {
    var n := Pow2(127 - i);
    SplitLimb(i, n);
    LowLimbQuotient(u.hi, u.lo, Pow2(i), n);
  }

  lemma HighLimbQuotient(hi: U128, lo: U128, p: nat)
    requires p > 0
    ensures (hi * B128 + lo) / (p * B128) == hi / p
  {
    DivDiv(hi * B128 + lo, B128, p);
    DivUnique(hi * B128 + lo, B128, hi, lo);
  }

  lemma LowLimbQuotient(hi: nat, lo: nat, p: nat, n: nat)
    requires p > 0 && 2 * n * p == B128
    ensures ((hi * B128 + lo) / p) % 2 == (lo / p) % 2
  {
    EvenMultiple(hi, n, p, B128);
    EvenQuotient(p, hi * n, lo, hi * B128 + lo);
  }

  lemma EvenMultiple(hi: int, n: int, p: int, limb: int)
    requires limb == 2 * n * p
    ensures hi * limb == p * (2 * (hi * n))
  {
    assert hi * (2 * n * p) == p * (2 * (hi * n));
  }

  lemma EvenQuotient(p: nat, k: nat, lo: nat, x: nat)
    requires p > 0 && x == p * (2 * k) + lo
    ensures (x / p) % 2 == (lo / p) % 2
  {
    MulAssoc(p, 2, k, lo / p);
    assert p * (2 * k) == (p * 2) * k;
    DivUnique(x, p, 2 * k + lo / p, lo % p);
  }

  /** What one pass of the division loop sees before it shifts: the shift loses no bit, even for a
      divisor above 2^255, the next dividend bit extends the prefix, and the quotient bit is clear. */
  lemma LongDivisionStep(a: U256, d: U256, q: U256, r: U256, high: nat, i: nat)
    requires i < 256 && r.Value() < d.Value()
    requires a.Value() / Pow2(i + 1) == high * d.Value() + r.Value()
    requires q.Value() == high * Pow2(i + 1)
    ensures r.Value() < B256 / 2
    ensures a.Value() / Pow2(i) == (2 * high) * d.Value() + 2 * r.Value() + if a.GetBit(i) then 1 else 0
    ensures q.Value() == (2 * high) * Pow2(i) && !q.GetBit(i)
  {
    BitOfValue(a, i);
    BitOfValue(q, i);
    PrefixBound(a.Value(), Pow2(i));
    NextPrefix(a.Value(), d.Value(), high, r.Value(), Pow2(i));
    EvenQuotientBits(q.Value(), high, Pow2(i));
  }

  lemma NextPrefix(a: nat, d: nat, high: nat, r: nat, p: nat)
    requires p > 0 && a / (2 * p) == high * d + r
    ensures a / p == (2 * high) * d + 2 * r + a / p % 2
    ensures 0 <= r <= a / (2 * p)
  {
    DivDiv(a, p, 2);
    assert (2 * high) * d == 2 * (high * d);
    MulLe(0, d, high);
  }

  lemma EvenQuotientBits(q: nat, high: nat, p: nat)
    requires p > 0 && q == high * (2 * p)
    ensures q == (2 * high) * p && (q / p) % 2 == 0
  {
    assert (2 * high) * p == high * (2 * p);
    DivUnique(q, p, 2 * high, 0);
  }

  lemma PrefixBound(a: nat, p: nat)
    requires a < B256 && p > 0
    ensures a / (2 * p) < B256 / 2
  {
    DivDiv(a, 2, p);
    MulLe(1, p, a / 2 / p);
  }
}
