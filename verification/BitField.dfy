/**
  Unsigned machine words as natural numbers, seen bit by bit: shifts, masks, the
  bitwise operators, and the bit-fields of a register (`lo` is a field's lowest
  bit, `w` its width).
 */
module BitField {

  function Pow2(k: nat): (p: nat)
    ensures p >= 1
  {
    if k == 0 then 1 else 2 * Pow2(k - 1)
  }

  /** r >> k */
  function Shr(r: nat, k: nat): nat {
    if k == 0 then r else Shr(r / 2, k - 1)
  }

  /** x << k */
  function Shl(x: nat, k: nat): nat {
    if k == 0 then x else 2 * Shl(x, k - 1)
  }

  /** The low `k` bits of `r`. */
  function Low(r: nat, k: nat): (v: nat)
    ensures v < Pow2(k)
  {
    if k == 0 then 0 else r % 2 + 2 * Low(r / 2, k - 1)
  }

  /** The value of the field of `r` at bits `lo .. lo+w-1`. */
  function Extract(r: nat, lo: nat, w: nat): nat {
    Low(Shr(r, lo), w)
  }

  /** `r` after the assignment of `v` to that field. */
  function Insert(r: nat, lo: nat, w: nat, v: nat): nat {
    if lo > 0 then r % 2 + 2 * Insert(r / 2, lo - 1, w, v)
    else if w > 0 then v % 2 + 2 * Insert(r / 2, 0, w - 1, v / 2)
    else r
  }

  lemma {:induction false} Pow2Monotone(a: nat, b: nat)
    requires a <= b
    ensures Pow2(a) <= Pow2(b)
    ensures a < b ==> 2 * Pow2(a) <= Pow2(b)
  {
    if a == b {
    } else {
      Pow2Monotone(a, b - 1);
    }
  }

  lemma {:induction false} ShlIsProduct(x: nat, k: nat)
    ensures Shl(x, k) == x * Pow2(k)
  {
    if k == 0 {
    } else {
      ShlIsProduct(x, k - 1);
      TwiceProduct(x, Pow2(k - 1));
    }
  }

  lemma {:induction false} TwiceProduct(x: nat, p: nat)
    ensures x * (2 * p) == 2 * (x * p)
  {
  }

  /** A word is its high part and its low part. */
  lemma {:induction false} ShiftMask(r: nat, k: nat)
    ensures r == Shl(Shr(r, k), k) + Low(r, k)
  {
    if k == 0 {
    } else {
      ShiftMask(r / 2, k - 1);
    }
  }

  lemma {:induction false} LowOfSmall(r: nat, k: nat)
    requires r < Pow2(k)
    ensures Low(r, k) == r
  {
    if k == 0 {
    } else {
      LowOfSmall(r / 2, k - 1);
    }
  }

  lemma {:induction false} LowLow(r: nat, a: nat, b: nat)
    requires a <= b
    ensures Low(Low(r, b), a) == Low(r, a)
    ensures Low(r, a) <= Low(r, b)
  {
    if a == 0 {
    } else {
      LowHalf(r, b);
      LowLow(r / 2, a - 1, b - 1);
    }
  }

  // ----- shifts and masks as quotients and remainders

  /** Quotient and remainder are unique. */
  lemma {:induction false} DivUnique(r: nat, d: nat, q: nat, m: nat)
    requires d > 0 && r == q * d + m && m < d
    ensures r / d == q && r % d == m
  {
    var q', m' := r / d, r % d;
    assert r == q' * d + m';
    if q < q' {
      ProductStep(q, q', d);
    } else if q' < q {
      ProductStep(q', q, d);
    }
  }

  lemma {:induction false} ProductStep(x: nat, y: nat, d: nat)
    requires x < y
    ensures x * d + d <= y * d
  {
    assert (y - x - 1) * d >= 0;
    assert y * d == x * d + d + (y - x - 1) * d;
  }

  lemma {:induction false} ShiftIsQuotient(r: nat, k: nat)
    ensures Shr(r, k) == r / Pow2(k) && Low(r, k) == r % Pow2(k)
  {
    ShiftMask(r, k);
    ShlIsProduct(Shr(r, k), k);
    DivUnique(r, Pow2(k), Shr(r, k), Low(r, k));
  }

  /** A field is the word divided by 2^lo, modulo 2^w. */
  lemma {:induction false} ExtractIs(r: nat, lo: nat, w: nat)
    ensures Extract(r, lo, w) == r / Pow2(lo) % Pow2(w)
  {
    ShiftIsQuotient(r, lo);
    ShiftIsQuotient(Shr(r, lo), w);
  }

  // ----- fields

  /** The lowest bit of an assigned word, and the rest of it. */
  lemma {:induction false} InsertHalf(r: nat, lo: nat, w: nat, v: nat)
    requires lo + w > 0
    ensures Insert(r, lo, w, v) % 2 == if lo > 0 then r % 2 else v % 2
    ensures Insert(r, lo, w, v) / 2 == if lo > 0 then Insert(r / 2, lo - 1, w, v) else Insert(r / 2, 0, w - 1, v / 2)
  {
  }

  /** Assigning a field stores the low `w` bits of the value. */
  lemma {:induction false} InsertSame(r: nat, lo: nat, w: nat, v: nat)
    ensures Extract(Insert(r, lo, w, v), lo, w) == Low(v, w)
  {
    if lo > 0 {
      InsertHalf(r, lo, w, v);
      InsertSame(r / 2, lo - 1, w, v);
    } else if w > 0 {
      InsertHalf(r, 0, w, v);
      InsertSame(r / 2, 0, w - 1, v / 2);
    }
  }

  /** Fields that do not overlap do not disturb each other. */
  lemma {:induction false} InsertOther(r: nat, lo: nat, w: nat, v: nat, lo': nat, w': nat)
    requires lo' + w' <= lo || lo + w <= lo'
    ensures Extract(Insert(r, lo, w, v), lo', w') == Extract(r, lo', w')
    decreases lo + w + lo' + w'
  {
    if lo + w > 0 {
      InsertHalf(r, lo, w, v);
    }
    if lo > 0 && lo' > 0 {
      InsertOther(r / 2, lo - 1, w, v, lo' - 1, w');
    } else if lo > 0 && w' > 0 {
      InsertOther(r / 2, lo - 1, w, v, 0, w' - 1);
    } else if lo == 0 && w > 0 && lo' > 0 {
      InsertOther(r / 2, 0, w - 1, v / 2, lo' - 1, w');
    }
  }

  /** Writing back the value a field has changes nothing. */
  lemma {:induction false} InsertExtract(r: nat, lo: nat, w: nat)
    ensures Insert(r, lo, w, Extract(r, lo, w)) == r
  {
    if lo > 0 {
      InsertExtract(r / 2, lo - 1, w);
    } else if w > 0 {
      InsertExtract(r / 2, 0, w - 1);
    }
  }

  /** A `total`-bit word stays one when a field inside it is assigned. */
  lemma {:induction false} InsertFits(r: nat, lo: nat, w: nat, v: nat, total: nat)
    requires lo + w <= total && r < Pow2(total)
    ensures Insert(r, lo, w, v) < Pow2(total)
    decreases lo + w
  {
    if lo > 0 {
      InsertFits(r / 2, lo - 1, w, v, total - 1);
    } else if w > 0 {
      InsertFits(r / 2, 0, w - 1, v / 2, total - 1);
    }
  }

  /** A word is determined by its bits. */
  lemma {:induction false} SameBits(r: nat, s: nat, total: nat)
    requires r < Pow2(total) && s < Pow2(total)
    requires forall k: nat | k < total :: Extract(r, k, 1) == Extract(s, k, 1)
    ensures r == s
  {
    if total == 0 {
    } else {
      forall k: nat | k < total - 1 ensures Extract(r / 2, k, 1) == Extract(s / 2, k, 1) {
        assert Extract(r, k + 1, 1) == Extract(s, k + 1, 1);
      }
      SameBits(r / 2, s / 2, total - 1);
      assert Extract(r, 0, 1) == Extract(s, 0, 1);
    }
  }

  lemma {:induction false} ShrShr(r: nat, a: nat, b: nat)
    ensures Shr(Shr(r, a), b) == Shr(r, a + b)
  {
    if a == 0 {
    } else {
      ShrShr(r / 2, a - 1, b);
    }
  }

  lemma {:induction false} LowHalf(x: nat, k: nat)
    requires k > 0
    ensures Low(x, k) % 2 == x % 2 && Low(x, k) / 2 == Low(x / 2, k - 1)
  {
  }

  lemma {:induction false} BitOfLow(x: nat, w: nat, k: nat)
    requires k < w
    ensures Extract(Low(x, w), k, 1) == Extract(x, k, 1)
  {
    LowHalf(x, w);
    if k == 0 {
    } else {
      BitOfLow(x / 2, w - 1, k - 1);
    }
  }

  /** Equal fields have equal bits. */
  lemma {:induction false} FieldBits(r: nat, s: nat, lo: nat, w: nat)
    requires Extract(r, lo, w) == Extract(s, lo, w)
    ensures forall k: nat | lo <= k < lo + w :: Extract(r, k, 1) == Extract(s, k, 1)
  {
    forall k: nat | lo <= k < lo + w ensures Extract(r, k, 1) == Extract(s, k, 1) {
      ShrShr(r, lo, k - lo);
      ShrShr(s, lo, k - lo);
      BitOfLow(Shr(r, lo), w, k - lo);
      BitOfLow(Shr(s, lo), w, k - lo);
    }
  }

  // ----- bitwise operators

  function And(a: nat, b: nat): nat {
    if a == 0 || b == 0 then 0
    else (if a % 2 == 1 && b % 2 == 1 then 1 else 0) + 2 * And(a / 2, b / 2)
  }

  function Xor(a: nat, b: nat): nat
    decreases a + b
  {
    if a == 0 && b == 0 then 0
    else (a + b) % 2 + 2 * Xor(a / 2, b / 2)
  }

  lemma {:induction false} AndStep(a: nat, b: nat)
    ensures And(a, b) == (if a % 2 == 1 && b % 2 == 1 then 1 else 0) + 2 * And(a / 2, b / 2)
  {
  }

  lemma {:induction false} XorStep(a: nat, b: nat)
    ensures Xor(a, b) == (a + b) % 2 + 2 * Xor(a / 2, b / 2)
  {
  }

  /** The mask of bits lo .. hi-1. */
  function Band(lo: nat, hi: nat): nat
    requires lo <= hi
  {
    Pow2Monotone(lo, hi);
    Pow2(hi) - Pow2(lo)
  }

  lemma {:induction false} BandHalf(lo: nat, hi: nat)
    requires lo < hi
    ensures Band(lo, hi) / 2 == Band(if lo == 0 then 0 else lo - 1, hi - 1)
    ensures Band(lo, hi) % 2 == if lo == 0 then 1 else 0
  {
    assert Pow2(hi) == 2 * Pow2(hi - 1);
    assert lo > 0 ==> Pow2(lo) == 2 * Pow2(lo - 1);
  }

  /** The mask `2^hi - 2^lo` selects bits lo .. hi-1. */
  lemma {:induction false} AndMask(x: nat, lo: nat, hi: nat)
    requires lo <= hi
    ensures And(x, Band(lo, hi)) == Low(x, hi) - Low(x, lo)
  {
    if lo == hi {
    } else {
      BandHalf(lo, hi);
      AndMask(x / 2, if lo == 0 then 0 else lo - 1, hi - 1);
      AndStep(x, Band(lo, hi));
    }
  }

  /** A band that starts above bit 0 is twice the band one bit lower. */
  lemma {:induction false} BandAbove(a: nat, b: nat)
    requires a > 0 && b > 0
    ensures a <= b ==> Band(a, b) == 2 * Band(a - 1, b - 1)
  {
    if a == b {
    } else if a < b {
      BandHalf(a, b);
    }
  }

  /** The exclusive or of two all-ones masks is the band between them. */
  lemma {:induction false} XorMasks(a: nat, b: nat)
    ensures Xor(Band(0, a), Band(0, b)) == if a <= b then Band(a, b) else Band(b, a)
  {
    if a == 0 {
      XorZero(Band(0, b));
    } else if b == 0 {
      XorZero(Band(0, a));
    } else {
      BandHalf(0, a);
      BandHalf(0, b);
      XorMasks(a - 1, b - 1);
      XorStep(Band(0, a), Band(0, b));
      BandAbove(a, b);
      BandAbove(b, a);
    }
  }

  lemma {:induction false} XorZero(a: nat)
    ensures Xor(a, 0) == a && Xor(0, a) == a
  {
    if a == 0 {
    } else {
      XorZero(a / 2);
    }
  }
}
