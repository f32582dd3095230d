/**
 Signed 64-bit multiplication, division and remainder on a two's complement machine with 32-bit words.
 */
module LongLong {
  import opened Digits
  import QDivRem

  const TWO16: nat := 0x1_0000
  const TWO32: nat := 0x1_0000_0000
  const TWO63: nat := 0x8000_0000_0000_0000
  const TWO64: nat := 0x1_0000_0000_0000_0000
  const MIN: int := -0x8000_0000_0000_0000

  /** The values of a long long. */
  predicate Is64(a: int) {
    MIN <= a < TWO63
  }

  /** Conversion to unsigned long long. */
  function ToUnsigned(a: int): (x: nat)
    ensures x < TWO64
  {
    a % TWO64
  }

  /** Conversion from unsigned long long: the same bits read as a signed value. */
  function ToSigned(x: nat): (a: int)
    requires x < TWO64
    ensures Is64(a) && (a == x || a == x - TWO64)
  {
    if x < TWO63 then x else x - TWO64
  }

  function NegU(x: nat): (y: nat)
    ensures y < TWO64
  {
    (0 - x) % TWO64
  }

  ghost predicate Congruent(x: int, y: int) {
    (x - y) % TWO64 == 0
  }

  lemma CongruentBy(x: int, y: int, k: int)
    requires x - y == k * TWO64
    ensures Congruent(x, y)
  {
  }

  lemma CongruentWitness(x: int, y: int) returns (k: int)
    requires Congruent(x, y)
    ensures x - y == k * TWO64
  {
    k := (x - y) / TWO64;
  }

  // ----- division -----

  function Abs(a: int): nat {
    if a < 0 then -a else a
  }

  /** C99 division, section 6.5.5: the quotient truncates toward zero. */
  function TruncDiv(a: int, b: int): int
    requires b != 0
  {
    if (a < 0) == (b < 0) then Abs(a) / Abs(b) else -(Abs(a) / Abs(b))
  }

  /** The remainder that goes with it takes the sign of the dividend. */
  function TruncRem(a: int, b: int): int
    requires b != 0
  {
    if a < 0 then -(Abs(a) % Abs(b)) else Abs(a) % Abs(b)
  }

  /** The law that fixes both: a = q*b + r with |r| < |b| and r signed as a. */
  lemma TruncLaw(a: int, b: int)
    requires b != 0
    ensures a == TruncDiv(a, b) * b + TruncRem(a, b)
    ensures Abs(TruncRem(a, b)) < Abs(b)
    ensures TruncRem(a, b) == 0 || (TruncRem(a, b) < 0 <==> a < 0)
  {
  }

  lemma NegateProduct(x: int, y: int)
    ensures (-x) * y == -(x * y) && x * (-y) == -(x * y) && (-x) * (-y) == x * y
  {
  }

  lemma Magnitude(a: int)
    requires Is64(a)
    ensures (if a < 0 then NegU(ToUnsigned(a)) else ToUnsigned(a)) == Abs(a)
  {
  }

  lemma NegatedQuotient(q: nat)
    requires q <= TWO63
    ensures ToSigned(NegU(q)) == 0 - q
  {
  }

  datatype Outcome = DivideByZero | Value(v: int)

  /**
   __divdi3: truncating division. The one quotient that has no 64-bit representation, that of the most
   negative value by -1, comes back as the most negative value.
   */
  method DivDi3(a: int, b: int) returns (res: Outcome)
    requires Is64(a) && Is64(b)
    ensures res.DivideByZero? <==> b == 0
    ensures res.Value? ==> Is64(res.v) && Congruent(res.v, TruncDiv(a, b))
    ensures res.Value? ==> (res.v == TruncDiv(a, b) <==> !(a == MIN && b == -1))
  {
    hide TruncDiv, Congruent, ToSigned, NegU, ToUnsigned;
    var ua, ub, neg := ToUnsigned(a), ToUnsigned(b), false;
    if a < 0 { ua, neg := NegU(ua), !neg; }
    if b < 0 { ub, neg := NegU(ub), !neg; }
    Magnitude(a);
    Magnitude(b);
    var d := QDivRem.QDivRem(ua, ub, false);
    if d.DivideByZero? {
      return DivideByZero;
    }
    MagnitudeOfQuotient(a, b);
    SignedQuotient(a, b, d.q, TruncDiv(a, b));
    var uq := d.q;
    if neg { uq := NegU(uq); }
    res := Value(ToSigned(uq));
  }

  lemma MagnitudeOfQuotient(a: int, b: int)
    requires Is64(a) && b != 0
    ensures var mag := Abs(a) / Abs(b);
            && mag <= TWO63
            && (mag == TWO63 <==> a == MIN && Abs(b) == 1)
            && TruncDiv(a, b) == if (a < 0) == (b < 0) then mag else 0 - mag
  {
  }

  lemma SignedQuotient(a: int, b: int, mag: nat, t: int)
    requires mag <= TWO63 && (mag == TWO63 <==> a == MIN && Abs(b) == 1)
    requires t == if (a < 0) == (b < 0) then mag else 0 - mag
    ensures var v := ToSigned(if (a < 0) != (b < 0) then NegU(mag) else mag);
            && Congruent(v, t)
            && (v == t <==> !(a == MIN && b == -1))
  {
  }

  /** __moddi3: the remainder of truncating division, exact for every dividend and every nonzero divisor. */
  method ModDi3(a: int, b: int) returns (res: Outcome)
    requires Is64(a) && Is64(b)
    ensures res.DivideByZero? <==> b == 0
    ensures res.Value? ==> res.v == TruncRem(a, b) && Is64(res.v)
  {
    var ua, ub, neg := ToUnsigned(a), ToUnsigned(b), false;
    if a < 0 { ua, neg := NegU(ua), !neg; }
    if b < 0 { ub := NegU(ub); }
    Magnitude(a);
    Magnitude(b);
    var d := QDivRem.QDivRem(ua, ub, true);
    if d.DivideByZero? {
      return DivideByZero;
    }
    var ur := d.rem.value;
    RemainderRange(Abs(a), Abs(b));
    if neg {
      NegatedQuotient(ur);
      ur := NegU(ur);
    }
    res := Value(ToSigned(ur));
  }

  lemma RemainderRange(x: nat, y: nat)
    requires y > 0
    ensures x % y < y
  {
  }

  /** Whatever the two wrappers return, the division law holds modulo 2^64, for every b but zero. */
  lemma DivModLaw(a: int, b: int, q: int, r: int)
    requires Is64(a) && Is64(b) && b != 0
    requires Congruent(q, TruncDiv(a, b)) && r == TruncRem(a, b)
    ensures Congruent(q * b + r, a)
  {
    var k := CongruentWitness(q, TruncDiv(a, b));
    TruncLaw(a, b);
    MulDist(TruncDiv(a, b), k * TWO64, b);
    assert (k * TWO64) * b == (k * b) * TWO64 by { MulAssoc(k, TWO64, b); MulAssoc(k, b, TWO64); }
    CongruentBy(q * b + r, a, k * b);
  }

  // ----- multiplication -----

  function HighHalf(x: nat): nat { x / TWO16 }
  function LowHalf(x: nat): nat { x % TWO16 }

  /** LHUP: the low half moved up, inside a 32-bit word. */
  function LowHalfUp(x: nat): nat { x % TWO16 * TWO16 }

  /** Two words as one 64-bit value. */
  function Wide(hi: nat, lo: nat): nat { hi * TWO32 + lo }

  function Wrap32(x: int): (w: nat)
    ensures w < TWO32
  {
    x % TWO32
  }

  lemma WrapCases(x: int, m: nat)
    requires -(m as int) <= x < 2 * m
    ensures x % m == if x < 0 then x + m else if x < m then x else x - m
  {
  }

  lemma ShiftedHalf(x: nat)
    requires x < TWO32
    ensures x * TWO16 == HighHalf(x) * TWO32 + LowHalfUp(x)
    ensures HighHalf(x) < TWO16 && LowHalfUp(x) <= TWO32 - TWO16
  {
  }

  /** A 64-bit addition done on words, with the carry found by comparing the low word with what it was. */
  lemma AddWords(ph: nat, pl: nat, x: nat)
    requires ph < TWO32 && pl < TWO32 && x < TWO32
    ensures var l := Wrap32(pl + LowHalfUp(x));
            var h := Wrap32(ph + (HighHalf(x) + if l < pl then 1 else 0));
            Wide(h, l) == (Wide(ph, pl) + x * TWO16) % TWO64
  {
    hide LowHalfUp, HighHalf;
    ShiftedHalf(x);
    var l := Wrap32(pl + LowHalfUp(x));
    WrapCases(pl + LowHalfUp(x), TWO32);
    WrapCases(ph + (HighHalf(x) + if l < pl then 1 else 0), TWO32);
    WrapCases(Wide(ph, pl) + x * TWO16, TWO64);
  }

  lemma SubtractWords(ph: nat, pl: nat, x: nat)
    requires ph < TWO32 && pl < TWO32 && x < TWO32
    ensures var l := Wrap32(pl - LowHalfUp(x));
            var h := Wrap32(ph - (HighHalf(x) + if l > pl then 1 else 0));
            Wide(h, l) == (Wide(ph, pl) - x * TWO16) % TWO64
  {
    hide LowHalfUp, HighHalf;
    ShiftedHalf(x);
    var l := Wrap32(pl - LowHalfUp(x));
    WrapCases(pl - LowHalfUp(x), TWO32);
    WrapCases(ph - (HighHalf(x) + if l > pl then 1 else 0), TWO32);
    WrapCases(Wide(ph, pl) - x * TWO16, TWO64);
  }

  lemma AddLow(ph: nat, pl: nat, x: nat)
    requires ph < TWO32 && pl < TWO32 && x < TWO32
    ensures var l := Wrap32(pl + x);
            var h := if l < x then Wrap32(ph + 1) else ph;
            Wide(h, l) == (Wide(ph, pl) + x) % TWO64
  {
  }

  lemma FirstWords(high: nat)
    requires high < TWO32
    ensures Wide(Wrap32(high + HighHalf(high)), LowHalfUp(high)) == (high * TWO32 + high * TWO16) % TWO64
    ensures LowHalfUp(high) < TWO32
  {
  }

  function Product(x: nat, y: nat): nat { x * y }

  lemma HalfProduct(x: nat, y: nat)
    requires x < TWO16 && y < TWO16
    ensures Product(x, y) == x * y < TWO32
  {
    MulMono(x, TWO16, y);
    MulMono(y, TWO16, TWO16);
  }

  /** The product rebuilt from the three half-length products; mid is signed. */
  lemma Karatsuba(u1: int, u0: int, v1: int, v0: int, n: int)
    ensures (u1 * n + u0) * (v1 * n + v0)
         == (u1 * v1) * (n * n) + (u1 * v1) * n + ((u1 - u0) * (v0 - v1)) * n + (u0 * v0) * n + u0 * v0
  {
  }

  /** (u1 - u0) * (v0 - v1), which is negative or not as the two comparisons in the source find. */
  function SignedMiddle(u1: int, u0: int, v1: int, v0: int): int { (u1 - u0) * (v0 - v1) }

  method MiddleTerm(u1: nat, u0: nat, v1: nat, v0: nat) returns (neg: bool, udiff: nat, vdiff: nat)
    ensures SignedMiddle(u1, u0, v1, v0) == if neg then 0 - Product(udiff, vdiff) else Product(udiff, vdiff)
    ensures udiff <= u1 || udiff <= u0
    ensures vdiff <= v1 || vdiff <= v0
  {
    if u1 >= u0 {
      udiff, neg := u1 - u0, false;
    } else {
      udiff, neg := u0 - u1, true;
    }
    if v0 >= v1 {
      vdiff := v0 - v1;
    } else {
      vdiff, neg := v1 - v0, !neg;
    }
    NegateProduct(udiff, vdiff);
  }

  lemma AccumulateMod(x: int, y: int, t: int)
    requires x == t % TWO64
    ensures (x + y) % TWO64 == (t + y) % TWO64
    ensures (x - y) % TWO64 == (t - y) % TWO64
  {
  }

  lemma SameMod(x: int, y: int, k: int)
    requires y == x + k * TWO64
    ensures x % TWO64 == y % TWO64
  {
  }

  /** __lmulq: the exact 64-bit product of two 32-bit words, from 16-bit products. */
  method LMulQ(u: nat, v: nat) returns (prodh: nat, prodl: nat)
    requires u < TWO32 && v < TWO32
    ensures prodh < TWO32 && prodl < TWO32 && Wide(prodh, prodl) == Product(u, v)
  {
    hide HighHalf, LowHalf, Wide, Product, SignedMiddle;
    var u1, u0, v1, v0 := HighHalf(u), LowHalf(u), HighHalf(v), LowHalf(v);
    Halves(u);
    Halves(v);
    HalfProduct(u0, v0);
    var low := Product(u0, v0);
    if u1 == 0 && v1 == 0 {
      NarrowWide(low);
      return 0, low;
    }
    var neg, udiff, vdiff := MiddleTerm(u1, u0, v1, v0);
    HalfProduct(udiff, vdiff);
    HalfProduct(u1, v1);
    var mid, high := Product(udiff, vdiff), Product(u1, v1);
    prodh, prodl := AssembleProduct(high, mid, neg, low);
    Reassembled(u, v, u1, u0, v1, v0, high, SignedMiddle(u1, u0, v1, v0), low, Wide(prodh, prodl));
  }

  lemma Halves(x: nat)
    requires x < TWO32
    ensures x == HighHalf(x) * TWO16 + LowHalf(x) && HighHalf(x) < TWO16 && LowHalf(x) < TWO16
  {
  }

  lemma NarrowWide(x: nat)
    ensures Wide(0, x) == x
  {
  }

  lemma Reassembled(u: nat, v: nat, u1: nat, u0: nat, v1: nat, v0: nat, high: nat, mid: int, low: nat, x: nat)
    requires u == u1 * TWO16 + u0 < TWO32 && v == v1 * TWO16 + v0 < TWO32
    requires high == Product(u1, v1) && low == Product(u0, v0) && mid == SignedMiddle(u1, u0, v1, v0)
    requires x == (high * TWO32 + high * TWO16 + mid * TWO16 + low * TWO16 + low) % TWO64
    ensures x == Product(u, v)
  {
    Karatsuba(u1, u0, v1, v0, TWO16);
    WordProduct(u, v);
  }

  lemma WordProduct(u: nat, v: nat)
    requires u < TWO32 && v < TWO32
    ensures (u * v) % TWO64 == u * v
  {
    MulMono(u, TWO32, v);
    MulMono(v, TWO32, TWO32);
  }

  /** Adds up the shifted partial products word by word, the middle one with its sign. */
  method AssembleProduct(high: nat, mid: nat, neg: bool, low: nat) returns (prodh: nat, prodl: nat)
    requires high < TWO32 && mid < TWO32 && low < TWO32
    ensures prodh < TWO32 && prodl < TWO32
    ensures Wide(prodh, prodl)
         == (high * TWO32 + high * TWO16 + (if neg then 0 - mid else mid) * TWO16 + low * TWO16 + low) % TWO64
  {
    hide HighHalf, LowHalfUp, Wrap32, Wide;
    FirstWords(high);
    prodh, prodl := Wrap32(high + HighHalf(high)), LowHalfUp(high);
    ghost var t: int := high * TWO32 + high * TWO16;
    var was := prodl;
    AccumulateMod(Wide(prodh, prodl), mid * TWO16, t);
    if neg {
      SubtractWords(prodh, prodl, mid);
      prodl := Wrap32(prodl - LowHalfUp(mid));
      prodh := Wrap32(prodh - (HighHalf(mid) + if prodl > was then 1 else 0));
      t := t - mid * TWO16;
    } else {
      AddWords(prodh, prodl, mid);
      prodl := Wrap32(prodl + LowHalfUp(mid));
      prodh := Wrap32(prodh + (HighHalf(mid) + if prodl < was then 1 else 0));
      t := t + mid * TWO16;
    }
    AccumulateMod(Wide(prodh, prodl), low * TWO16, t);
    AddWords(prodh, prodl, low);
    was := prodl;
    prodl := Wrap32(prodl + LowHalfUp(low));
    prodh := Wrap32(prodh + (HighHalf(low) + if prodl < was then 1 else 0));
    t := t + low * TWO16;
    AccumulateMod(Wide(prodh, prodl), low, t);
    AddLow(prodh, prodl, low);
    prodl := Wrap32(prodl + low);
    if prodl < low {
      prodh := Wrap32(prodh + 1);
    }
  }

  /** Reducing the terms of a 32-bit sum early changes nothing. */
  lemma WrapTerms(high: int, mid: int, rest: int, neg: bool)
    ensures Wrap32(Wrap32(high) + Wrap32(if neg then 0 - Wrap32(mid) else Wrap32(mid)) + rest)
         == Wrap32(high + (if neg then 0 - mid else mid) + rest)
  {
  }

  lemma WideOfWrap(x: int, l: nat)
    requires l < TWO32
    ensures Wide(Wrap32(x), l) == (x * TWO32 + l) % TWO64
  {
  }

  /** The upper half of the 128-bit product drops out, which leaves high + mid + low words over the low word. */
  lemma WideProduct(u1: nat, u0: nat, v1: nat, v0: nat, lowh: nat, lowl: nat)
    requires Wide(lowh, lowl) == Product(u0, v0)
    ensures Congruent((Product(u1, v1) + SignedMiddle(u1, u0, v1, v0) + (lowl + lowh)) * TWO32 + lowl,
                      Product(Wide(u1, u0), Wide(v1, v0)))
  {
    var p, m := Product(u1, v1), SignedMiddle(u1, u0, v1, v0);
    Karatsuba(u1, u0, v1, v0, TWO32);
    CongruentBy((p + m + (lowl + lowh)) * TWO32 + lowl, Product(Wide(u1, u0), Wide(v1, v0)), -p - lowh);
  }

  lemma CongruentMod(x: int, y: int)
    requires Congruent(x, y)
    ensures x % TWO64 == y % TWO64
  {
  }

  /** The product of two 64-bit magnitudes modulo 2^64. */
  method MulMagnitudes(u1: nat, u0: nat, v1: nat, v0: nat) returns (prodh: nat, prodl: nat)
    requires u1 < TWO32 && u0 < TWO32 && v1 < TWO32 && v0 < TWO32
    ensures prodh < TWO32 && prodl < TWO32
    ensures Wide(prodh, prodl) == Product(Wide(u1, u0), Wide(v1, v0)) % TWO64
  {
    hide Wide, Product, SignedMiddle, Wrap32, Congruent;
    if u1 == 0 && v1 == 0 {
      prodh, prodl := LMulQ(u0, v0);
      NarrowWide(u0);
      NarrowWide(v0);
      WordProductMod(u0, v0);
    } else {
      var lowh, lowl := LMulQ(u0, v0);
      var negmid, udiff, vdiff := MiddleTerm(u1, u0, v1, v0);
      var mid, high := Wrap32(Product(udiff, vdiff)), Wrap32(Product(u1, v1));
      prodh := Wrap32(high + Wrap32(if negmid then 0 - mid as int else mid) + (lowl + lowh));
      prodl := lowl;
      WrapTerms(Product(u1, v1), Product(udiff, vdiff), lowl + lowh, negmid);
      WideOfWrap(Product(u1, v1) + SignedMiddle(u1, u0, v1, v0) + (lowl + lowh), lowl);
      WideProduct(u1, u0, v1, v0, lowh, lowl);
      CongruentMod((Product(u1, v1) + SignedMiddle(u1, u0, v1, v0) + (lowl + lowh)) * TWO32 + lowl,
                   Product(Wide(u1, u0), Wide(v1, v0)));
    }
  }

  lemma WordProductMod(u: nat, v: nat)
    requires u < TWO32 && v < TWO32
    ensures Product(u, v) % TWO64 == Product(u, v)
  {
    WordProduct(u, v);
  }

  lemma Words(x: nat)
    requires x < TWO64
    ensures x == Wide(x / TWO32, x % TWO32) && x / TWO32 < TWO32
  {
  }

  lemma SignedProduct(a: int, b: int)
    ensures a * b == if (a < 0) == (b < 0) then Product(Abs(a), Abs(b)) else 0 - Product(Abs(a), Abs(b))
  {
  }

  lemma SignedResult(x: nat, neg: bool)
    ensures ToSigned(if neg then NegU(x % TWO64) else x % TWO64)
         == ToSigned(ToUnsigned(if neg then 0 - x else x))
  {
    if neg { SameMod(0 - x, 0 - x % TWO64, x / TWO64); }
  }

  /** __muldi3: the signed product modulo 2^64, for all operands including the most negative value. */
  method MulDi3(a: int, b: int) returns (res: int)
    requires Is64(a) && Is64(b)
    ensures res == ToSigned(ToUnsigned(a * b))
  {
    hide Wide, Product, NegU, ToUnsigned, ToSigned;
    var u, v, negall := ToUnsigned(a), ToUnsigned(b), false;
    if a < 0 { u, negall := NegU(ToUnsigned(a)), true; }
    if b < 0 { v, negall := NegU(ToUnsigned(b)), !negall; }
    Magnitude(a);
    Magnitude(b);
    Words(u);
    Words(v);
    var prodh, prodl := MulMagnitudes(u / TWO32, u % TWO32, v / TWO32, v % TWO32);
    SignedProduct(a, b);
    SignedResult(Product(u, v), negall);
    var prod := Wide(prodh, prodl);
    res := if negall then ToSigned(NegU(prod)) else ToSigned(prod);
  }
}
