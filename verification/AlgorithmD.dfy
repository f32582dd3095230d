/**
 The digit loop of the 64-bit division code (Knuth volume 2, section 4.3.1, Algorithm D), for any
 base b >= 2, any divisor length n >= 2 and any quotient length m + 1.

 Words hold values below b * b and arithmetic on them wraps, as unsigned int does for b = 2^16.
 Digit strings live in arrays; a pointer into one is an offset, so the C expression p[i] is p[off + i].
 */
module AlgorithmD {
  import opened Digits

  function Min(x: int, y: int): int {
    if x <= y then x else y
  }

  /** Wrap-around of a word: the representative of x modulo b * b. */
  function Wrap(x: int, b: nat): (w: nat)
    requires b > 0
    ensures w < b * b
  {
    MulMono(1, b, b);
    x % (b * b)
  }

  function Quot(x: nat, y: nat): nat
    requires y > 0
  {
    x / y
  }

  function Rem(x: nat, y: nat): nat
    requires y > 0
  {
    x % y
  }

  // ----- D3: the quotient digit estimate -----

  /** The largest digit that three leading dividend digits and two leading divisor digits allow. */
  function BestDigit(b: nat, nn: nat, u2: nat, v1: nat, v2: nat): nat
    requires b > 0 && v1 > 0
  {
    MulMono(1, v1, b);
    Min(b - 1, (nn * b + u2) / (v1 * b + v2))
  }

  lemma EstimateFits(b: nat, nn: nat, u2: nat, v1: nat, v2: nat, qhat: nat, rhat: nat)
    requires qhat * v1 + rhat == nn
    requires v2 * qhat <= rhat * b + u2
    ensures qhat * (v1 * b + v2) <= nn * b + u2
  {
  }

  /** A product of two digits is below rhat * b once rhat has reached the base. */
  lemma BigRemainderStops(b: nat, v2: nat, qhat: nat, rhat: nat)
    requires v2 < b && qhat < b && rhat >= b
    ensures v2 * qhat <= rhat * b
  {
  }

  lemma PlainEstimateIsLarge(b: nat, nn: nat, u2: nat, v1: nat, v2: nat, qhat: nat)
    requires u2 < b && nn < (qhat + 1) * v1
    ensures nn * b + u2 < (qhat + 1) * (v1 * b + v2)
  {
    MulStep(nn, (qhat + 1) * v1, b, u2);
    MulAssoc(qhat + 1, v1, b);
    MulDist(v1 * b, v2, qhat + 1);
  }

  lemma QuotientIs(x: nat, y: nat, q: nat)
    requires y > 0 && q * y <= x < (q + 1) * y
    ensures x / y == q
  {
    var k := x / y;
    if k < q {
      MulMono(k + 1, q, y);
      MulDist(k, 1, y);
    } else if k > q {
      MulMono(q + 1, k, y);
    }
  }

  /**
   What the correction loop keeps: nn is split as qhat * v1 + rhat, and the next larger digit is out of reach.
   */
  ghost predicate Estimate(b: nat, nn: nat, u2: nat, v1: nat, v2: nat, qhat: nat, rhat: nat) {
    && qhat < b
    && qhat * v1 + rhat == nn
    && (qhat == b - 1 || nn * b + u2 < (qhat + 1) * (v1 * b + v2))
  }

  lemma FullEstimate(b: nat, u1: nat, u2: nat, v1: nat, v2: nat)
    requires 0 < v1 < b
    ensures Estimate(b, v1 * b + u1, u2, v1, v2, b - 1, u1 + v1)
  {
  }

  lemma PlainEstimate(b: nat, nn: nat, u2: nat, v1: nat, v2: nat)
    requires 0 < v1 < b && nn < v1 * b && u2 < b
    ensures Estimate(b, nn, u2, v1, v2, Quot(nn, v1), Rem(nn, v1)) && Rem(nn, v1) < v1
  {
    hide *;
    DivBelow(nn, v1, b);
    SplitIsEstimate(b, nn, u2, v1, v2, Quot(nn, v1), Rem(nn, v1));
  }

  lemma SplitIsEstimate(b: nat, nn: nat, u2: nat, v1: nat, v2: nat, q: nat, r: nat)
    requires u2 < b && q < b && q * v1 + r == nn < (q + 1) * v1
    ensures Estimate(b, nn, u2, v1, v2, q, r)
  {
    PlainEstimateIsLarge(b, nn, u2, v1, v2, q);
  }

  lemma NextEstimate(b: nat, nn: nat, u2: nat, v1: nat, v2: nat, qhat: nat, rhat: nat)
    requires Estimate(b, nn, u2, v1, v2, qhat, rhat)
    requires v2 * qhat > rhat * b + u2
    ensures qhat > 0 && Estimate(b, nn, u2, v1, v2, qhat - 1, rhat + v1)
  {
  }

  lemma LastEstimate(b: nat, nn: nat, u2: nat, v1: nat, v2: nat, qhat: nat, rhat: nat)
    requires 0 < v1 && v2 < b
    requires Estimate(b, nn, u2, v1, v2, qhat, rhat)
    requires rhat >= b || v2 * qhat <= rhat * b + u2
    ensures qhat == BestDigit(b, nn, u2, v1, v2)
  {
    MulMono(1, v1, b);
    if rhat >= b {
      BigRemainderStops(b, v2, qhat, rhat);
    }
    EstimateFits(b, nn, u2, v1, v2, qhat, rhat);
    EstimateIsMin(b, nn * b + u2, v1 * b + v2, qhat);
  }

  /**
   Estimate the next quotient digit from three dividend digits and two divisor digits. The result is the
   largest digit that the leading digits allow, and with a normalised divisor the correction runs at most twice.
   */
  method EstimateDigit(b: nat, u0: nat, u1: nat, u2: nat, v1: nat, v2: nat)
    returns (qhat: nat, corrections: nat)
    requires b >= 2 && u0 <= v1 < b && 0 < v1 && u1 < b && u2 < b && v2 < b
    ensures qhat == BestDigit(b, u0 * b + u1, u2, v1, v2)
    ensures 2 * v1 >= b ==> corrections <= 2
  {
    hide BestDigit, Estimate, Quot, Rem;
    var nn: nat := u0 * b + u1;
    if u0 == v1 {
      FullEstimate(b, u1, u2, v1, v2);
      qhat, corrections := CorrectEstimate(b, nn, u2, v1, v2, b - 1, u1 + v1, 1);
    } else {
      MulStep(u0, v1, b, u1);
      PlainEstimate(b, nn, u2, v1, v2);
      qhat, corrections := CorrectEstimate(b, nn, u2, v1, v2, Quot(nn, v1), Rem(nn, v1), 0);
    }
  }

  /** The correction loop, entered at its test; `done` corrections were made on the way in. */
  method CorrectEstimate(b: nat, nn: nat, u2: nat, v1: nat, v2: nat, q0: nat, r0: nat, done: nat)
    returns (qhat: nat, corrections: nat)
    requires 0 < v1 < b && v2 < b && Estimate(b, nn, u2, v1, v2, q0, r0)
    requires (done == 0 && r0 < b) || (done == 1 && r0 >= v1)
    ensures qhat == BestDigit(b, nn, u2, v1, v2)
    ensures 2 * v1 >= b ==> corrections <= 2
  {
    hide *;
    var rhat: nat := r0;
    qhat, corrections := q0, done;
    while rhat < b && v2 * qhat > rhat * b + u2
      invariant Estimate(b, nn, u2, v1, v2, qhat, rhat)
      invariant corrections >= 1 ==> rhat >= v1
      invariant corrections >= 2 ==> rhat >= v1 + v1
      invariant 2 * v1 >= b ==> corrections <= 2
      decreases qhat
    {
      NextEstimate(b, nn, u2, v1, v2, qhat, rhat);
      qhat, rhat, corrections := qhat - 1, rhat + v1, corrections + 1;
    }
    LastEstimate(b, nn, u2, v1, v2, qhat, rhat);
  }

  lemma DivBelow(x: nat, y: nat, b: nat)
    requires y > 0 && x < y * b
    ensures Quot(x, y) < b && Rem(x, y) < y
    ensures Quot(x, y) * y + Rem(x, y) == x < (Quot(x, y) + 1) * y
  {
  }

  lemma EstimateIsMin(b: nat, u012: nat, v12: nat, qhat: nat)
    requires v12 > 0 && qhat < b
    requires qhat * v12 <= u012
    requires qhat == b - 1 || u012 < (qhat + 1) * v12
    ensures qhat == Min(b - 1, u012 / v12)
  {
    if u012 < (qhat + 1) * v12 {
      QuotientIs(u012, v12, qhat);
    } else {
      var k := u012 / v12;
      if k < qhat {
        MulMono(k + 1, qhat, v12);
        MulDist(k, 1, v12);
      }
    }
  }

  /** With the leading digits of both numbers, the estimate is the true digit or exactly one more. */
  lemma EstimateIsCloseAbove(b: nat, p: nat, uu: nat, vv: nat, u012: nat, ur: nat, v12: nat, vr: nat, qhat: nat)
    requires v12 >= b >= 1 && ur < p && vr < p
    requires uu == u012 * p + ur && vv == v12 * p + vr
    requires qhat == Min(b - 1, u012 / v12)
    ensures vv > 0 && (qhat as int - 1) * vv <= uu
  {
    MulMono(1, v12, p);
    MulMono(b, v12, p);
    MulMono(qhat, b, p);
    MulMono(vr, p, qhat);
    calc {
      qhat * vv;
    ==  { MulDist(v12 * p, vr, qhat); MulAssoc(qhat, v12, p); }
      (qhat * v12) * p + qhat * vr;
    <=  { QuotientBound(u012, v12, qhat); MulMono(qhat * v12, u012, p); }
      u012 * p + qhat * vr;
    <=  uu + vv;
    }
    MulDist(qhat, 1, vv);
  }

  lemma QuotientBound(x: nat, y: nat, q: nat)
    requires y > 0 && q <= x / y
    ensures q * y <= x
  {
  }

  lemma EstimateIsLargeEnough(b: nat, p: nat, uu: nat, vv: nat, u012: nat, ur: nat, v12: nat, vr: nat, qhat: nat)
    requires v12 >= b >= 1 && ur < p
    requires uu == u012 * p + ur && vv == v12 * p + vr
    requires uu < vv * b
    requires qhat == Min(b - 1, u012 / v12)
    ensures uu < (qhat + 1) * vv
  {
    if qhat != b - 1 {
      assert u012 < (qhat + 1) * v12 by { MulDist(qhat, 1, v12); }
      ScaleBound(u012, qhat + 1, v12, p, ur, vr);
    }
  }

  lemma ScaleBound(x: nat, k: nat, y: nat, p: nat, r: nat, s: nat)
    requires x < k * y && r < p
    ensures x * p + r < k * (y * p + s)
  {
    MulStep(x, k * y, p, r);
    MulAssoc(k, y, p);
    MulMono(y * p, y * p + s, k);
  }

  /** Two steps of positional notation folded into one. */
  lemma Fold(x: nat, d: nat, b: nat, p: nat)
    ensures (x * b + d) * p == x * (b * p) + d * p
  {
  }

  lemma HeadUnfolds(s: seq<nat>, b: nat)
    requires s != []
    ensures Val(s, b) == s[0] * Pow(b, |s| - 1) + Val(s[1..], b)
  {
  }

  lemma PowUnfolds(b: nat, k: nat)
    ensures Pow(b, k + 1) == b * Pow(b, k)
  {
  }

  lemma LeadingTwo(w: seq<nat>, b: nat)
    requires |w| >= 2
    ensures Val(w, b) == (w[0] * b + w[1]) * Pow(b, |w| - 2) + Val(w[2..], b)
  {
    hide *;
    HeadUnfolds(w, b);
    HeadUnfolds(w[1..], b);
    assert w[1..][1..] == w[2..];
    PowUnfolds(b, |w| - 2);
    Fold(w[0], w[1], b, Pow(b, |w| - 2));
  }

  lemma LeadingThree(s: seq<nat>, b: nat)
    requires |s| >= 3
    ensures Val(s, b) == ((s[0] * b + s[1]) * b + s[2]) * Pow(b, |s| - 3) + Val(s[3..], b)
  {
    hide *;
    LeadingTwo(s, b);
    HeadUnfolds(s[2..], b);
    assert s[2..][1..] == s[3..];
    PowUnfolds(b, |s| - 3);
    Fold(s[0] * b + s[1], s[2], b, Pow(b, |s| - 3));
  }

  lemma SuffixBound(s: seq<nat>, k: nat, b: nat)
    requires k <= |s| && AreDigits(s, b)
    ensures Val(s[k..], b) < Pow(b, |s| - k)
  {
    ValBound(s[k..], b);
  }

  lemma LargerHeadIsLarger(x: nat, y: nat, p: nat, b: nat, r: nat)
    requires x < y && r < p
    ensures (x * p + r) * b <= y * (b * p)
  {
    MulStep(x, y, p, r);
    MulMono(x * p + r, y * p, b);
    MulAssoc(y, p, b);
  }

  /** The leading dividend digit never exceeds the leading divisor digit while u < v * b holds. */
  lemma LeadingDigitBound(s: seq<nat>, w: seq<nat>, b: nat)
    requires |s| == |w| + 1 && w != [] && AreDigits(w, b)
    requires Val(s, b) < Val(w, b) * b
    ensures s[0] <= w[0]
  {
    if s[0] > w[0] {
      var p := Pow(b, |w| - 1);
      SuffixBound(w, 1, b);
      assert Pow(b, |w|) == b * p;
      LargerHeadIsLarger(w[0], s[0], p, b, Val(w[1..], b));
    }
  }

  /** The digit that EstimateDigit computes is the true quotient digit or exactly one more. */
  lemma DigitEstimate(s: seq<nat>, w: seq<nat>, b: nat, qhat: nat)
    requires b >= 2 && |s| == |w| + 1 && |w| >= 2 && AreDigits(s, b) && AreDigits(w, b)
    requires w[0] > 0 && Val(s, b) < Val(w, b) * b
    requires qhat == BestDigit(b, s[0] * b + s[1], s[2], w[0], w[1])
    ensures Val(w, b) > 0 && qhat < b
    ensures qhat == Val(s, b) / Val(w, b) || qhat == Val(s, b) / Val(w, b) + 1
  {
    hide Val, Pow, AreDigits;
    var p := Pow(b, |w| - 2);
    var u012: nat, v12: nat := (s[0] * b + s[1]) * b + s[2], w[0] * b + w[1];
    var ur, vr := Val(s[3..], b), Val(w[2..], b);
    SuffixBound(s, 3, b);
    SuffixBound(w, 2, b);
    LeadingTwo(w, b);
    LeadingThree(s, b);
    assert v12 >= b by { MulMono(1, w[0], b); }
    DigitBounds(b, p, Val(s, b), Val(w, b), u012, ur, v12, vr, qhat);
  }

  lemma DigitBounds(b: nat, p: nat, uu: nat, vv: nat, u012: nat, ur: nat, v12: nat, vr: nat, qhat: nat)
    requires v12 >= b >= 1 && ur < p && vr < p
    requires uu == u012 * p + ur && vv == v12 * p + vr
    requires uu < vv * b
    requires qhat == Min(b - 1, u012 / v12)
    ensures vv > 0
    ensures qhat == uu / vv || qhat == uu / vv + 1
  {
    EstimateIsCloseAbove(b, p, uu, vv, u012, ur, v12, vr, qhat);
    EstimateIsLargeEnough(b, p, uu, vv, u012, ur, v12, vr, qhat);
    if qhat * vv <= uu {
      QuotientIs(uu, vv, qhat);
    } else {
      QuotientIs(uu, vv, qhat - 1);
    }
  }

  // ----- D4: multiply and subtract -----

  /** LHALF of a word. */
  function LowHalf(w: nat, b: nat): nat
    requires b > 0
  {
    w % b
  }

  /** HHALF of a word. */
  function HighHalf(w: nat, b: nat): nat
    requires b > 0
  {
    w / b
  }

  /** The borrow that a word leaves for the next digit: (B - HHALF(t)) & (B - 1). */
  function BorrowOut(w: nat, b: nat): nat
    requires 0 < b
  {
    (b - w / b) % b
  }

  /** One word of the multiply-and-subtract loop splits into a digit and the borrow into the next one. */
  lemma BorrowWord(b: nat, x: int)
    requires b >= 2 && b - b * b <= x < b
    ensures LowHalf(Wrap(x, b), b) < b && BorrowOut(Wrap(x, b), b) < b
    ensures x == LowHalf(Wrap(x, b), b) - BorrowOut(Wrap(x, b), b) * b
  {
    if x >= 0 {
      SmallWord(b, x);
    } else {
      NegativeWord(b, x);
    }
  }

  lemma SmallWord(b: nat, x: nat)
    requires b >= 2 && x < b
    ensures Wrap(x, b) == x == LowHalf(x, b) && BorrowOut(x, b) == 0 && HighHalf(x, b) == 0
  {
    assert b < b * b by { MulMono(2, b, b); }
    SmallMod(x, b * b);
    SmallHalves(x, b);
  }

  lemma SmallHalves(x: nat, b: nat)
    requires x < b
    ensures LowHalf(x, b) == x && HighHalf(x, b) == 0 && BorrowOut(x, b) == 0
  {
  }

  lemma NegativeWord(b: nat, x: int)
    requires b >= 2 && b - b * b <= x < 0
    ensures var w := Wrap(x, b);
            && 0 < BorrowOut(w, b) == b - HighHalf(w, b) < b
            && x == LowHalf(w, b) - BorrowOut(w, b) * b
  {
    ModShift(x, b * b);
    WordBorrow(x + b * b, b);
  }

  lemma WordBorrow(w: nat, b: nat)
    requires 2 <= b <= w < b * b
    ensures 0 < BorrowOut(w, b) == b - HighHalf(w, b) < b
    ensures w - b * b == LowHalf(w, b) - BorrowOut(w, b) * b
  {
    HalvesOf(w, b);
    SmallMod(b - w / b, b);
    MulDist(b, w / b, b);
  }

  lemma SmallMod(k: nat, b: nat)
    requires k < b
    ensures k % b == k
  {
  }

  lemma HalvesOf(w: nat, b: nat)
    requires 2 <= b <= w < b * b
    ensures 1 <= w / b < b && w == (w / b) * b + w % b
  {
  }

  lemma ModShift(x: int, m: int)
    requires -m <= x < 0
    ensures x % m == x + m
  {
  }

  /** Product-and-borrow words never leave the range that BorrowWord covers. */
  lemma WordRange(b: nat, x: nat, y: nat, qhat: nat, t: nat)
    requires b >= 2 && x < b && y < b && qhat < b && t < b
    ensures b - b * b <= x - y * qhat - t < b
  {
    DigitProduct(b, y, qhat);
  }

  lemma DigitProduct(b: nat, y: nat, z: nat)
    requires y < b && z < b
    ensures 0 <= y * z <= b * b - 2 * b + 1
  {
    var c := b - 1;
    assert c * c == b * b - 2 * b + 1 by { MulDist(b, 1, c); MulDist(b, 1, b); }
    MulMono(y, c, z);
    MulMono(z, c, c);
  }

  lemma BorrowStep(b: nat, p: nat, x: int, y: int, d: int, t: int, t2: int, q: int, xs: int, ys: int, ds: int)
    requires ds == xs - q * ys + t * p
    requires d - t2 * b == x - y * q - t
    ensures d * p + ds == (x * p + xs) - q * (y * p + ys) + t2 * (b * p)
  {
  }

  /** Prepending a digit, as the loops that run from the last digit to the first do. */
  lemma PrependDigit(a: seq<nat>, i: nat, j: nat, b: nat)
    requires i < j <= |a|
    ensures Val(a[i..j], b) == a[i] * Pow(b, j - i - 1) + Val(a[i + 1..j], b)
  {
  }

  ghost predicate SameOutside(a: seq<nat>, a': seq<nat>, lo: nat, hi: nat) {
    |a'| == |a| && forall k :: 0 <= k < |a| && !(lo <= k < hi) ==> a'[k] == a[k]
  }

  /**
   u[lo .. lo+n] -= qhat * v[1..n], with the pointers at offsets lo and vo; returns whether a borrow is left over.
   */
  method MultiplySubtract(b: nat, u: array<nat>, lo: nat, v: array<nat>, vo: nat, n: nat, qhat: nat)
    returns (borrow: bool)
    requires b >= 2 && qhat < b && u != v && lo + n < u.Length && vo + n < v.Length
    requires AreDigits(u[..], b) && AreDigits(v[..], b)
    modifies u
    ensures AreDigits(u[..], b) && SameOutside(old(u[..]), u[..], lo, lo + n + 1)
    ensures Val(u[..][lo..lo + n + 1], b)
         == Val(old(u[..])[lo..lo + n + 1], b) - qhat * Val(v[..][vo + 1..vo + n + 1], b)
            + (if borrow then Pow(b, n + 1) else 0)
  {
    hide Val, Pow, Wrap, BorrowOut, LowHalf, HighHalf;
    ghost var s := u[..];
    var t, i := 0, n;
    EmptySuffix(s, lo + n + 1, v[..], vo + n + 1, b, qhat);
    while i > 0
      invariant 0 <= i <= n && 0 <= t < b && v[..] == old(v[..])
      invariant AreDigits(u[..], b) && SameOutside(s, u[..], lo + i + 1, lo + n + 1)
      invariant Val(u[..][lo + i + 1..lo + n + 1], b)
             == Val(s[lo + i + 1..lo + n + 1], b) - qhat * Val(v[..][vo + i + 1..vo + n + 1], b) + t * Pow(b, n - i)
    {
      t := SubtractWord(b, u, lo, n, i, v[..], vo, s, qhat, t);
      i := i - 1;
    }
    borrow := SubtractTop(b, u, lo, n, s, t);
  }

  lemma EmptySuffix(s: seq<nat>, i: nat, w: seq<nat>, j: nat, b: nat, qhat: nat)
    requires i <= |s| && j <= |w|
    ensures Val(s[i..i], b) == Val(s[i..i], b) - qhat * Val(w[j..j], b) + 0 * Pow(b, 0)
  {
  }

  /** The body of the subtraction loop: one digit of u and the borrow into the next. */
  method SubtractWord(b: nat, u: array<nat>, lo: nat, n: nat, i: nat, w: seq<nat>, vo: nat, ghost s: seq<nat>,
                      qhat: nat, t: nat)
    returns (t': nat)
    requires b >= 2 && qhat < b && t < b && 0 < i <= n && lo + n < u.Length && vo + n < |w|
    requires AreDigits(u[..], b) && AreDigits(w, b)
    requires SameOutside(s, u[..], lo + i + 1, lo + n + 1)
    requires Val(u[..][lo + i + 1..lo + n + 1], b)
          == Val(s[lo + i + 1..lo + n + 1], b) - qhat * Val(w[vo + i + 1..vo + n + 1], b) + t * Pow(b, n - i)
    modifies u
    ensures t' < b && AreDigits(u[..], b) && SameOutside(s, u[..], lo + i, lo + n + 1)
    ensures Val(u[..][lo + i..lo + n + 1], b)
         == Val(s[lo + i..lo + n + 1], b) - qhat * Val(w[vo + i..vo + n + 1], b) + t' * Pow(b, n - i + 1)
  {
    hide Val, Pow, Wrap, BorrowOut, LowHalf;
    ghost var before := u[..];
    WordRange(b, u[lo + i], w[vo + i], qhat, t);
    BorrowWord(b, u[lo + i] - w[vo + i] * qhat - t);
    var word := Wrap(u[lo + i] - w[vo + i] * qhat - t, b);
    u[lo + i] := LowHalf(word, b);
    t' := BorrowOut(word, b);
    assert u[..] == before[lo + i := LowHalf(word, b)];
    BorrowOneDigit(b, s, before, w, lo + i, lo + n + 1, vo + i, vo + n + 1, LowHalf(word, b), t, t', qhat);
  }

  lemma BorrowOneDigit(b: nat, s: seq<nat>, before: seq<nat>, w: seq<nat>, i: nat, hi: nat, j: nat, whi: nat,
                       d: nat, t: nat, t': nat, qhat: nat)
    requires i < hi <= |s| == |before| && j < whi <= |w| && hi - i == whi - j
    requires Val(before[i + 1..hi], b)
          == Val(s[i + 1..hi], b) - qhat * Val(w[j + 1..whi], b) + t * Pow(b, hi - i - 1)
    requires d - t' * b == s[i] - w[j] * qhat - t
    ensures Val(before[i := d][i..hi], b)
         == Val(s[i..hi], b) - qhat * Val(w[j..whi], b) + t' * Pow(b, hi - i)
  {
    hide *;
    var after := before[i := d];
    var p := Pow(b, hi - i - 1);
    assert after[i + 1..hi] == before[i + 1..hi];
    PrependDigit(after, i, hi, b);
    PrependDigit(s, i, hi, b);
    PrependDigit(w, j, whi, b);
    PowUnfolds(b, hi - i - 1);
    BorrowStep(b, p, s[i], w[j], d, t, t', qhat, Val(s[i + 1..hi], b), Val(w[j + 1..whi], b),
        Val(before[i + 1..hi], b));
  }

  /** The leading digit absorbs the last borrow, or does not. */
  method SubtractTop(b: nat, u: array<nat>, lo: nat, n: nat, ghost s: seq<nat>, t: nat) returns (borrow: bool)
    requires b >= 2 && t < b && lo + n < u.Length && |s| == u.Length
    requires AreDigits(u[..], b) && s[lo] == u[lo]
    modifies u
    ensures AreDigits(u[..], b) && SameOutside(old(u[..]), u[..], lo, lo + 1)
    ensures Val(u[..][lo..lo + n + 1], b) - Val(old(u[..])[lo + 1..lo + n + 1], b)
         == Val(s[lo..lo + n + 1], b) - Val(s[lo + 1..lo + n + 1], b) - t * Pow(b, n)
            + (if borrow then Pow(b, n + 1) else 0)
  {
    hide Val, Pow, Wrap, LowHalf, HighHalf;
    ghost var before := u[..];
    TopWord(b, u[lo], t);
    var word := Wrap(u[lo] - t, b);
    u[lo] := LowHalf(word, b);
    borrow := HighHalf(word, b) != 0;
    assert u[..] == before[lo := LowHalf(word, b)];
    assert u[..][lo + 1..lo + n + 1] == before[lo + 1..lo + n + 1];
    PrependDigit(u[..], lo, lo + n + 1, b);
    PrependDigit(s, lo, lo + n + 1, b);
    PowUnfolds(b, n);
    TopStep(b, Pow(b, n), s[lo], u[lo], t, if borrow then 1 else 0);
  }

  lemma TopWord(b: nat, x: nat, t: nat)
    requires b >= 2 && x < b && t < b
    ensures var w := Wrap(x - t, b);
            && LowHalf(w, b) < b
            && (HighHalf(w, b) != 0 <==> x < t)
            && x - t == LowHalf(w, b) - (if x < t then b else 0)
  {
    hide Wrap, BorrowOut, LowHalf, HighHalf;
    if x < t {
      assert b - b * b <= x - t by { MulMono(2, b, b); }
      NegativeWord(b, x - t);
      BorrowWord(b, x - t);
      BorrowOfOne(LowHalf(Wrap(x - t, b), b), BorrowOut(Wrap(x - t, b), b), b, x - t);
    } else {
      SmallWord(b, x - t);
    }
  }

  lemma BorrowOfOne(low: nat, k: nat, b: nat, y: int)
    requires k > 0 && low < b && -(b as int) < y == low - k * b
    ensures k == 1
  {
  }

  lemma TopStep(b: nat, p: nat, x: int, d: int, t: int, carry: int)
    requires d - carry * b == x - t
    ensures d * p == x * p - t * p + carry * (b * p)
  {
  }

  // ----- D6: add back -----

  lemma CarryStep(b: nat, p: nat, x: int, y: int, d: int, t: int, t2: int, xs: int, ys: int, ds: int)
    requires ds + t * p == xs + ys
    requires d + t2 * b == x + y + t
    ensures (d * p + ds) + t2 * (b * p) == (x * p + xs) + (y * p + ys)
  {
  }

  lemma CarryWord(b: nat, x: nat, y: nat, t: nat)
    requires b >= 2 && x < b && y < b && t <= 1
    ensures x + y + t < b * b
    ensures LowHalf(x + y + t, b) < b && HighHalf(x + y + t, b) <= 1
    ensures LowHalf(x + y + t, b) + HighHalf(x + y + t, b) * b == x + y + t
  {
    MulMono(2, b, b);
    var w := x + y + t;
    if w / b > 1 { MulMono(2, w / b, b); }
  }

  /** u[lo .. lo+n] += v[1..n]; a carry out of the leading digit is dropped, and returned here as a ghost. */
  method AddBack(b: nat, u: array<nat>, lo: nat, v: array<nat>, vo: nat, n: nat) returns (ghost carry: nat)
    requires b >= 2 && u != v && lo + n < u.Length && vo + n < v.Length
    requires AreDigits(u[..], b) && AreDigits(v[..], b)
    modifies u
    ensures AreDigits(u[..], b) && SameOutside(old(u[..]), u[..], lo, lo + n + 1)
    ensures carry <= 1
    ensures Val(u[..][lo..lo + n + 1], b) + carry * Pow(b, n + 1)
         == Val(old(u[..])[lo..lo + n + 1], b) + Val(v[..][vo + 1..vo + n + 1], b)
  {
    hide Val, Pow, LowHalf, HighHalf;
    ghost var s := u[..];
    var t, i := 0, n;
    EmptySum(s, lo + n + 1, v[..], vo + n + 1, b);
    while i > 0
      invariant 0 <= i <= n && 0 <= t <= 1 && v[..] == old(v[..])
      invariant AreDigits(u[..], b) && SameOutside(s, u[..], lo + i + 1, lo + n + 1)
      invariant Val(u[..][lo + i + 1..lo + n + 1], b) + t * Pow(b, n - i)
             == Val(s[lo + i + 1..lo + n + 1], b) + Val(v[..][vo + i + 1..vo + n + 1], b)
    {
      t := AddWord(b, u, lo, n, i, v[..], vo, s, t);
      i := i - 1;
    }
    CarryWord(b, u[lo], 0, t);
    ghost var before := u[..];
    carry := HighHalf(u[lo] + t, b);
    u[lo] := LowHalf(u[lo] + t, b);
    assert u[..] == before[lo := u[lo]];
    AddTopDigit(b, s, before, v[..], lo, lo + n + 1, vo, vo + n + 1, u[lo], t, carry);
  }

  lemma EmptySum(s: seq<nat>, i: nat, w: seq<nat>, j: nat, b: nat)
    requires i <= |s| && j <= |w|
    ensures Val(s[i..i], b) + 0 * Pow(b, 0) == Val(s[i..i], b) + Val(w[j..j], b)
  {
  }

  method AddWord(b: nat, u: array<nat>, lo: nat, n: nat, i: nat, w: seq<nat>, vo: nat, ghost s: seq<nat>, t: nat)
    returns (t': nat)
    requires b >= 2 && t <= 1 && 0 < i <= n && lo + n < u.Length && vo + n < |w|
    requires AreDigits(u[..], b) && AreDigits(w, b)
    requires SameOutside(s, u[..], lo + i + 1, lo + n + 1)
    requires Val(u[..][lo + i + 1..lo + n + 1], b) + t * Pow(b, n - i)
          == Val(s[lo + i + 1..lo + n + 1], b) + Val(w[vo + i + 1..vo + n + 1], b)
    modifies u
    ensures t' <= 1 && AreDigits(u[..], b) && SameOutside(s, u[..], lo + i, lo + n + 1)
    ensures Val(u[..][lo + i..lo + n + 1], b) + t' * Pow(b, n - i + 1)
         == Val(s[lo + i..lo + n + 1], b) + Val(w[vo + i..vo + n + 1], b)
  {
    hide Val, Pow, LowHalf, HighHalf;
    ghost var before := u[..];
    CarryWord(b, u[lo + i], w[vo + i], t);
    var word := u[lo + i] + w[vo + i] + t;
    u[lo + i] := LowHalf(word, b);
    t' := HighHalf(word, b);
    assert u[..] == before[lo + i := LowHalf(word, b)];
    AddOneDigit(b, s, before, w, lo + i, lo + n + 1, vo + i, vo + n + 1, LowHalf(word, b), t, t');
  }

  lemma AddOneDigit(b: nat, s: seq<nat>, before: seq<nat>, w: seq<nat>, i: nat, hi: nat, j: nat, whi: nat,
                    d: nat, t: nat, t': nat)
    requires i < hi <= |s| == |before| && j < whi <= |w| && hi - i == whi - j
    requires Val(before[i + 1..hi], b) + t * Pow(b, hi - i - 1) == Val(s[i + 1..hi], b) + Val(w[j + 1..whi], b)
    requires d + t' * b == s[i] + w[j] + t
    ensures Val(before[i := d][i..hi], b) + t' * Pow(b, hi - i) == Val(s[i..hi], b) + Val(w[j..whi], b)
  {
    hide *;
    var after := before[i := d];
    assert after[i + 1..hi] == before[i + 1..hi];
    PrependDigit(after, i, hi, b);
    PrependDigit(s, i, hi, b);
    PrependDigit(w, j, whi, b);
    PowUnfolds(b, hi - i - 1);
    CarryStep(b, Pow(b, hi - i - 1), s[i], w[j], d, t, t',
              Val(s[i + 1..hi], b), Val(w[j + 1..whi], b), Val(before[i + 1..hi], b));
  }

  lemma AddTopDigit(b: nat, s: seq<nat>, before: seq<nat>, w: seq<nat>, i: nat, hi: nat, j: nat, whi: nat,
                    d: nat, t: nat, t': nat)
    requires i < hi <= |s| == |before| && j < whi <= |w| && hi - i == whi - j
    requires Val(before[i + 1..hi], b) + t * Pow(b, hi - i - 1) == Val(s[i + 1..hi], b) + Val(w[j + 1..whi], b)
    requires d + t' * b == s[i] + t
    ensures Val(before[i := d][i..hi], b) + t' * Pow(b, hi - i) == Val(s[i..hi], b) + Val(w[j + 1..whi], b)
  {
    hide *;
    var after := before[i := d];
    assert after[i + 1..hi] == before[i + 1..hi];
    PrependDigit(after, i, hi, b);
    PrependDigit(s, i, hi, b);
    PowUnfolds(b, hi - i - 1);
    CarryStep(b, Pow(b, hi - i - 1), s[i], 0, d, t, t',
              Val(s[i + 1..hi], b), Val(w[j + 1..whi], b), Val(before[i + 1..hi], b));
  }

  // ----- D3 to D6: one quotient digit -----

  /** After the subtraction a borrow shows exactly when the estimate was one too large. */
  lemma BorrowMeansTooLarge(uu: nat, vv: nat, qhat: nat, p: nat, x: int, borrow: bool)
    requires vv > 0 && (qhat == uu / vv || qhat == uu / vv + 1)
    requires 0 <= x < p && x == uu - qhat * vv + (if borrow then p else 0)
    ensures borrow <==> qhat == uu / vv + 1
    ensures !borrow ==> x == uu % vv
    ensures borrow ==> x + vv == uu % vv + p
  {
  }

  /**
   One turn of the main loop. The quotient digit is exact, and the dividend digits are replaced by the remainder.
   */
  method DivideStep(b: nat, u: array<nat>, lo: nat, v: array<nat>, vo: nat, n: nat)
    returns (digit: nat, ghost corrections: nat)
    requires b >= 2 && n >= 2 && u != v && lo + n < u.Length && vo + n < v.Length
    requires AreDigits(u[..], b) && AreDigits(v[..], b)
    requires 2 * v[vo + 1] >= b
    requires Val(u[..][lo..lo + n + 1], b) < Val(v[..][vo + 1..vo + n + 1], b) * b
    modifies u
    ensures AreDigits(u[..], b) && SameOutside(old(u[..]), u[..], lo, lo + n + 1)
    ensures Val(v[..][vo + 1..vo + n + 1], b) > 0
    ensures digit < b && corrections <= 2
    ensures digit == Val(old(u[..])[lo..lo + n + 1], b) / Val(v[..][vo + 1..vo + n + 1], b)
    ensures Val(u[..][lo..lo + n + 1], b)
         == Val(old(u[..])[lo..lo + n + 1], b) % Val(v[..][vo + 1..vo + n + 1], b)
  {
    hide Val, Pow;
    var qhat;
    qhat, corrections := EstimateAt(b, u, lo, v, vo, n);
    digit := SubtractAndCorrect(b, u, lo, v, vo, n, qhat);
  }

  /** D3 on the arrays: the estimate is the true digit or exactly one more, after at most two corrections. */
  method EstimateAt(b: nat, u: array<nat>, lo: nat, v: array<nat>, vo: nat, n: nat)
    returns (qhat: nat, ghost corrections: nat)
    requires b >= 2 && n >= 2 && lo + n < u.Length && vo + n < v.Length
    requires AreDigits(u[..], b) && AreDigits(v[..], b)
    requires v[vo + 1] > 0
    requires Val(u[..][lo..lo + n + 1], b) < Val(v[..][vo + 1..vo + n + 1], b) * b
    ensures Val(v[..][vo + 1..vo + n + 1], b) > 0 && qhat < b
    ensures var q := Val(u[..][lo..lo + n + 1], b) / Val(v[..][vo + 1..vo + n + 1], b); qhat == q || qhat == q + 1
    ensures 2 * v[vo + 1] >= b ==> corrections <= 2
  {
    hide Val, Pow, BestDigit;
    ghost var s, w := u[..][lo..lo + n + 1], v[..][vo + 1..vo + n + 1];
    LeadingDigitBound(s, w, b);
    qhat, corrections := EstimateDigit(b, u[lo], u[lo + 1], u[lo + 2], v[vo + 1], v[vo + 2]);
    assert s[0] == u[lo] && s[1] == u[lo + 1] && s[2] == u[lo + 2] && w[0] == v[vo + 1] && w[1] == v[vo + 2];
    DigitEstimate(s, w, b, qhat);
  }

  /** D4 to D6 on the arrays, given an estimate that is at most one too large. */
  method SubtractAndCorrect(b: nat, u: array<nat>, lo: nat, v: array<nat>, vo: nat, n: nat, qhat: nat)
    returns (digit: nat)
    requires b >= 2 && u != v && lo + n < u.Length && vo + n < v.Length
    requires AreDigits(u[..], b) && AreDigits(v[..], b)
    requires Val(v[..][vo + 1..vo + n + 1], b) > 0 && qhat < b
    requires var q := Val(u[..][lo..lo + n + 1], b) / Val(v[..][vo + 1..vo + n + 1], b); qhat == q || qhat == q + 1
    modifies u
    ensures AreDigits(u[..], b) && SameOutside(old(u[..]), u[..], lo, lo + n + 1)
    ensures digit < b
    ensures digit == Val(old(u[..])[lo..lo + n + 1], b) / Val(v[..][vo + 1..vo + n + 1], b)
    ensures Val(u[..][lo..lo + n + 1], b)
         == Val(old(u[..])[lo..lo + n + 1], b) % Val(v[..][vo + 1..vo + n + 1], b)
  {
    hide Val, Pow;
    ghost var uu, vv := Val(u[..][lo..lo + n + 1], b), Val(v[..][vo + 1..vo + n + 1], b);
    var borrow := MultiplySubtract(b, u, lo, v, vo, n, qhat);
    ValBound(u[..][lo..lo + n + 1], b);
    BorrowMeansTooLarge(uu, vv, qhat, Pow(b, n + 1), Val(u[..][lo..lo + n + 1], b), borrow);
    digit := qhat;
    if borrow {
      digit := qhat - 1;
      ghost var carry := AddBack(b, u, lo, v, vo, n);
      ValBound(u[..][lo..lo + n + 1], b);
      DropCarry(Val(u[..][lo..lo + n + 1], b), carry, Pow(b, n + 1), uu % vv);
    }
  }

  lemma DropCarry(y: nat, carry: nat, p: nat, r: nat)
    requires y < p && carry <= 1 && y + carry * p == r + p
    ensures y == r
  {
  }

  // ----- D2 and D7: the whole division -----

  lemma SchoolStep(b: nat, q: nat, v: nat, r: nat, d: nat)
    requires v > 0
    ensures (q * v + r) * b + d == (q * b + (r * b + d) / v) * v + (r * b + d) % v
  {
  }

  lemma RemainderTimesBase(r: nat, v: nat, b: nat, d: nat)
    requires r < v && d < b
    ensures r * b + d < v * b
  {
    MulStep(r, v, b, d);
  }

  lemma SliceSnoc(s: seq<nat>, i: nat, j: nat, b: nat)
    requires i <= j < |s|
    ensures Val(s[i..j + 1], b) == Val(s[i..j], b) * b + s[j]
  {
    assert s[i..j + 1] == s[i..j] + [s[j]];
    ValSnoc(s[i..j], s[j], b);
  }

  /** Leading zeros do not count. */
  lemma SkipZeros(s: seq<nat>, i: nat, j: nat, k: nat, b: nat)
    requires i <= j <= k <= |s| && forall x :: i <= x < j ==> s[x] == 0
    ensures Val(s[i..k], b) == Val(s[j..k], b)
  {
    assert s[i..k] == s[i..j] + s[j..k];
    ValConcat(s[i..j], s[j..k], b);
    ValZeros(s[i..j], b);
  }

  /** What the main loop has achieved before turn j: school division of the first j + n dividend digits. */
  ghost predicate Divided(b: nat, s: seq<nat>, u: seq<nat>, uo: nat, q: seq<nat>, qo: nat, vv: nat, n: nat, j: nat)
    requires uo + j + n <= |s| == |u| && qo + j <= |q|
  {
    && Val(s[uo..uo + j + n], b) == Val(q[qo..qo + j], b) * vv + Val(u[uo + j..uo + j + n], b)
    && Val(u[uo + j..uo + j + n], b) < vv
  }

  lemma DividedNext(b: nat, s: seq<nat>, u: seq<nat>, u': seq<nat>, uo: nat, q: seq<nat>, q': seq<nat>, qo: nat,
                    vv: nat, n: nat, j: nat)
    requires uo + j + n < |s| == |u| == |u'| && qo + j < |q| == |q'|
    requires Divided(b, s, u, uo, q, qo, vv, n, j)
    requires s[uo + j + n] == u[uo + j + n] && AreDigits(u', b) && 0 < vv <= Pow(b, n)
    requires q'[qo..qo + j] == q[qo..qo + j]
    requires var x := Val(u[uo + j..uo + j + n + 1], b);
             q'[qo + j] == x / vv && Val(u'[uo + j..uo + j + n + 1], b) == x % vv
    ensures u'[uo + j] == 0
    ensures Divided(b, s, u', uo, q', qo, vv, n, j + 1)
  {
    hide Val, Pow, AreDigits;
    var r, d := Val(u[uo + j..uo + j + n], b), u[uo + j + n];
    SliceSnoc(s, uo, uo + j + n, b);
    SliceSnoc(u, uo + j, uo + j + n, b);
    SliceSnoc(q', qo, qo + j, b);
    SchoolStep(b, Val(q[qo..qo + j], b), vv, r, d);
    var t := u'[uo + j..uo + j + n + 1];
    SmallHasZeroHead(t, b);
    assert t[1..] == u'[uo + j + 1..uo + j + 1 + n];
    assert uo + (j + 1) + n == uo + j + n + 1;
  }

  /**
   The main loop: divide u[0 .. m+n] by v[1 .. n], leaving the quotient in q[0 .. m] and the remainder in u.
   The pointers are at offsets uo, vo and qo.
   */
  method DivideDigits(b: nat, u: array<nat>, uo: nat, v: array<nat>, vo: nat, q: array<nat>, qo: nat, n: nat, m: nat)
    requires b >= 2 && n >= 2 && u != v && u != q && v != q
    requires uo + m + n < u.Length && vo + n < v.Length && qo + m < q.Length
    requires AreDigits(u[..], b) && AreDigits(v[..], b)
    requires 2 * v[vo + 1] >= b
    requires Val(u[..][uo..uo + n], b) < Val(v[..][vo + 1..vo + n + 1], b)
    modifies u, q
    ensures AreDigits(u[..], b) && SameOutside(old(u[..]), u[..], uo, uo + m + n + 1)
    ensures SameOutside(old(q[..]), q[..], qo, qo + m + 1)
    ensures v[..] == old(v[..]) && Val(v[..][vo + 1..vo + n + 1], b) > 0
    ensures Val(q[..][qo..qo + m + 1], b)
         == Val(old(u[..])[uo..uo + m + n + 1], b) / Val(v[..][vo + 1..vo + n + 1], b)
    ensures Val(u[..][uo..uo + m + n + 1], b)
         == Val(old(u[..])[uo..uo + m + n + 1], b) % Val(v[..][vo + 1..vo + n + 1], b)
    ensures forall k :: uo <= k <= uo + m ==> u[k] == 0
    ensures forall k :: qo <= k <= qo + m ==> q[k] < b
  {
    hide Val, Pow, Divided;
    ghost var s, vv := u[..], Val(v[..][vo + 1..vo + n + 1], b);
    ValBound(v[..][vo + 1..vo + n + 1], b);
    DividedStart(b, s, uo, q[..], qo, vv, n);
    var j := 0;
    while j <= m
      invariant 0 <= j <= m + 1 && v[..] == old(v[..])
      invariant AreDigits(u[..], b) && SameOutside(s, u[..], uo, uo + j + n)
      invariant SameOutside(old(q[..]), q[..], qo, qo + j)
      invariant forall k :: uo <= k < uo + j ==> u[k] == 0
      invariant forall k :: qo <= k < qo + j ==> q[k] < b
      invariant Divided(b, s, u[..], uo, q[..], qo, vv, n, j)
    {
      ghost var u0, q0 := u[..], q[..];
      DividedAllowsStep(b, s, u0, uo, q0, qo, vv, n, j);
      var digit, _ := DivideStep(b, u, uo + j, v, vo, n);
      q[qo + j] := digit;
      DividedNext(b, s, u0, u[..], uo, q0, q[..], qo, vv, n, j);
      j := j + 1;
    }
    DividedEnd(b, s, u[..], uo, q[..], qo, vv, n, m);
  }

  lemma DividedStart(b: nat, s: seq<nat>, uo: nat, q: seq<nat>, qo: nat, vv: nat, n: nat)
    requires uo + n <= |s| && qo <= |q| && Val(s[uo..uo + n], b) < vv
    ensures Divided(b, s, s, uo, q, qo, vv, n, 0)
  {
  }

  lemma DividedAllowsStep(b: nat, s: seq<nat>, u: seq<nat>, uo: nat, q: seq<nat>, qo: nat, vv: nat, n: nat, j: nat)
    requires uo + j + n < |s| == |u| && qo + j <= |q| && AreDigits(u, b)
    requires Divided(b, s, u, uo, q, qo, vv, n, j)
    ensures Val(u[uo + j..uo + j + n + 1], b) < vv * b
  {
    SliceSnoc(u, uo + j, uo + j + n, b);
    RemainderTimesBase(Val(u[uo + j..uo + j + n], b), vv, b, u[uo + j + n]);
  }

  lemma DividedEnd(b: nat, s: seq<nat>, u: seq<nat>, uo: nat, q: seq<nat>, qo: nat, vv: nat, n: nat, m: nat)
    requires uo + m + n < |s| == |u| && qo + m < |q|
    requires Divided(b, s, u, uo, q, qo, vv, n, m + 1)
    requires forall k :: uo <= k <= uo + m ==> u[k] == 0
    ensures vv > 0
    ensures Val(q[qo..qo + m + 1], b) == Val(s[uo..uo + m + n + 1], b) / vv
    ensures Val(u[uo..uo + m + n + 1], b) == Val(s[uo..uo + m + n + 1], b) % vv
  {
    hide Val, Pow;
    assert uo + (m + 1) + n == uo + m + n + 1;
    SkipZeros(u, uo, uo + m + 1, uo + m + n + 1, b);
    DivModUnique(Val(s[uo..uo + m + n + 1], b), vv, Val(q[qo..qo + m + 1], b), Val(u[uo..uo + m + n + 1], b));
  }

  lemma DivModUnique(x: nat, y: nat, q: nat, r: nat)
    requires r < y && x == q * y + r
    ensures q == x / y && r == x % y
  {
    MulDist(q, 1, y);
    QuotientIs(x, y, q);
  }
}
