/**
 Unsigned 64-bit division on 16-bit digits: normalisation, the digit loop, and the shift that undoes
 the normalisation, with the one-digit short division as its own path.

 Bitwise | only ever joins values whose set bits are disjoint here, so it is written as +. A shift left
 by d bits is a multiplication by 2^d and a shift right by d bits a division by it.
 */
module QDivRem {
  import opened Common
  import opened Digits
  import opened AlgorithmD

  const B: nat := 0x1_0000
  const TWO64: nat := 0x1_0000_0000_0000_0000

  /** 2^d and 2^(16-d): the two shift amounts that the normalisation uses. */
  ghost predicate Shifts(d: nat, s: nat, t: nat) {
    d <= 16 && s == Pow(2, d) && t == Pow(2, 16 - d) && s * t == B && s > 0 && t > 0
  }

  lemma ShiftsExist(d: nat)
    requires d <= 16
    ensures Shifts(d, Pow(2, d), Pow(2, 16 - d))
  {
    hide Pow;
    PowAdd(2, d, 16 - d);
    PowTwo16();
    PowPositive(2, d);
    PowPositive(2, 16 - d);
  }

  lemma PowTwo16()
    ensures Pow(2, 16) == B
  {
    assert Pow(2, 4) == 16;
    PowAdd(2, 4, 4);
    PowAdd(2, 8, 8);
  }

  // ----- shl -----

  lemma DigitShift(x: nat, s: nat, t: nat)
    requires s > 0 && t > 0 && s * t == B && x < B
    ensures x * s == (x / t) * B + (x * s) % B
    ensures x / t < s
  {
    var h, l := Split(x, t);
    assert x * s == h * B + l * s by {
      MulDist(h * t, l, s);
      MulAssoc(h, t, s);
    }
    assert l * s < B by { MulStep(l, t, s, 0); }
    DivModUnique(x * s, B, h, l * s);
    assert h < s by { if h >= s { MulMono(s, h, t); } }
  }

  lemma Split(x: nat, t: nat) returns (h: nat, l: nat)
    requires t > 0
    ensures h == x / t && l == x % t && x == h * t + l && l < t
  {
    h, l := x / t, x % t;
  }

  lemma ShiftStep(val: nat, p: nat, out: nat, x: nat, s: nat, d: nat, hi: nat, next: nat, low: nat)
    requires val + out * p == x * s + hi
    requires d * s == hi * B + low
    ensures (val * B + (low + next)) + out * (B * p) == (x * B + d) * s + next
  {
  }

  /** Shift p[0..len] left by d bits; the bits that fall out on the left are p[0] >> (16 - d). */
  method ShiftLeft(p: array<nat>, off: nat, len: nat, d: nat)
    requires d <= 16 && off + len < p.Length && AreDigits(p[..], B)
    modifies p
    ensures AreDigits(p[..], B) && SameOutside(old(p[..]), p[..], off, off + len + 1)
    ensures Pow(2, 16 - d) > 0
    ensures Val(p[..][off..off + len + 1], B) + (old(p[off]) / Pow(2, 16 - d)) * Pow(B, len + 1)
         == Val(old(p[..])[off..off + len + 1], B) * Pow(2, d)
  {
    hide Val, Pow;
    ShiftsExist(d);
    var s, t := Pow(2, d), Pow(2, 16 - d);
    ghost var a := p[..];
    ghost var out := a[off] / t;
    ShiftStart(a, off, s, out);
    var i := 0;
    while i < len
      invariant 0 <= i <= len && AreDigits(p[..], B) && SameOutside(a, p[..], off, off + i)
      invariant Val(p[..][off..off + i], B) + out * Pow(B, i) == Val(a[off..off + i], B) * s + a[off + i] / t
    {
      DigitShift(a[off + i], s, t);
      DigitShift(a[off + i + 1], s, t);
      ghost var before := p[..];
      JoinedDigit(p[off + i], p[off + i + 1], s, t);
      p[off + i] := (p[off + i] * s) % B + p[off + i + 1] / t;
      ShiftOne(a, before, p[..], off, i, s, t, out, a[off + i + 1] / t);
      i := i + 1;
    }
    DigitShift(a[off + len], s, t);
    ghost var before := p[..];
    p[off + len] := (p[off + len] * s) % B;
    ShiftOne(a, before, p[..], off, len, s, t, out, 0);
  }

  lemma ShiftStart(a: seq<nat>, off: nat, s: nat, out: nat)
    requires off < |a|
    ensures Val(a[off..off + 0], B) + out * Pow(B, 0) == Val(a[off..off + 0], B) * s + out
  {
  }

  /** The shifted low part of one digit and the high part of the next never overlap. */
  lemma JoinedDigit(x: nat, y: nat, s: nat, t: nat)
    requires s > 0 && t > 0 && s * t == B && x < B && y < B
    ensures (x * s) % B + y / t < B
  {
    var l := x % t;
    DigitShift(x, s, t);
    DigitShift(y, s, t);
    assert x == (x / t) * t + l;
    assert (x * s) % B == l * s by {
      MulDist((x / t) * t, l, s);
      MulAssoc(x / t, t, s);
    }
    MulStep(l, t, s, y / t);
  }

  lemma ShiftOne(a: seq<nat>, before: seq<nat>, after: seq<nat>, off: nat, i: nat, s: nat, t: nat, out: nat, next: nat)
    requires |a| == |before| == |after| && off + i < |a|
    requires s > 0 && t > 0 && s * t == B && a[off + i] < B
    requires before[off..off + i] == after[off..off + i]
    requires after[off + i] == (a[off + i] * s) % B + next
    requires Val(before[off..off + i], B) + out * Pow(B, i) == Val(a[off..off + i], B) * s + a[off + i] / t
    ensures Val(after[off..off + i + 1], B) + out * Pow(B, i + 1) == Val(a[off..off + i + 1], B) * s + next
  {
    hide Val, Pow;
    DigitShift(a[off + i], s, t);
    SliceSnoc(a, off, off + i, B);
    SliceSnoc(after, off, off + i, B);
    PowUnfolds(B, i);
    ShiftStep(Val(before[off..off + i], B), Pow(B, i), out, Val(a[off..off + i], B), s,
              a[off + i], a[off + i] / t, next, (a[off + i] * s) % B);
  }

  // ----- the shift that undoes the normalisation -----

  /** The low bits of x moved to the top of a digit, joined with the high bits of y. */
  lemma RotatedDigit(x: nat, y: nat, s: nat, t: nat)
    requires s > 0 && t > 0 && s * t == B && x < B && y < B
    ensures (x * t) % B == (x % s) * t
    ensures y / s + (x * t) % B < B
  {
    var h, l := Split(x, s);
    DigitShift(x, t, s);
    assert x * t == h * B + l * t by {
      MulDist(h * s, l, t);
      MulAssoc(h, s, t);
    }
    DigitShift(y, t, s);
    MulStep(l, s, t, y / s);
  }

  lemma UnshiftStep(p: nat, s: nat, t: nat, x: nat, low: nat, z: nat, y: nat, r: nat)
    requires s > 0 && t > 0 && s * t == B
    requires z * s + r == y + (x % s) * p
    ensures ((x / s + low * t) * p + z) * s + r == (x * p + y) + low * (B * p)
  {
  }

  ghost predicate Unshifted(a: seq<nat>, u: seq<nat>, k: nat, hi: nat, s: nat)
    requires k <= hi < |a| == |u| && s > 0
  {
    Val(u[k + 1..hi + 1], B) * s + a[hi] % s == Val(a[k + 1..hi + 1], B) + (a[k] % s) * Pow(B, hi - k)
  }

  lemma UnshiftStart(a: seq<nat>, hi: nat, s: nat)
    requires hi < |a| && s > 0
    ensures Unshifted(a, a, hi, hi, s)
  {
  }

  lemma UnshiftOne(a: seq<nat>, before: seq<nat>, after: seq<nat>, k: nat, hi: nat, s: nat, t: nat, d: nat)
    requires 0 < k <= hi < |a| == |before| == |after|
    requires s > 0 && t > 0 && s * t == B
    requires Unshifted(a, before, k, hi, s)
    requires after == before[k := d] && d == a[k] / s + (a[k - 1] % s) * t
    ensures Unshifted(a, after, k - 1, hi, s)
  {
    hide Val, Pow;
    assert after[k + 1..hi + 1] == before[k + 1..hi + 1];
    PrependDigit(after, k, hi + 1, B);
    PrependDigit(a, k, hi + 1, B);
    PowUnfolds(B, hi - k);
    UnshiftStep(Pow(B, hi - k), s, t, a[k], a[k - 1] % s, Val(before[k + 1..hi + 1], B), Val(a[k + 1..hi + 1], B),
        a[hi] % s);
  }

  /** Shift u[lo .. hi] right by d bits into u[lo+1 .. hi], and clear u[lo]. */
  method ShiftRight(u: array<nat>, lo: nat, hi: nat, d: nat)
    requires d <= 16 && lo <= hi < u.Length && AreDigits(u[..], B)
    modifies u
    ensures AreDigits(u[..], B) && SameOutside(old(u[..]), u[..], lo, hi + 1) && u[lo] == 0
    ensures Pow(2, d) > 0
    ensures Unshifted(old(u[..]), u[..], lo, hi, Pow(2, d))
  {
    hide Val, Pow, Unshifted;
    ShiftsExist(d);
    var s, t := Pow(2, d), Pow(2, 16 - d);
    ghost var a := u[..];
    UnshiftStart(a, hi, s);
    var i := hi;
    while i > lo
      invariant lo <= i <= hi && AreDigits(u[..], B) && SameOutside(a, u[..], i + 1, hi + 1)
      invariant Unshifted(a, u[..], i, hi, s)
    {
      ghost var before := u[..];
      RotatedDigit(u[i - 1], u[i], s, t);
      u[i] := u[i] / s + (u[i - 1] * t) % B;
      UnshiftOne(a, before, u[..], i, hi, s, t, u[i]);
      i := i - 1;
    }
    ghost var before := u[..];
    u[i] := 0;
    SameUnshifted(a, before, u[..], lo, hi, s);
  }

  lemma SameUnshifted(a: seq<nat>, u: seq<nat>, u': seq<nat>, lo: nat, hi: nat, s: nat)
    requires lo <= hi < |a| == |u| == |u'| && s > 0
    requires Unshifted(a, u, lo, hi, s) && u' == u[lo := 0]
    ensures Unshifted(a, u', lo, hi, s)
  {
  }

  /** Undoing the shift of a remainder that is a multiple of 2^d. */
  lemma UnshiftedIsExact(a: seq<nat>, u: seq<nat>, lo: nat, hi: nat, s: nat, r: nat)
    requires lo <= hi < |a| == |u| && s > 0 && a[lo] == 0
    requires Unshifted(a, u, lo, hi, s)
    requires Val(a[lo + 1..hi + 1], B) == r * s
    ensures Val(u[lo + 1..hi + 1], B) == r
  {
    var z := Val(u[lo + 1..hi + 1], B);
    assert (a[lo] % s) * Pow(B, hi - lo) == 0;
    ExactQuotient(z, r, s, a[hi] % s);
  }

  lemma ExactQuotient(z: nat, r: nat, s: nat, e: nat)
    requires e < s && z * s + e == r * s
    ensures z == r
  {
    if z < r {
      MulStep(z, r, s, e);
    } else if z > r {
      MulMono(r + 1, z, s);
      MulDist(r, 1, s);
    }
  }

  /** Scaling dividend and divisor alike scales the remainder and keeps the quotient. */
  lemma ScaledDivision(u: nat, v: nat, s: nat)
    requires v > 0 && s > 0
    ensures v * s > 0
    ensures (u * s) / (v * s) == u / v && (u * s) % (v * s) == (u % v) * s
  {
    var q, r := Split(u, v);
    MulMono(1, v, s);
    assert u * s == q * (v * s) + r * s by {
      MulDist(q * v, r, s);
      MulAssoc(q, v, s);
    }
    MulStep(r, v, s, 0);
    DivModUnique(u * s, v * s, q, r * s);
  }

  // ----- __qdivrem -----

  lemma FourDigits(a: nat, b: nat, c: nat, d: nat)
    ensures Val([a, b, c, d], B) == ((a * B + b) * B + c) * B + d
  {
    ValSnoc([a, b, c], d, B);
    ValSnoc([a, b], c, B);
    ValSnoc([a], b, B);
    ValSingle(a, B);
    assert [a, b, c, d] == [a, b, c] + [d] && [a, b, c] == [a, b] + [c] && [a, b] == [a] + [b];
  }

  /** The two-word view of a 64-bit value, cut into four digits and back. */
  lemma DigitsOf(x: nat)
    requires x < TWO64
    ensures x / 0x1_0000_0000_0000 < B
    ensures x == ((x / 0x1_0000_0000_0000 * B + x / 0x1_0000_0000 % B) * B + x / B % B) * B + x % B
  {
  }

  method Load(p: array<nat>, x: nat)
    requires p.Length == 5 && x < TWO64
    modifies p
    ensures forall k :: 1 <= k < 5 ==> p[k] < B
    ensures p[0] == old(p[0])
    ensures Val(p[..][1..5], B) == x
  {
    hide Val;
    DigitsOf(x);
    p[1] := x / 0x1_0000_0000_0000;
    p[2] := x / 0x1_0000_0000 % B;
    p[3] := x / B % B;
    p[4] := x % B;
    assert p[..][1..5] == [p[1], p[2], p[3], p[4]];
    FourDigits(p[1], p[2], p[3], p[4]);
  }

  /** The COMBINE of four digits is the number they denote. */
  method Store(p: array<nat>) returns (x: nat)
    requires p.Length == 5 && forall k :: 1 <= k < 5 ==> p[k] < B
    ensures x == Val(p[..][1..5], B) < TWO64
  {
    hide Val;
    x := (p[1] * B + p[2]) * 0x1_0000_0000 + (p[3] * B + p[4]);
    assert p[..][1..5] == [p[1], p[2], p[3], p[4]];
    FourDigits(p[1], p[2], p[3], p[4]);
  }

  /** The short division for a one-digit divisor, fully unrolled as in the source. */
  method ShortDivide(u1: nat, u2: nat, u3: nat, u4: nat, t: nat) returns (q: nat, r: nat)
    requires u1 < B && u2 < B && u3 < B && u4 < B && 0 < t < B
    ensures q == (((u1 * B + u2) * B + u3) * B + u4) / t
    ensures r == (((u1 * B + u2) * B + u3) * B + u4) % t
    ensures q < TWO64
  {
    var q1: nat, r1: nat := Quot(u1, t), Rem(u1, t);
    ShortFirst(u1, t);
    var rbj := r1 * B + u2;
    var q2: nat, r2: nat := Quot(rbj, t), Rem(rbj, t);
    ShortStep(u1, t, q1, r1, u2);
    rbj := r2 * B + u3;
    var q3: nat, r3: nat := Quot(rbj, t), Rem(rbj, t);
    ShortStep(u1 * B + u2, t, q1 * B + q2, r2, u3);
    rbj := r3 * B + u4;
    var q4: nat, r4: nat := Quot(rbj, t), Rem(rbj, t);
    ShortStep((u1 * B + u2) * B + u3, t, (q1 * B + q2) * B + q3, r3, u4);
    q := (q1 * B + q2) * 0x1_0000_0000 + (q3 * B + q4);
    r := r4;
    DivModUnique(((u1 * B + u2) * B + u3) * B + u4, t, q, r);
  }

  lemma ShortFirst(x: nat, t: nat)
    requires t > 0 && x < B
    ensures x == Quot(x, t) * t + Rem(x, t) && Rem(x, t) < t && Quot(x, t) < B
  {
  }

  lemma ShortStep(x: nat, t: nat, q: nat, r: nat, d: nat)
    requires t > 0 && d < B && x == q * t + r && r < t
    ensures var y := r * B + d;
            && x * B + d == (q * B + Quot(y, t)) * t + Rem(y, t)
            && Rem(y, t) < t && Quot(y, t) < B
  {
  }

  /** What __qdivrem delivers: a trap, or a quotient and the remainder if the caller asked for one. */
  datatype Division = DivideByZero | Divided(q: nat, rem: Option<nat>)

  /** A divisor with n digits, the first of them not zero, is at least B^(n-1). */
  lemma LeadingDigitWeight(v: seq<nat>, vo: nat, n: nat)
    requires n >= 1 && vo + n < |v| && v[vo + 1] > 0
    ensures Val(v[vo + 1..vo + n + 1], B) >= Pow(B, n - 1)
  {
    PrependDigit(v, vo + 1, vo + n + 1, B);
    MulMono(1, v[vo + 1], Pow(B, n - 1));
  }

  /** A dividend at least as large as an n-digit divisor has a nonzero digit among its first 5 - n. */
  lemma DividendReaches(u: seq<nat>, v: seq<nat>, vo: nat, n: nat)
    requires |u| == |v| == 5 && vo + n == 4 && n >= 2 && AreDigits(u, B)
    requires v[vo + 1] > 0 && Val(u[1..5], B) >= Val(v[vo + 1..5], B)
    ensures exists k :: 1 <= k <= vo + 1 && u[k] != 0
  {
    if forall k :: 1 <= k <= vo + 1 ==> u[k] == 0 {
      SkipZeros(u, 1, vo + 2, 5, B);
      ValBound(u[vo + 2..5], B);
      LeadingDigitWeight(v, vo, n);
    }
  }

  /** D1: the number of bits to shift by, so that the leading digit reaches B/2 without overflowing. */
  method NormalisingShift(v1: nat) returns (d: nat)
    requires 0 < v1 < B
    ensures d <= 15 && B / 2 <= v1 * Pow(2, d) < B
  {
    hide Pow;
    d := 0;
    var t: nat := v1;
    assert Pow(2, 0) == 1 by { ValSingle(0, 2); PowUnfolds(2, 0); }
    while t < B / 2
      invariant t == v1 * Pow(2, d) && 0 < t < B && d <= 15 && t >= Pow(2, d)
      decreases B - t
    {
      if d == 15 { PowFifteen(); }
      DoubleShift(v1, d);
      t := t * 2;
      d := d + 1;
    }
  }

  lemma PowFifteen()
    ensures Pow(2, 15) == B / 2
  {
    PowTwo16();
  }

  lemma DoubleShift(v1: nat, d: nat)
    ensures v1 * Pow(2, d + 1) == (v1 * Pow(2, d)) * 2 && Pow(2, d + 1) == 2 * Pow(2, d)
  {
  }

  /** The shifted dividend meets the precondition of the digit loop: its first n digits are below the divisor. */
  lemma NormalisedPrefix(u: seq<nat>, uo: nat, m: nat, n: nat, x: nat, vv: nat, s: nat)
    requires n >= 1 && uo + m + n < |u| && s > 0
    requires Val(u[uo..uo + m + n + 1], B) == x * s && x < Pow(B, m + n) && vv >= Pow(B, n - 1)
    ensures Val(u[uo..uo + n], B) < vv * s
  {
    var p, pre := Pow(B, m + 1), Val(u[uo..uo + n], B);
    assert u[uo..uo + m + n + 1] == u[uo..uo + n] + u[uo + n..uo + m + n + 1];
    ValConcat(u[uo..uo + n], u[uo + n..uo + m + n + 1], B);
    PowAdd(B, n - 1, m + 1);
    PrefixBelow(pre, p, x, s, vv, Pow(B, n - 1));
  }

  lemma PrefixBelow(pre: nat, p: nat, x: nat, s: nat, vv: nat, w: nat)
    requires s > 0 && pre * p <= x * s && x < w * p && vv >= w
    ensures pre < vv * s
  {
  }

  /** A value of at least h * B^(n-1) written in n digits has a leading digit of at least h. */
  lemma LeadingDigitAtLeast(v: seq<nat>, i: nat, j: nat, h: nat)
    requires i < j <= |v| && AreDigits(v, B)
    requires Val(v[i..j], B) >= h * Pow(B, j - i - 1)
    ensures v[i] >= h
  {
    PrependDigit(v, i, j, B);
    ValBound(v[i + 1..j], B);
    if v[i] < h {
      MulStep(v[i], h, Pow(B, j - i - 1), Val(v[i + 1..j], B));
    }
  }

  lemma ScaledLead(v: seq<nat>, i: nat, j: nat, s: nat, h: nat)
    requires i < j <= |v| && v[i] * s >= h
    ensures Val(v[i..j], B) * s >= h * Pow(B, j - i - 1)
  {
  }

  lemma NothingFallsOut(x: nat, d: nat)
    requires d <= 16 && x * Pow(2, d) < B
    ensures Pow(2, 16 - d) > 0 && x / Pow(2, 16 - d) == 0
  {
    hide Pow;
    ShiftsExist(d);
    var s, t := Pow(2, d), Pow(2, 16 - d);
    assert x < t by { if x >= t { MulMono(t, x, s); } }
    SmallQuotient(x, t);
  }

  lemma SmallQuotient(x: nat, t: nat)
    requires x < t
    ensures x / t == 0
  {
  }

  /** Step D1: shifts both operands by the d that brings the leading divisor digit to at least B/2. */
  method Normalise(u: array<nat>, uo: nat, v: array<nat>, vo: nat, n: nat, m: nat) returns (d: nat)
    requires u != v && n >= 1 && uo + m + n < u.Length && vo + n < v.Length
    requires AreDigits(u[..], B) && AreDigits(v[..], B) && u[uo] == 0 && v[vo + 1] > 0
    modifies u, v
    ensures d <= 15 && Pow(2, d) > 0
    ensures AreDigits(u[..], B) && AreDigits(v[..], B) && 2 * v[vo + 1] >= B
    ensures SameOutside(old(u[..]), u[..], uo, uo + m + n + 1)
    ensures Val(u[..][uo..uo + m + n + 1], B) == Val(old(u[..])[uo..uo + m + n + 1], B) * Pow(2, d)
    ensures Val(v[..][vo + 1..vo + n + 1], B) == Val(old(v[..])[vo + 1..vo + n + 1], B) * Pow(2, d)
    ensures d == 0 ==> u[..] == old(u[..])
  {
    hide Val, Pow;
    d := NormalisingShift(v[vo + 1]);
    ghost var a, w := u[..], v[..];
    ScaledLead(w, vo + 1, vo + n + 1, Pow(2, d), B / 2);
    PowPositive(2, d);
    if d > 0 {
      NothingFallsOut(a[uo], d);
      NothingFallsOut(w[vo + 1], d);
      ShiftLeft(u, uo, m + n, d);
      ShiftLeft(v, vo + 1, n - 1, d);
    } else {
      PowZero(2);
    }
    LeadingDigitAtLeast(v[..], vo + 1, vo + n + 1, B / 2);
  }

  lemma PowZero(b: nat)
    ensures Pow(b, 0) == 1
  {
  }

  /** The long path: at least two divisor digits. */
  method LongDivide(u: array<nat>, v: array<nat>, vo: nat, n: nat, wantRem: bool) returns (quot: nat, rem: Option<nat>)
    requires u != v && u.Length == v.Length == 5 && vo + n == 4 && n >= 2
    requires AreDigits(u[..], B) && AreDigits(v[..], B) && u[0] == 0 && v[vo + 1] > 0
    requires Val(u[..][1..5], B) >= Val(v[..][vo + 1..5], B)
    modifies u, v
    ensures Val(old(v[..])[vo + 1..5], B) > 0
    ensures quot == Val(old(u[..])[1..5], B) / Val(old(v[..])[vo + 1..5], B) < TWO64
    ensures rem == if wantRem then Some(Val(old(u[..])[1..5], B) % Val(old(v[..])[vo + 1..5], B)) else None
  {
    hide Val, Pow, Unshifted;
    ghost var x, y := Val(u[..][1..5], B), Val(v[..][vo + 1..5], B);
    DividendReaches(u[..], v[..], vo, n);
    LeadingDigitWeight(v[..], vo, n);
    PowPositive(B, n - 1);
    var uo, m := SkipLeadingZeros(u, vo, n);
    var q := new nat[5];
    ClearBelow(q, 4 - m);
    ghost var a := u[..];
    DividendSlice(a, uo, m, n);
    var d := Normalise(u, uo, v, vo, n, m);
    NormalisedPrefix(u[..], uo, m, n, x, y, Pow(2, d));
    quot, rem := DivideNormalised(u, uo, v, vo, q, n, m, d, wantRem, x, y);
  }

  /** D2 to D7 and the final shift, on operands already scaled by 2^d. */
  method DivideNormalised(u: array<nat>, uo: nat, v: array<nat>, vo: nat, q: array<nat>, n: nat, m: nat, d: nat,
                          wantRem: bool, ghost x: nat, ghost y: nat)
    returns (quot: nat, rem: Option<nat>)
    requires u != v && u != q && v != q && u.Length == v.Length == q.Length == 5
    requires vo + n == 4 && n >= 2 && m + n + uo == 4 && d <= 15
    requires AreDigits(u[..], B) && AreDigits(v[..], B)
    requires (forall k :: 0 <= k < uo ==> u[k] == 0) && (forall k :: 0 <= k < 4 - m ==> q[k] == 0)
    requires 2 * v[vo + 1] >= B && y > 0 && Pow(2, d) > 0
    requires Val(u[..][uo..5], B) == x * Pow(2, d) && Val(v[..][vo + 1..5], B) == y * Pow(2, d)
    requires Val(u[..][uo..uo + n], B) < y * Pow(2, d)
    modifies u, q
    ensures quot == x / y < TWO64
    ensures rem == if wantRem then Some(x % y) else None
  {
    hide Val, Pow;
    ScaledDivision(x, y, Pow(2, d));
    DivideDigits(B, u, uo, v, vo, q, 4 - m, n, m);
    SkipZeros(q[..], 1, 4 - m, 5, B);
    quot := Store(q);
    rem := None;
    if wantRem {
      SkipZeros(u[..], uo, uo + m + 1, 5, B);
      var r := StoreRemainder(u, uo + m, d, x % y);
      rem := Some(r);
    }
  }

  /** Zeros the quotient digits in front of those to be computed. */
  method ClearBelow(q: array<nat>, hi: nat)
    requires hi <= q.Length
    modifies q
    ensures forall k :: 0 <= k < hi ==> q[k] == 0
    ensures forall k :: hi <= k < q.Length ==> q[k] == old(q[k])
  {
    var i := hi;
    while i > 0
      invariant 0 <= i <= hi && forall k :: i <= k < hi ==> q[k] == 0
      invariant forall k :: hi <= k < q.Length ==> q[k] == old(q[k])
    {
      i := i - 1;
      q[i] := 0;
    }
  }

  /** Moves the dividend's start to its first nonzero digit; each step shortens the quotient by one digit. */
  method SkipLeadingZeros(u: array<nat>, vo: nat, n: nat) returns (uo: nat, m: nat)
    requires u.Length == 5 && vo + n == 4 && n >= 2 && u[0] == 0
    requires exists k :: 1 <= k <= vo + 1 && u[k] != 0
    ensures uo <= vo && m + n + uo == 4 && u[uo + 1] != 0 && forall k :: 0 <= k <= uo ==> u[k] == 0
  {
    uo, m := 0, 4 - n;
    while u[uo + 1] == 0
      invariant uo <= vo && m + n + uo == 4 && forall k :: 0 <= k <= uo ==> u[k] == 0
      decreases m
    {
      assert m > 0 by { if m == 0 { assert forall k :: 1 <= k <= vo + 1 ==> u[k] == 0; } }
      uo, m := uo + 1, m - 1;
    }
  }

  lemma DividendSlice(a: seq<nat>, uo: nat, m: nat, n: nat)
    requires |a| == 5 && m + n + uo == 4 && AreDigits(a, B) && forall k :: 0 <= k <= uo ==> a[k] == 0
    ensures Val(a[uo..5], B) == Val(a[1..5], B) < Pow(B, m + n)
  {
    SkipZeros(a, uo, uo + 1, 5, B);
    SkipZeros(a, 1, uo + 1, 5, B);
    ValBound(a[uo + 1..5], B);
  }

  /** The remainder is u[mo .. 4] >> d, read off as four digits. */
  method StoreRemainder(u: array<nat>, mo: nat, d: nat, ghost r: nat) returns (x: nat)
    requires u.Length == 5 && mo < 4 && d <= 15 && AreDigits(u[..], B)
    requires forall k :: 0 <= k <= mo ==> u[k] == 0
    requires Val(u[..][mo + 1..5], B) == r * Pow(2, d)
    modifies u
    ensures x == r
  {
    hide Val, Pow, Unshifted;
    ghost var a := u[..];
    if d > 0 {
      ShiftRight(u, mo, 4, d);
      UnshiftedIsExact(a, u[..], mo, 4, Pow(2, d), r);
    } else {
      PowZero(2);
    }
    SkipZeros(u[..], 1, mo + 1, 5, B);
    x := Store(u);
  }

  /** The short path: the divisor is the single digit v[4]. */
  method ShortPath(u: array<nat>, v: array<nat>) returns (q: nat, r: nat)
    requires u.Length == v.Length == 5
    requires (forall k :: 1 <= k < 5 ==> u[k] < B && v[k] < B) && (forall k :: 1 <= k <= 3 ==> v[k] == 0)
    requires Val(v[..][1..5], B) > 0
    ensures q == Val(u[..][1..5], B) / Val(v[..][1..5], B) < TWO64
    ensures r == Val(u[..][1..5], B) % Val(v[..][1..5], B)
  {
    hide Val, Pow;
    assert u[..][1..5] == [u[1], u[2], u[3], u[4]] && v[..][1..5] == [v[1], v[2], v[3], v[4]];
    FourDigits(u[1], u[2], u[3], u[4]);
    FourDigits(v[1], v[2], v[3], v[4]);
    q, r := ShortDivide(u[1], u[2], u[3], u[4], v[4]);
  }

  /**
   __qdivrem: the quotient and, if the caller passes a place for it, the remainder of two 64-bit values.
   */
  method QDivRem(ull: nat, vll: nat, wantRem: bool) returns (res: Division)
    requires ull < TWO64 && vll < TWO64
    ensures res.DivideByZero? <==> vll == 0
    ensures res.Divided? ==>
              && res.q == ull / vll < TWO64
              && res.rem == if wantRem then Some(ull % vll) else None
  {
    hide Val, Pow;
    if vll == 0 {
      return DivideByZero;
    }
    if ull < vll {
      SmallMod(ull, vll);
      SmallQuotient(ull, vll);
      return Divided(0, if wantRem then Some(ull) else None);
    }
    var u, v := new nat[5](_ => 0), new nat[5](_ => 0);
    Load(u, ull);
    Load(v, vll);
    var n, vo := 4, 0;
    while v[vo + 1] == 0
      invariant 2 <= n <= 4 && vo + n == 4
      invariant forall k :: 1 <= k <= vo ==> v[k] == 0
      decreases n
    {
      n := n - 1;
      if n == 1 {
        var q, r := ShortPath(u, v);
        return Divided(q, if wantRem then Some(r) else None);
      }
      vo := vo + 1;
    }
    SkipZeros(v[..], 1, vo + 1, 5, B);
    var q, rem := LongDivide(u, v, vo, n, wantRem);
    res := Divided(q, rem);
  }
}
