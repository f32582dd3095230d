/**
 Numbers written as sequences of digits in some base, most significant digit first.
 This is the value that the digit arrays of the 64-bit division code stand for.
 */
module Digits {

  function Pow(b: nat, k: nat): nat {
    if k == 0 then 1 else b * Pow(b, k - 1)
  }

  ghost predicate AreDigits(s: seq<nat>, b: nat) {
    forall i :: 0 <= i < |s| ==> s[i] < b
  }

  /** The number that the digits of `s` denote in base `b`. */
  function Val(s: seq<nat>, b: nat): nat {
    if s == [] then 0 else s[0] * Pow(b, |s| - 1) + Val(s[1..], b)
  }

  // Products of variables are reasoned about only in these small lemmas.

  lemma MulMono(x: nat, y: nat, z: nat)
    requires x <= y
    ensures x * z <= y * z
    ensures z * x <= z * y
  {
  }

  lemma MulAssoc(x: int, y: int, z: int)
    ensures (x * y) * z == x * (y * z)
  {
  }

  lemma MulDist(x: int, y: int, z: int)
    ensures (x + y) * z == x * z + y * z
    ensures (x - y) * z == x * z - y * z
    ensures z * (x + y) == z * x + z * y
    ensures z * (x - y) == z * x - z * y
  {
  }

  /** If x < y then x*z + r < y*z for every r < z. */
  lemma MulStep(x: nat, y: nat, z: nat, r: nat)
    requires x < y && r < z
    ensures x * z + r < y * z
  {
    MulMono(x + 1, y, z);
    MulDist(x, 1, z);
  }

  lemma PowPositive(b: nat, k: nat)
    requires b > 0
    ensures Pow(b, k) > 0
  {
  }

  lemma {:induction false} PowAdd(b: nat, j: nat, k: nat)
    ensures Pow(b, j + k) == Pow(b, j) * Pow(b, k)
  {
    if j > 0 {
      PowAdd(b, j - 1, k);
      MulAssoc(b, Pow(b, j - 1), Pow(b, k));
    }
  }

  /** k digits denote a number below b^k. */
  lemma {:induction false} ValBound(s: seq<nat>, b: nat)
    requires AreDigits(s, b)
    ensures Val(s, b) < Pow(b, |s|)
  {
    if s != [] {
      ValBound(s[1..], b);
      MulStep(s[0], b, Pow(b, |s| - 1), Val(s[1..], b));
    }
  }

  lemma {:induction false} ValConcat(s: seq<nat>, t: seq<nat>, b: nat)
    ensures Val(s + t, b) == Val(s, b) * Pow(b, |t|) + Val(t, b)
  {
    if s == [] {
      assert s + t == t;
    } else {
      var p, q := Pow(b, |s| - 1), Pow(b, |t|);
      assert (s + t)[1..] == s[1..] + t;
      ValConcat(s[1..], t, b);
      PowAdd(b, |s| - 1, |t|);
      MulAssoc(s[0], p, q);
      MulDist(s[0] * p, Val(s[1..], b), q);
    }
  }

  lemma ValSingle(d: nat, b: nat)
    ensures Val([d], b) == d && Pow(b, 1) == b
  {
  }

  lemma ValSnoc(s: seq<nat>, d: nat, b: nat)
    ensures Val(s + [d], b) == Val(s, b) * b + d
  {
    ValConcat(s, [d], b);
    ValSingle(d, b);
  }

  lemma {:induction false} ValZeros(s: seq<nat>, b: nat)
    requires forall i :: 0 <= i < |s| ==> s[i] == 0
    ensures Val(s, b) == 0
  {
    if s != [] {
      ValZeros(s[1..], b);
    }
  }

  /** Written with k + 1 digits, a number below b^k has first digit zero. */
  lemma SmallHasZeroHead(s: seq<nat>, b: nat)
    requires s != [] && Val(s, b) < Pow(b, |s| - 1)
    ensures s[0] == 0 && Val(s, b) == Val(s[1..], b)
  {
    if s[0] > 0 {
      MulMono(1, s[0], Pow(b, |s| - 1));
    }
  }
}
