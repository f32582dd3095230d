/** atoi undoes printf's %d, exactly when no zeros are appended to the number. */
module RoundTrip {
  import opened PrintfSpec
  import opened PrintfLaws
  import opened Atoi
  import D = Digits

  const INT_MIN := 0 - 0x8000_0000
  const INT_MAX := 0x7FFF_FFFF

  predicate AllDigits(s: string) { forall i :: 0 <= i < |s| ==> IsDigit(s[i]) }

  // ----- the digits of a number denote the number -----

  lemma {:induction false} DecimalDigits(n: nat)
    ensures AllDigits(Digits(n, 10)) && Decimal(Digits(n, 10)) == n
    decreases n
  {
    if n < 10 {
      var s := Digits(n, 10);
      assert s[..0] == "";
    } else {
      hide Quo, Rem;
      DecimalDigits(Quo(n, 10));
      QuoRem(n, 10);
      var s := Digits(n, 10);
      assert s[..|s| - 1] == Digits(Quo(n, 10), 10);
    }
  }

  lemma {:induction false} DecimalConcat(a: string, b: string)
    ensures Decimal(a + b) == Decimal(a) * D.Pow(10, |b|) + Decimal(b)
    decreases |b|
  {
    if b == "" {
      assert a + b == a;
    } else {
      var n := |b| - 1;
      assert (a + b)[..|a| + n] == a + b[..n];
      DecimalConcat(a, b[..n]);
      D.MulAssoc(Decimal(a), D.Pow(10, n), 10);
    }
  }

  lemma {:induction false} DecimalZeros(n: nat)
    ensures Decimal(Fill('0', n)) == 0
  {
    if n > 0 {
      DecimalZeros(n - 1);
      assert Fill('0', n)[..n - 1] == Fill('0', n - 1);
    }
  }

  // ----- parsing a printed number -----

  predicate IsSign(sign: string) { sign == "" || sign == "-" || sign == "+" }

  /** The word that atoi returns: congruent to the number, and in the range of int. */
  lemma SignedMeans(x: int)
    ensures INT_MIN <= Signed(x) <= INT_MAX && (Signed(x) - x) % WORD == 0
  {
  }

  /**
   * Spaces and tabs, a sign if any, digits if any, and anything that does not go on with them:
   * the number that sign and digits denote, and zero if there are no digits.
   */
  lemma ParseNumber(blanks: string, sign: string, ds: string, rest: string)
    requires (forall i :: 0 <= i < |blanks| ==> blanks[i] == ' ' || blanks[i] == '\t') && IsSign(sign)
    requires AllDigits(ds) && (rest != "" ==> !IsDigit(rest[0]))
    requires sign == "" && ds == "" && rest != "" ==>
               rest[0] != ' ' && rest[0] != '\t' && rest[0] != '-' && rest[0] != '+'
    ensures Parse(blanks + sign + ds + rest) == Signed(if sign == "-" then 0 - Decimal(ds) else Decimal(ds))
    ensures ds == "" ==> Parse(blanks + sign + ds + rest) == 0
  {
    hide Decimal, Signed, Run, SignLength, Parse;
    var u := ds + rest;
    assert blanks + sign + ds + rest == blanks + (sign + u);
    assert sign + u != "" ==> !IsBlank((sign + u)[0]);
    assert sign == "" && u != "" ==> u[0] != '-' && u[0] != '+';
    hide AllDigits, IsDigit, IsBlank;
    RunOf(ds, rest);
    ParseParts(blanks, sign, u);
    if ds == "" { NoNumber(); }
  }

  lemma RunOf(ds: string, rest: string)
    requires AllDigits(ds) && (rest != "" ==> !IsDigit(rest[0]))
    ensures Run(ds + rest) == |ds| && (ds + rest)[..|ds|] == ds
  {
    RunAt(ds + rest, |ds|);
  }

  lemma ParseParts(blanks: string, sign: string, u: string)
    requires (forall i :: 0 <= i < |blanks| ==> IsBlank(blanks[i])) && IsSign(sign)
    requires (sign + u != "" ==> !IsBlank((sign + u)[0])) && (sign == "" && u != "" ==> u[0] != '-' && u[0] != '+')
    ensures var v := Decimal(u[..Run(u)]); Parse(blanks + (sign + u)) == Signed(if sign == "-" then 0 - v else v)
  {
    hide Decimal, Signed, Run, SkipBlanks;
    BlanksSkipped(blanks, sign + u);
    AfterSign(sign, u);
  }

  lemma NoNumber()
    ensures Decimal("") == 0 && Signed(0) == 0
  {
  }

  lemma BlanksSkipped(blanks: string, t: string)
    requires forall i :: 0 <= i < |blanks| ==> IsBlank(blanks[i])
    requires t != "" ==> !IsBlank(t[0])
    ensures SkipBlanks(blanks + t) == t
  {
    SkipBlanksAt(blanks + t, |blanks|);
    assert (blanks + t)[|blanks|..] == t;
  }

  lemma AfterSign(sign: string, u: string)
    requires IsSign(sign) && (sign == "" && u != "" ==> u[0] != '-' && u[0] != '+')
    ensures var t := sign + u; (t != "" && t[0] == '-' <==> sign == "-") && t[SignLength(t)..] == u
  {
  }

  function Negate(sign: string, v: int): int { if sign == "-" then 0 - v else v }

  lemma SpacesBefore(sign: string, ds: string, p: nat)
    requires (sign == "" || sign == "-") && ds != "" && AllDigits(ds)
    ensures Parse(Fill(' ', p) + sign + "" + ds) == Signed(Negate(sign, Decimal(ds)))
  {
    hide Decimal, Signed, Parse;
    assert Fill(' ', p) + sign + "" + ds == Fill(' ', p) + sign + ds + "";
    ParseNumber(Fill(' ', p), sign, ds, "");
  }

  lemma SpacesAfter(sign: string, ds: string, p: nat)
    requires (sign == "" || sign == "-") && ds != "" && AllDigits(ds)
    ensures Parse(sign + "" + ds + Fill(' ', p)) == Signed(Negate(sign, Decimal(ds)))
  {
    hide Decimal, Signed, Parse;
    assert sign + "" + ds + Fill(' ', p) == "" + sign + ds + Fill(' ', p);
    ParseNumber("", sign, ds, Fill(' ', p));
  }

  lemma ZerosBefore(sign: string, ds: string, p: nat)
    requires (sign == "" || sign == "-") && ds != "" && AllDigits(ds)
    ensures Parse(sign + "" + Fill('0', p) + ds) == Signed(Negate(sign, Decimal(ds)))
  {
    hide Decimal, Signed, Parse, D.Pow;
    assert sign + "" + Fill('0', p) + ds == "" + sign + (Fill('0', p) + ds) + "";
    DecimalConcat(Fill('0', p), ds);
    DecimalZeros(p);
    ParseNumber("", sign, Fill('0', p) + ds, "");
  }

  lemma ZerosAfter(sign: string, ds: string, p: nat)
    requires (sign == "" || sign == "-") && ds != "" && AllDigits(ds)
    ensures Parse(sign + "" + ds + Fill('0', p)) == Signed(Negate(sign, Decimal(ds) * D.Pow(10, p)))
  {
    hide Decimal, Signed, Parse, D.Pow;
    assert sign + "" + ds + Fill('0', p) == "" + sign + (ds + Fill('0', p)) + "";
    DecimalConcat(ds, Fill('0', p));
    DecimalZeros(p);
    ParseNumber("", sign, ds + Fill('0', p), "");
  }

  lemma SignAndMagnitude(n: int)
    requires INT_MIN <= n <= INT_MAX
    ensures Negate(SignPrefix(n), Magnitude(n)) == n && Signed(n) == n
    ensures SignPrefix(n) == "" || SignPrefix(n) == "-"
  {
  }

  /** A sign and digits, printed in a field under the modifiers m, read back. */
  lemma ParseDigits(m: Mods, sign: string, ds: string, p: nat)
    requires (m.fillchar == ' ' || m.fillchar == '0') && (sign == "" || sign == "-") && ds != "" && AllDigits(ds)
    requires p == Padding(m, |sign| + |ds|)
    ensures Parse(Field(m, sign, "", ds))
            == Signed(Negate(sign, if m.rightspc && m.fillchar == '0' then Decimal(ds) * D.Pow(10, p) else Decimal(ds)))
  {
    hide D.Pow, Parse, Fill, Padding, Signed, AllDigits, Decimal, Negate;
    assert |sign| + |""| + |ds| == |sign| + |ds|;
    if m.rightspc {
      if m.fillchar == ' ' { SpacesAfter(sign, ds, p); } else { ZerosAfter(sign, ds, p); }
    } else {
      if m.fillchar == ' ' { SpacesBefore(sign, ds, p); } else { ZerosBefore(sign, ds, p); }
    }
  }

  /** The number n as %d prints it under the modifiers m, read back. */
  lemma ParseField(m: Mods, n: int)
    requires (m.fillchar == ' ' || m.fillchar == '0') && INT_MIN <= n <= INT_MAX
    ensures var sign, ds := SignPrefix(n), Digits(Magnitude(n), 10);
            var p := Padding(m, |sign| + |ds|);
            Parse(Field(m, sign, "", ds)) == if m.rightspc && m.fillchar == '0' then Signed(n * D.Pow(10, p)) else n
  {
    hide *;
    var sign, ds := SignPrefix(n), Digits(Magnitude(n), 10);
    var p := Padding(m, |sign| + |ds|);
    DecimalDigits(Magnitude(n));
    SignAndMagnitude(n);
    ParseDigits(m, sign, ds, p);
    NegateTimes(sign, Magnitude(n), D.Pow(10, p));
  }

  lemma NegateTimes(sign: string, v: int, f: int)
    ensures Negate(sign, v * f) == Negate(sign, v) * f
  {
  }

  // ----- when appended zeros matter -----

  /** An odd factor cannot make a number a multiple of a power of two. */
  lemma {:induction false} OddCancel(n: int, f: int, j: nat)
    requires D.Pow(2, j) > 0 && f % 2 == 1 && (n * f) % D.Pow(2, j) == 0
    ensures n % D.Pow(2, j) == 0
    decreases j
  {
    if j > 0 {
      var h := D.Pow(2, j - 1);
      assert D.Pow(2, j) == 2 * h && h > 0;
      EvenFactor(n, f, h);
      var m := n / 2;
      HalfMultiple(m, f, h);
      OddCancel(m, f, j - 1);
      DoubleMultiple(m, h);
    }
  }

  lemma EvenFactor(n: int, f: int, h: nat)
    requires h > 0 && f % 2 == 1 && (n * f) % (2 * h) == 0
    ensures n % 2 == 0
  {
    var q := (n * f) / (2 * h);
    assert n * f == 2 * (h * q);
    var g := f / 2;
    assert n * f == 2 * (n * g) + n;
    assert n == 2 * (h * q - n * g);
  }

  lemma HalfMultiple(m: int, f: int, h: nat)
    requires h > 0 && ((2 * m) * f) % (2 * h) == 0
    ensures (m * f) % h == 0
  {
    var q := ((2 * m) * f) / (2 * h);
    assert (2 * m) * f == (2 * h) * q;
    assert 2 * (m * f) == 2 * (h * q);
    Multiple(h, q);
  }

  lemma Multiple(h: nat, q: int)
    requires h > 0
    ensures (h * q) % h == 0
  {
    IsMultiple(h * q, h, q);
  }

  lemma IsMultiple(x: int, h: nat, q: int)
    requires h > 0 && x == h * q
    ensures x % h == 0
  {
    var d, r := x / h, x % h;
    assert x == h * d + r;
    D.MulDist(q, d, h);
    if q > d { D.MulMono(1, q - d, h); } else if q < d { D.MulMono(1, d - q, h); D.MulDist(d, q, h); }
  }

  lemma DoubleMultiple(m: int, h: nat)
    requires h > 0 && m % h == 0
    ensures (2 * m) % (2 * h) == 0
  {
    var q := m / h;
    assert 2 * m == (2 * h) * q;
    Multiple(2 * h, q);
  }

  lemma Pow32()
    ensures D.Pow(2, 32) == WORD
  {
    assert D.Pow(2, 8) == 256;
    assert D.Pow(2, 16) == 256 * 256;
    assert D.Pow(2, 24) == 256 * 256 * 256;
  }

  lemma {:induction false} TenPowEven(p: nat)
    requires p > 0
    ensures D.Pow(10, p) % 2 == 0
  {
    assert D.Pow(10, p) == 2 * (5 * D.Pow(10, p - 1));
  }

  /** An even factor leaves only zero in place, in 32 bits. */
  lemma EvenFixpoint(n: int, t: int, x: int)
    requires INT_MIN <= n <= INT_MAX && t % 2 == 0 && x == n * t && Signed(x) == n
    ensures n == 0
  {
    hide D.Pow, Signed;
    SameWord(x, n);
    D.MulDist(t, 1, n);
    Pow32();
    OddCancel(n, t - 1, 32);
    SmallMultiple(n);
  }

  /** Multiplying a nonzero int by a power of ten never gives the same 32-bit word. */
  lemma ShiftedDiffers(n: int, p: nat)
    requires INT_MIN <= n <= INT_MAX && p > 0
    ensures Signed(n * D.Pow(10, p)) == n <==> n == 0
  {
    TenPowEven(p);
    hide D.Pow;
    if Signed(n * D.Pow(10, p)) == n {
      EvenFixpoint(n, D.Pow(10, p), n * D.Pow(10, p));
    }
  }

  lemma SameWord(x: int, n: int)
    requires INT_MIN <= n <= INT_MAX && Signed(x) == n
    ensures (x - n) % WORD == 0
  {
  }

  lemma SmallMultiple(n: int)
    requires INT_MIN <= n <= INT_MAX && n % WORD == 0
    ensures n == 0
  {
  }

  // ----- the format "%<modifiers>d" -----

  lemma {:induction false} ModifiersFill(m: Mods, ms: string)
    requires (forall i :: 0 <= i < |ms| ==> IsModifier(ms[i])) && (m.fillchar == ' ' || m.fillchar == '0')
    ensures Modifiers(m, ms).fillchar == ' ' || Modifiers(m, ms).fillchar == '0'
    decreases |ms|
  {
    if ms != "" { ModifiersFill(Modify(m, ms[0]), ms[1..]); }
  }

  lemma NumberFieldInt(m: Mods, n: int)
    requires INT_MIN <= n <= INT_MAX
    ensures NumberField(m, n, 'd') == Field(m, SignPrefix(n), "", Digits(Magnitude(n), 10))
  {
    FetchInt(n, m.size);
    hide Field, Digits, Fetch;
  }

  /** What %d prints under any modifiers. */
  lemma SprintfNumber(ms: string, n: int)
    requires (forall i :: 0 <= i < |ms| ==> IsModifier(ms[i])) && INT_MIN <= n <= INT_MAX
    ensures Sprintf("%" + ms + "d", [Int(n)]) == Field(Modifiers(NONE, ms), SignPrefix(n), "", Digits(Magnitude(n), 10))
  {
    hide Field, Digits, Modifiers, Format, Sprintf, NumberField;
    assert "%" + ms + "d" == "%" + ms + ['d'];
    DirectiveSend(ms, 'd', [Int(n)]);
    NumberFieldInt(Modifiers(NONE, ms), n);
  }

  lemma FetchInt(n: int, size: Size)
    requires INT_MIN <= n <= INT_MAX
    ensures Fetch(n, size, 'd') == n
  {
  }

  /** Both '-' and a leading '0' were given, and the field is wider than the number. */
  predicate ZerosAppended(m: Mods, n: int) {
    m.rightspc && m.fillchar == '0' && m.spacing > |SignPrefix(n)| + |Digits(Magnitude(n), 10)|
  }

  lemma FieldRoundTrip(m: Mods, n: int)
    requires (m.fillchar == ' ' || m.fillchar == '0') && INT_MIN <= n <= INT_MAX
    ensures Parse(Field(m, SignPrefix(n), "", Digits(Magnitude(n), 10))) == n <==> n == 0 || !ZerosAppended(m, n)
  {
    hide Digits, Parse, Field, Signed, Magnitude, SignPrefix, D.Pow;
    ParseField(m, n);
    var p := Padding(m, |SignPrefix(n)| + |Digits(Magnitude(n), 10)|);
    if p > 0 { ShiftedDiffers(n, p); } else { Unshifted(n); }
  }

  /**
   * The round trip, for every int and every string of modifiers: atoi gives back the number
   * exactly when it is zero or no zeros are appended to it.
   */
  lemma RoundTrip(ms: string, n: int)
    requires (forall i :: 0 <= i < |ms| ==> IsModifier(ms[i])) && INT_MIN <= n <= INT_MAX
    ensures Parse(Sprintf("%" + ms + "d", [Int(n)])) == n <==> n == 0 || !ZerosAppended(Modifiers(NONE, ms), n)
  {
    ModifiersFill(NONE, ms);
    hide Digits, Sprintf, Parse, Modifiers, Field, ZerosAppended, Magnitude, SignPrefix, IsModifier;
    SprintfNumber(ms, n);
    FieldRoundTrip(Modifiers(NONE, ms), n);
  }

  lemma Unshifted(n: int)
    requires INT_MIN <= n <= INT_MAX
    ensures Signed(n * D.Pow(10, 0)) == n
  {
  }

  lemma BothFlags()
    ensures Modifiers(NONE, "-05") == Mods(IntSize, 5, true, '0', false)
  {
  }

  lemma FortyTwo()
    ensures Digits(42, 10) == "42" && SignPrefix(42) == "" && Magnitude(42) == 42 && Fill('0', 3) == "000"
  {
  }

  /** With both flags, "%-05d" prints 42 as "42000". */
  lemma BothFlagsLoseTheNumber()
    ensures Sprintf("%-05d", [Int(42)]) == "42000" && Parse(Sprintf("%-05d", [Int(42)])) != 42
  {
    hide Modifiers, Sprintf, Parse, Digits, Fill, Magnitude, SignPrefix;
    assert "%" + "-05" + "d" == "%-05d";
    BothFlags();
    FortyTwo();
    SprintfNumber("-05", 42);
    RoundTrip("-05", 42);
    assert "" + "" + "42" + "000" == "42000";
  }

  // ----- through a buffer -----

  lemma {:induction false} TextInBuffer(buf: string, text: string)
    requires '\0' !in text && |text| < |buf| && buf[..|text|] == text && buf[|text|] == '\0'
    ensures CText(buf) == text
    decreases |text|
  {
  }

  lemma NumberHasNoNul(m: Mods, n: int)
    requires m.fillchar == ' ' || m.fillchar == '0'
    ensures '\0' !in Field(m, SignPrefix(n), "", Digits(Magnitude(n), 10))
  {
    DecimalDigits(Magnitude(n));
    hide Digits, Magnitude, Padding;
  }

  /** What vsnprintf leaves in a buffer that is large enough, given to atoi. */
  lemma BufferRoundTrip(buf: string, ms: string, n: int)
    requires (forall i :: 0 <= i < |ms| ==> IsModifier(ms[i])) && INT_MIN <= n <= INT_MAX
    requires var text := Sprintf("%" + ms + "d", [Int(n)]);
             |text| < |buf| && buf[..|text|] == text && buf[|text|] == '\0'
    ensures Parse(CText(buf)) == n <==> n == 0 || !ZerosAppended(Modifiers(NONE, ms), n)
  {
    ModifiersFill(NONE, ms);
    hide Digits, Sprintf, Parse, Modifiers, Field, ZerosAppended, Magnitude, SignPrefix, IsModifier, CText;
    SprintfNumber(ms, n);
    NumberHasNoNul(Modifiers(NONE, ms), n);
    TextInBuffer(buf, Sprintf("%" + ms + "d", [Int(n)]));
    RoundTrip(ms, n);
  }
}
