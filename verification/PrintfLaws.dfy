/**
 * What printf's formats mean, apart from how the code goes through them: a format is read by its
 * text, each conversion takes the next argument, and what is printed for a number denotes it.
 */
module PrintfLaws {
  import opened Common
  import opened PrintfSpec

  // ----- numbers denote -----

  function CharValue(ch: char): nat {
    if '0' <= ch <= '9' then ch as int - '0' as int
    else if 'a' <= ch <= 'f' then ch as int - 'a' as int + 10
    else 0
  }

  /** The number that a numeral in base b denotes. */
  function Numeral(s: string, b: nat): nat {
    if s == "" then 0 else Numeral(s[..|s| - 1], b) * b + CharValue(s[|s| - 1])
  }

  predicate IsNumeral(s: string, b: nat) {
    s != "" && forall i :: 0 <= i < |s| ==> ('0' <= s[i] <= '9' || 'a' <= s[i] <= 'f') && CharValue(s[i]) < b
  }

  lemma DigitCharValue(d: nat)
    requires d < 16
    ensures CharValue(DigitChar(d)) == d && ('0' <= DigitChar(d) <= '9' || 'a' <= DigitChar(d) <= 'f')
  {
  }

  lemma QuoRem(n: nat, b: nat)
    requires b >= 2
    ensures n == Quo(n, b) * b + Rem(n, b)
  {
  }

  /** The digits of n in base b are a numeral for n, without leading zeros. */
  lemma {:induction false} DigitsDenote(n: nat, b: nat)
    requires 2 <= b <= 16
    ensures IsNumeral(Digits(n, b), b) && Numeral(Digits(n, b), b) == n
    ensures Digits(n, b)[0] == '0' ==> n == 0 && Digits(n, b) == "0"
    decreases n
  {
    hide Quo, Rem, DigitChar;
    if n < b {
      DigitCharValue(n);
      assert Digits(n, b)[..0] == "";
    } else {
      DigitsDenote(Quo(n, b), b);
      DigitCharValue(Rem(n, b));
      QuoRem(n, b);
      var s := Digits(n, b);
      assert s[..|s| - 1] == Digits(Quo(n, b), b);
    }
  }

  /** The argument as its type has it: the same modulo the type's width, and in the type's range. */
  lemma FetchMeans(n: int, size: Size, ch: char)
    ensures var v, w := Fetch(n, size, ch), if size == LongLongSize && ch != 'p' then LLONG else WORD;
            && (v - n) % w == 0
            && (ch == 'd' ==> 0 - w <= 2 * v < w)
            && (ch != 'd' ==> 0 <= v < w)
  {
    var v := Fetch(n, size, ch);
    if Width(size, ch) == WORD { assert (v - n) % WORD == 0; } else { assert (v - n) % LLONG == 0; }
  }

  lemma MagnitudeIs(v: int)
    requires 0 - LLONG < v < LLONG
    ensures v == (if SignPrefix(v) == "-" then 0 - Magnitude(v) else Magnitude(v))
    ensures SignPrefix(v) == if v < 0 then "-" else ""
  {
  }

  /** Sign and digits denote the argument, for every size and conversion. */
  lemma NumberDenotes(n: int, size: Size, ch: char)
    ensures var v := Fetch(n, size, ch);
            var m := Numeral(Digits(Magnitude(v), Base(ch)), Base(ch));
            v == (if SignPrefix(v) == "-" then 0 - m else m) && (v >= 0 ==> SignPrefix(v) == "")
  {
    hide Digits, Numeral, Fetch, Magnitude, SignPrefix;
    FetchMeans(n, size, ch);
    MagnitudeIs(Fetch(n, size, ch));
    DigitsDenote(Magnitude(Fetch(n, size, ch)), Base(ch));
  }

  /** A constant as C reads it: its prefix tells the base. */
  function ReadConstant(s: string): nat {
    if |s| > 2 && s[0] == '0' && s[1] == 'x' then Numeral(s[2..], 16)
    else if s != "" && s[0] == '0' then Numeral(s, 8)
    else Numeral(s, 10)
  }

  lemma {:induction false} NumeralPrefixed(s: string, b: nat)
    ensures Numeral("0" + s, b) == Numeral(s, b)
  {
    if s != "" {
      var n := |s| - 1;
      assert ("0" + s)[..n + 1] == "0" + s[..n];
      NumeralPrefixed(s[..n], b);
    } else {
      assert ("0" + s) == "0";
      assert "0"[..0] == "";
    }
  }

  /** With '#', and always for pointers, prefix and digits are a C constant for the number; otherwise no prefix. */
  lemma PrefixTellsBase(m: Mods, ch: char, n: nat)
    requires ch == 'd' || ch == 'u' || ch == 'o' || ch == 'x' || ch == 'p'
    ensures m.altformat || ch == 'p' ==> ReadConstant(BasePrefix(m, ch) + Digits(n, Base(ch))) == n
    ensures !m.altformat && ch != 'p' ==> BasePrefix(m, ch) == ""
  {
    var s, b := Digits(n, Base(ch)), Base(ch);
    DigitsDenote(n, b);
    hide Digits, Numeral;
    if m.altformat || ch == 'p' {
      if b == 16 {
        assert ("0x" + s)[2..] == s;
      } else if b == 8 {
        NumeralPrefixed(s, 8);
        assert ("0" + s)[1] == s[0];
      } else {
        assert "" + s == s;
        if s[0] == '0' { assert Numeral("0", 8) == 0 by { SmallZero(); } }
      }
    }
  }

  lemma SmallZero()
    ensures Numeral("0", 8) == 0
  {
    assert "0"[..0] == "";
  }

  // ----- fields -----

  /** A field is as wide as asked and no wider than needed; beside its text it holds fill characters only. */
  lemma FieldMeans(m: Mods, prefix: string, prefix2: string, stuff: string)
    ensures var f, text := Field(m, prefix, prefix2, stuff), prefix + prefix2 + stuff;
            var p := |f| - |text|;
            && p >= 0 && |f| == (if m.spacing > |text| then m.spacing else |text|)
            && (m.rightspc ==> f[..|text|] == text && forall i :: |text| <= i < |f| ==> f[i] == m.fillchar)
            && (!m.rightspc && m.fillchar != '0' ==> f[p..] == text && forall i :: 0 <= i < p ==> f[i] == m.fillchar)
            && (!m.rightspc && m.fillchar == '0' ==>
                  && f[..|prefix| + |prefix2|] == prefix + prefix2 && f[|prefix| + |prefix2| + p..] == stuff
                  && forall i :: |prefix| + |prefix2| <= i < |prefix| + |prefix2| + p ==> f[i] == '0')
  {
  }

  // ----- modifiers -----

  function Modifiers(m: Mods, ms: string): Mods
    requires forall i :: 0 <= i < |ms| ==> IsModifier(ms[i])
    decreases |ms|
  {
    if ms == "" then m else Modifiers(Modify(m, ms[0]), ms[1..])
  }

  predicate IsDigitChar(ch: char) { '0' <= ch <= '9' }

  predicate AreModifiers(ms: string) {
    forall i :: 0 <= i < |ms| ==> ms[i] == '#' || ms[i] == '-' || ms[i] == 'l' || IsDigitChar(ms[i])
  }

  /** The digits among the modifiers, in order. */
  function OnlyDigits(ms: string): string {
    if ms == "" then "" else OnlyDigits(ms[..|ms| - 1]) + if IsDigitChar(ms[|ms| - 1]) then [ms[|ms| - 1]] else ""
  }

  function Ells(ms: string): nat {
    if ms == "" then 0 else Ells(ms[..|ms| - 1]) + if ms[|ms| - 1] == 'l' then 1 else 0
  }

  lemma {:induction false} ModifiersLast(m: Mods, ms: string, ch: char)
    requires (forall i :: 0 <= i < |ms| ==> IsModifier(ms[i])) && IsModifier(ch)
    ensures Modifiers(m, ms + [ch]) == Modify(Modifiers(m, ms), ch)
    decreases |ms|
  {
    if ms == "" {
      assert (ms + [ch])[1..] == "";
    } else {
      assert (ms + [ch])[1..] == ms[1..] + [ch];
      ModifiersLast(Modify(m, ms[0]), ms[1..], ch);
    }
  }

  /**
   * What the modifiers say, in any order: '-' and '#' wherever they stand, the width as the
   * digits spell it, a fill of zeros when the first digit is a zero, and one 'l' for long, two
   * for long long, going round from there.
   */
  ghost predicate Says(ms: string, m: Mods) {
    var ds := OnlyDigits(ms);
    && (m.rightspc <==> '-' in ms) && (m.altformat <==> '#' in ms)
    && m.spacing == Numeral(ds, 10)
    && m.fillchar == (if ds != "" && ds[0] == '0' then '0' else ' ')
    && m.size == if Ells(ms) == 0 then IntSize else if Ells(ms) % 2 == 1 then LongSize else LongLongSize
  }

  lemma {:induction false} ModifiersMean(ms: string)
    requires AreModifiers(ms)
    ensures (forall i :: 0 <= i < |ms| ==> IsModifier(ms[i])) && Says(ms, Modifiers(NONE, ms))
  {
    hide Says, Modify, Modifiers;
    if ms == "" {
      NoModifiers();
    } else {
      var n := |ms| - 1;
      var ns, ch := ms[..n], ms[n];
      assert ms == ns + [ch];
      ModifiersMean(ns);
      ModifiersLast(NONE, ns, ch);
      if IsDigitChar(ch) { DigitStep(ns, ch, Modifiers(NONE, ns)); } else { FlagStep(ns, ch, Modifiers(NONE, ns)); }
    }
  }

  lemma NoModifiers()
    ensures Says("", Modifiers(NONE, ""))
  {
  }

  lemma {:induction false} NonZeroNumeral(ds: string)
    requires (forall i :: 0 <= i < |ds| ==> IsDigitChar(ds[i])) && ds != "" && ds[0] != '0'
    ensures Numeral(ds, 10) > 0
  {
    if |ds| > 1 { NonZeroNumeral(ds[..|ds| - 1]); } else { assert ds[..0] == ""; }
  }

  lemma {:induction false} OnlyDigitsAre(ms: string)
    ensures forall i :: 0 <= i < |OnlyDigits(ms)| ==> IsDigitChar(OnlyDigits(ms)[i])
  {
    if ms != "" { OnlyDigitsAre(ms[..|ms| - 1]); }
  }

  lemma FlagStep(ns: string, ch: char, m: Mods)
    requires Says(ns, m) && (ch == '#' || ch == '-' || ch == 'l')
    ensures Says(ns + [ch], Modify(m, ch))
  {
    hide Numeral;
    assert (ns + [ch])[..|ns|] == ns;
    assert OnlyDigits(ns + [ch]) == OnlyDigits(ns) + "" == OnlyDigits(ns);
  }

  lemma DigitStep(ns: string, ch: char, m: Mods)
    requires Says(ns, m) && IsDigitChar(ch)
    ensures IsModifier(ch) && Says(ns + [ch], Modify(m, ch))
  {
    var ds := OnlyDigits(ns);
    assert (ns + [ch])[..|ns|] == ns;
    assert OnlyDigits(ns + [ch]) == ds + [ch];
    NumeralMore(ds, ch);
    OnlyDigitsAre(ns);
    if ds != "" && ds[0] != '0' { NonZeroNumeral(ds); }
    hide Numeral, OnlyDigits;
  }

  lemma NumeralMore(ds: string, ch: char)
    requires IsDigitChar(ch)
    ensures Numeral(ds + [ch], 10) == Numeral(ds, 10) * 10 + DigitValue(ch) && (ds == "" ==> Numeral(ds, 10) == 0)
  {
    assert (ds + [ch])[..|ds|] == ds;
  }

  // ----- formats -----

  /** The conversions that take an argument. */
  predicate Takes(ch: char) {
    ch == 'd' || ch == 'o' || ch == 'u' || ch == 'p' || ch == 'x' || ch == 's' || ch == 'c'
  }

  predicate ModifierChar(ch: char) { ch == '#' || ch == '-' || ch == 'l' || IsDigitChar(ch) }

  /** Whether a format, begun inside a directive or not, ends inside one. */
  predicate EndsInside(inside: bool, f: string)
    decreases |f|
  {
    if f == "" then inside else EndsInside(if inside then ModifierChar(f[0]) else f[0] == '%', f[1..])
  }

  /** How many conversions of a format take an argument. */
  function Uses(inside: bool, f: string): nat
    decreases |f|
  {
    if f == "" then 0
    else if !inside then Uses(f[0] == '%', f[1..])
    else if ModifierChar(f[0]) then Uses(true, f[1..])
    else (if Takes(f[0]) then 1 else 0) + Uses(false, f[1..])
  }

  function From(args: seq<Arg>, k: nat): seq<Arg> { if k <= |args| then args[k..] else [] }

  /** The state that a format leaves behind. */
  function After(st: State, f: string): State
    decreases |f|
  {
    if f == "" then st else After(Send(st, f[0]).0, f[1..])
  }

  lemma {:induction false} FormatAfter(st: State, f: string, g: string)
    ensures Format(st, f + g) == Format(st, f) + Format(After(st, f), g)
    decreases |f|
  {
    hide Send;
    if f == "" {
      assert f + g == g;
      assert Format(st, "") + Format(st, g) == Format(st, g);
    } else {
      assert (f + g)[0] == f[0] && (f + g)[1..] == f[1..] + g;
      var (st', text) := Send(st, f[0]);
      FormatAfter(st', f[1..], g);
      assert text + (Format(st', f[1..]) + Format(After(st', f[1..]), g))
          == (text + Format(st', f[1..])) + Format(After(st', f[1..]), g);
    }
  }

  predicate Fresh(st: State) { st.inPct || st.mods == NONE }

  lemma SendMeans(st: State, ch: char)
    requires Fresh(st)
    ensures var st' := Send(st, ch).0;
            && Fresh(st') && st'.inPct == (if st.inPct then ModifierChar(ch) else ch == '%')
            && st'.args == From(st.args, if st.inPct && !ModifierChar(ch) && Takes(ch) then 1 else 0)
  {
    hide NumberField, Field, Modify, StrArg;
  }

  lemma {:induction false} AfterMeans(st: State, f: string)
    requires Fresh(st)
    ensures var st' := After(st, f);
            Fresh(st') && st'.inPct == EndsInside(st.inPct, f) && st'.args == From(st.args, Uses(st.inPct, f))
    decreases |f|
  {
    hide Send;
    if f != "" {
      SendMeans(st, f[0]);
      AfterMeans(Send(st, f[0]).0, f[1..]);
    }
  }

  /**
   * A format that ends outside a directive, followed by another: the second prints what it would
   * print alone with the arguments that the first has left, one for each of its conversions.
   */
  lemma FormatConcat(f: string, g: string, args: seq<Arg>)
    requires !EndsInside(false, f) && Uses(false, f) <= |args|
    ensures Sprintf(f + g, args) == Sprintf(f, args) + Sprintf(g, args[Uses(false, f)..])
  {
    FormatAfter(START.(args := args), f, g);
    AfterMeans(START.(args := args), f);
  }

  /** Text without a '%' is printed as it is, and takes no argument. */
  lemma {:induction false} LiteralText(f: string, args: seq<Arg>)
    requires '%' !in f
    ensures Sprintf(f, args) == f && Uses(false, f) == 0 && !EndsInside(false, f)
    decreases |f|
  {
    if f != "" {
      LiteralText(f[1..], args);
      assert f == [f[0]] + f[1..];
    }
  }

  lemma {:induction false} FormatModifiers(m: Mods, args: seq<Arg>, ms: string, ch: char)
    requires (forall i :: 0 <= i < |ms| ==> IsModifier(ms[i])) && !IsModifier(ch)
    ensures Format(State(true, m, args), ms + [ch]) == Send(State(true, Modifiers(m, ms), args), ch).1
    decreases |ms|
  {
    hide NumberField, Field, StrArg, Modify;
    if ms == "" {
      assert ms + [ch] == [ch];
      var (st', text) := Send(State(true, m, args), ch);
      assert [ch][1..] == "" && text + "" == text;
    } else {
      assert (ms + [ch])[0] == ms[0] && (ms + [ch])[1..] == ms[1..] + [ch];
      FormatModifiers(Modify(m, ms[0]), args, ms[1..], ch);
    }
  }

  lemma SprintfPercent(rest: string, args: seq<Arg>)
    ensures Sprintf("%" + rest, args) == Format(State(true, NONE, args), rest)
  {
    assert ("%" + rest)[1..] == rest;
  }

  /** What the conversion ch prints of the first argument, under the modifiers m. */
  ghost predicate Prints(m: Mods, ch: char, args: seq<Arg>, text: string) {
    && (!Takes(ch) ==> text == Field(m, "", "", [ch]))
    && ((ch == 'd' || ch == 'o' || ch == 'u' || ch == 'p' || ch == 'x') && args != [] && args[0].Int? ==>
          text == NumberField(m, args[0].n, ch))
    && (ch == 's' && args != [] && args[0].Str? ==>
          text == Field(m, "", "", if args[0].s.Some? then CText(args[0].s.value) else "(null)"))
    && (ch == 'c' && args != [] && args[0].Int? && args[0].n % 256 != 0 ==>
          text == Field(m, "", "", [(args[0].n % 256) as char]))
  }

  lemma SendPrints(m: Mods, ch: char, args: seq<Arg>)
    requires !ModifierChar(ch)
    ensures !IsModifier(ch) && Prints(m, ch, args, Send(State(true, m, args), ch).1)
  {
    hide Field, NumberField, CText;
    if ch == 'c' && args != [] && args[0].Int? && args[0].n % 256 != 0 { OneCharText(args[0].n); }
  }

  /**
   * What one directive prints, by its conversion: the first argument as a number, a string or a
   * character; any other character, a second '%' among them, stands for itself.
   */
  lemma Directive(ms: string, ch: char, args: seq<Arg>)
    requires AreModifiers(ms) && !ModifierChar(ch)
    ensures (forall i :: 0 <= i < |ms| ==> IsModifier(ms[i])) && Says(ms, Modifiers(NONE, ms))
    ensures Prints(Modifiers(NONE, ms), ch, args, Sprintf("%" + ms + [ch], args))
  {
    hide Prints, Send, Modifiers, Sprintf, Says;
    ModifiersMean(ms);
    SendPrints(Modifiers(NONE, ms), ch, args);
    DirectiveSend(ms, ch, args);
  }

  lemma DirectiveSend(ms: string, ch: char, args: seq<Arg>)
    requires (forall i :: 0 <= i < |ms| ==> IsModifier(ms[i])) && !IsModifier(ch)
    ensures Sprintf("%" + ms + [ch], args) == Send(State(true, Modifiers(NONE, ms), args), ch).1
  {
    hide Modifiers, Format, Sprintf, Send;
    assert "%" + ms + [ch] == "%" + (ms + [ch]);
    SprintfPercent(ms + [ch], args);
    FormatModifiers(NONE, args, ms, ch);
  }

  lemma OneCharText(n: int)
    requires n % 256 != 0
    ensures CText([CharArg(n)]) == [(n % 256) as char]
  {
    assert [CharArg(n)][1..] == "";
  }

  /** k times "%d". */
  function Repeat(k: nat): string { if k == 0 then "" else Repeat(k - 1) + "%d" }

  function Concat(ns: seq<int>): string {
    if ns == [] then "" else Concat(ns[..|ns| - 1]) + Sprintf("%d", [Int(ns[|ns| - 1])])
  }

  function Ints(ns: seq<int>): (args: seq<Arg>)
    ensures |args| == |ns| && forall i :: 0 <= i < |ns| ==> args[i] == Int(ns[i])
  {
    seq(|ns|, i requires 0 <= i < |ns| => Int(ns[i]))
  }

  lemma {:induction false} UsesConcat(inside: bool, f: string, g: string)
    ensures Uses(inside, f + g) == Uses(inside, f) + Uses(EndsInside(inside, f), g)
    ensures EndsInside(inside, f + g) == EndsInside(EndsInside(inside, f), g)
    decreases |f|
  {
    if f == "" {
      assert f + g == g;
    } else {
      assert (f + g)[0] == f[0] && (f + g)[1..] == f[1..] + g;
      UsesConcat(if inside then ModifierChar(f[0]) else f[0] == '%', f[1..], g);
    }
  }

  lemma {:induction false} UsesRepeat(k: nat)
    ensures Uses(false, Repeat(k)) == k && !EndsInside(false, Repeat(k))
  {
    if k > 0 {
      UsesRepeat(k - 1);
      UsesConcat(false, Repeat(k - 1), "%d");
      assert "%d"[1..] == "d" && "d"[1..] == "";
    }
  }

  lemma OneNumber(args: seq<Arg>, n: int)
    requires args != [] && args[0] == Int(n)
    ensures Sprintf("%d", args) == Sprintf("%d", [Int(n)])
  {
    hide NumberField;
    assert "%" + "" + ['d'] == "%d";
    Directive("", 'd', args);
    Directive("", 'd', [Int(n)]);
  }

  /** Any number of conversions print the arguments in order, whatever follows them in the list. */
  lemma {:induction false} NumbersInOrder(ns: seq<int>, more: seq<Arg>)
    ensures Sprintf(Repeat(|ns|), Ints(ns) + more) == Concat(ns)
    decreases |ns|
  {
    hide Sprintf, Uses, EndsInside;
    if ns == [] {
      LiteralText("", Ints(ns) + more);
    } else {
      var k := |ns| - 1;
      var args := Ints(ns) + more;
      UsesRepeat(k);
      FormatConcat(Repeat(k), "%d", args);
      assert args == Ints(ns[..k]) + ([Int(ns[k])] + more);
      NumbersInOrder(ns[..k], [Int(ns[k])] + more);
      OneNumber(args[k..], ns[k]);
    }
  }
}
