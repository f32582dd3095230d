/** Parsing of decimal integers (common/libc/stdlib/atoi.c) in 32-bit arithmetic. */
module Atoi {
  import opened PrintfSpec

  predicate IsDigit(ch: char) { '0' <= ch <= '9' }

  predicate IsBlank(ch: char) { ch == ' ' || ch == '\t' }

  /** A 32-bit word read as a signed number. */
  function Signed(x: int): int {
    var u := x % WORD;
    if u >= WORD / 2 then u - WORD else u
  }

  function SkipBlanks(s: string): string {
    if s != "" && IsBlank(s[0]) then SkipBlanks(s[1..]) else s
  }

  /** How many digits s starts with. */
  function Run(s: string): (n: nat)
    ensures n <= |s| && (forall i :: 0 <= i < n ==> IsDigit(s[i])) && (n < |s| ==> !IsDigit(s[n]))
  {
    if s != "" && IsDigit(s[0]) then 1 + Run(s[1..]) else 0
  }

  /** The number that a string of digits denotes. */
  function Decimal(s: string): int {
    if s == "" then 0 else Decimal(s[..|s| - 1]) * 10 + DigitValue(s[|s| - 1])
  }

  function SignLength(s: string): nat { if s != "" && (s[0] == '-' || s[0] == '+') then 1 else 0 }

  /** Blanks, an optional sign, the digits that follow; anything after them is ignored. */
  function Parse(s: string): int {
    var t := SkipBlanks(s);
    var u := t[SignLength(t)..];
    var v := Decimal(u[..Run(u)]);
    Signed(if t != "" && t[0] == '-' then 0 - v else v)
  }

  lemma {:induction false} SkipBlanksAt(s: string, i: nat)
    requires i <= |s| && (forall j :: 0 <= j < i ==> IsBlank(s[j])) && (i < |s| ==> !IsBlank(s[i]))
    ensures SkipBlanks(s) == s[i..]
    decreases i
  {
    if i > 0 {
      SkipBlanksAt(s[1..], i - 1);
      assert s[1..][i - 1..] == s[i..];
    }
  }

  lemma {:induction false} RunAt(s: string, n: nat)
    requires n <= |s| && (forall j :: 0 <= j < n ==> IsDigit(s[j])) && (n < |s| ==> !IsDigit(s[n]))
    ensures Run(s) == n
    decreases n
  {
  }

  /** The unsigned accumulator wraps, digit by digit, to the same word as the whole number. */
  lemma Accumulate(val: nat, v: int, d: int)
    requires val == v % WORD
    ensures (val * 10 + d) % WORD == (v * 10 + d) % WORD
  {
  }

  lemma AddMultiple(x: int, q: int)
    ensures (x + q * WORD) % WORD == x % WORD
  {
  }

  /** A C string in an array: its text and the NUL after it. */
  ghost predicate IsText(s: array<char>, text: string)
    reads s
  {
    |text| < s.Length && s[|text|] == '\0' && text == s[..|text|] && '\0' !in text
  }

  method ReadDigits(s: array<char>, start: nat, ghost text: string) returns (val: nat)
    requires IsText(s, text) && start <= |text|
    ensures var u := text[start..]; val == Decimal(u[..Run(u)]) % WORD
  {
    hide Run, Decimal, IsDigit, DigitValue;
    ghost var u := text[start..];
    var p := start;
    val := 0;
    assert Decimal(u[..0]) == 0 by { DecimalNone(u); }
    while s[p] != '\0'
      invariant start <= p <= |text|
      invariant val == Decimal(u[..p - start]) % WORD
      invariant forall j :: 0 <= j < p - start ==> IsDigit(u[j])
      decreases s.Length - p
    {
      assert u[p - start] == s[p];
      if !IsDigit(s[p]) {
        break;
      }
      ghost var k := p - start;
      DecimalNext(u, k);
      var digit := DigitValue(s[p]);
      Accumulate(val, Decimal(u[..k]), digit);
      val := (val * 10 + digit) % WORD;
      p := p + 1;
    }
    RunAt(u, p - start);
  }

  lemma DecimalNone(u: string)
    ensures Decimal(u[..0]) == 0
  {
  }

  lemma DecimalNext(u: string, k: nat)
    requires k < |u|
    ensures Decimal(u[..k + 1]) == Decimal(u[..k]) * 10 + DigitValue(u[k])
  {
    assert u[..k + 1][..k] == u[..k];
  }

  method AtoiC(s: array<char>) returns (r: int)
    requires '\0' in s[..]
    ensures r == Parse(CText(s[..]))
  {
    hide Run, Decimal, Signed, SkipBlanks, CText;
    ghost var text := CText(s[..]);
    var p: nat := 0;
    while s[p] == ' ' || s[p] == '\t'
      invariant p <= |text| && IsText(s, text)
      invariant forall j :: 0 <= j < p ==> IsBlank(text[j])
      decreases s.Length - p
    {
      p := p + 1;
    }
    SkipBlanksAt(text, p);
    ghost var t := text[p..];
    var neg := false;
    if s[p] == '-' {
      neg := true;
      p := p + 1;
    } else if s[p] == '+' {
      p := p + 1;
    }
    assert t[SignLength(t)..] == text[p..];
    var val := ReadDigits(s, p, text);
    ghost var u := text[p..];
    ghost var v := Decimal(u[..Run(u)]);
    Negated(val, v);
    if neg {
      r := Signed(-(val as int));
    } else {
      r := Signed(val);
    }
  }

  lemma Negated(val: nat, v: int)
    requires val == v % WORD
    ensures Signed(0 - val) == Signed(0 - v) && Signed(val) == Signed(v)
  {
    var q := v / WORD;
    assert 0 - v == (0 - val) + (0 - q) * WORD;
    AddMultiple(0 - val, 0 - q);
  }
}
