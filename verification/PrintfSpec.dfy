/** What printf formats produce (common/libc/printf/__printf.c), as functions on text. */
module PrintfSpec {
  import opened Common

  /**
   * Arguments are taken from a list in order; fetching past its end, or the wrong kind, is undefined
   * in C and gives zero here.
   */
  datatype Arg = Int(n: int) | Str(s: Option<string>)

  datatype Size = IntSize | LongSize | LongLongSize

  /** The modifiers collected since the last '%'. */
  datatype Mods = Mods(size: Size, spacing: nat, rightspc: bool, fillchar: char, altformat: bool)

  /** The printf state between two characters of the format. */
  datatype State = State(inPct: bool, mods: Mods, args: seq<Arg>)

  const NONE := Mods(IntSize, 0, false, ' ', false)
  const WORD := 0x1_0000_0000
  const LLONG := 0x1_0000_0000_0000_0000

  predicate IsModifier(ch: char) { ch in "#-l0123456789" }

  predicate IsInteger(ch: char) { ch in "doupx" }

  function DigitValue(ch: char): int { ch as int - '0' as int }

  function Modify(m: Mods, ch: char): Mods
    requires IsModifier(ch)
  {
    if ch == '#' then m.(altformat := true)
    else if ch == '-' then m.(rightspc := true)
    else if ch == 'l' then m.(size := if m.size == LongSize then LongLongSize else LongSize)
    else if ch == '0' && m.spacing == 0 then m.(fillchar := '0')
    else m.(spacing := m.spacing * 10 + DigitValue(ch))
  }

  // ----- numbers -----

  function DigitChar(d: nat): char
    requires d < 16
  {
    "0123456789abcdef"[d]
  }

  function Quo(n: nat, b: nat): (q: nat)
    requires b >= 2
    ensures n < b ==> q == 0
    ensures n >= b ==> 0 < q < n
  {
    Halves(n, b);
    n / b
  }

  lemma Halves(n: nat, b: nat)
    requires b >= 2
    ensures n >= b ==> 0 < n / b < n
  {
  }

  function Rem(n: nat, b: nat): (r: nat)
    requires b >= 2
    ensures r < b && (n < b ==> r == n)
  {
    n % b
  }

  /** The digits of n in base b, most significant first. */
  function Digits(n: nat, b: nat): (s: string)
    requires 2 <= b <= 16
    ensures |s| > 0
  {
    if n < b then [DigitChar(n)] else Digits(Quo(n, b), b) + [DigitChar(Rem(n, b))]
  }

  function Base(ch: char): nat {
    if ch == 'o' then 8 else if ch == 'd' || ch == 'u' then 10 else 16
  }

  /** The range of the argument's type: long is as wide as int. */
  function Width(size: Size, ch: char): nat {
    if size == LongLongSize && ch != 'p' then LLONG else WORD
  }

  /** The argument as va_arg delivers it: signed for %d, unsigned otherwise. */
  function Fetch(n: int, size: Size, ch: char): int {
    var w := Width(size, ch);
    var u := n % w;
    if ch == 'd' && u >= w / 2 then u - w else u
  }

  /** What is printed in digits: the magnitude, as an unsigned long long. */
  function Magnitude(v: int): nat { (if v < 0 then 0 - v else v) % LLONG }

  function SignPrefix(v: int): string { if v < 0 then "-" else "" }

  function BasePrefix(m: Mods, ch: char): string {
    if !m.altformat && ch != 'p' then "" else if Base(ch) == 16 then "0x" else if Base(ch) == 8 then "0" else ""
  }

  // ----- fields -----

  function Fill(ch: char, n: nat): (s: string)
    ensures |s| == n && forall i :: 0 <= i < n ==> s[i] == ch
  {
    if n == 0 then "" else Fill(ch, n - 1) + [ch]
  }

  function Padding(m: Mods, len: nat): nat {
    if m.spacing > len then m.spacing - len else 0
  }

  /** Spaces go before the prefixes, zeros between them and the text, and padding on the right after it. */
  function Field(m: Mods, prefix: string, prefix2: string, stuff: string): string {
    var pad := Fill(m.fillchar, Padding(m, |prefix| + |prefix2| + |stuff|));
    if m.rightspc then prefix + prefix2 + stuff + pad
    else if m.fillchar == '0' then prefix + prefix2 + pad + stuff
    else pad + prefix + prefix2 + stuff
  }

  function IntArg(args: seq<Arg>): int { if args != [] && args[0].Int? then args[0].n else 0 }

  function StrArg(args: seq<Arg>): string {
    if args != [] && args[0].Str? && args[0].s.Some? then CText(args[0].s.value) else "(null)"
  }

  function Rest(args: seq<Arg>): seq<Arg> { if args == [] then [] else args[1..] }

  function NumberField(m: Mods, n: int, ch: char): string {
    var v := Fetch(n, m.size, ch);
    Field(m, SignPrefix(v), BasePrefix(m, ch), Digits(Magnitude(v), Base(ch)))
  }

  /** %c passes its argument through a char. */
  function CharArg(n: int): char { (n % 256) as char }

  /** One character of the format: the new state and what is printed. */
  function Send(st: State, ch: char): (State, string) {
    if !st.inPct && ch != '%' then (st, [ch])
    else if !st.inPct then (st.(inPct := true), "")
    else if IsModifier(ch) then (st.(mods := Modify(st.mods, ch)), "")
    else if IsInteger(ch) then (State(false, NONE, Rest(st.args)), NumberField(st.mods, IntArg(st.args), ch))
    else if ch == 's' then (State(false, NONE, Rest(st.args)), Field(st.mods, "", "", StrArg(st.args)))
    else if ch == 'c' then (State(false, NONE, Rest(st.args)),
        Field(st.mods, "", "", CText([CharArg(IntArg(st.args))])))
    else (State(false, NONE, st.args), Field(st.mods, "", "", [ch]))
  }

  /** The text of a C string: up to its first NUL. */
  function CText(s: string): (r: string)
    ensures |r| <= |s| && r == s[..|r|] && (|r| < |s| ==> s[|r|] == '\0') && '\0' !in r
  {
    if s == "" || s[0] == '\0' then "" else [s[0]] + CText(s[1..])
  }

  /** All that a format prints. */
  function Format(st: State, fmt: string): string
    decreases |fmt|
  {
    if fmt == "" then "" else
      var (st', text) := Send(st, fmt[0]);
      text + Format(st', fmt[1..])
  }

  const START := State(false, NONE, [])

  function Sprintf(fmt: string, args: seq<Arg>): string {
    Format(START.(args := args), fmt)
  }
}
