/** The printf engine and vsnprintf (common/libc/printf), writing to a buffer of limited size. */
module Printf {
  import opened PrintfSpec
  import D = Digits

  /** Room for a 64-bit number in base 8, a NUL and nothing more. */
  const NUMBER_BUF_SIZE := 64 / 3 + 2

  // ----- the number buffer is large enough, and only just -----

  lemma Pow22()
    ensures D.Pow(8, 22) == 4 * LLONG
  {
    assert D.Pow(8, 4) == 4096;
    assert D.Pow(8, 8) == 4096 * 4096;
    assert D.Pow(8, 12) == 4096 * 4096 * 4096;
    assert D.Pow(8, 16) == 4096 * 4096 * 4096 * 4096;
    assert D.Pow(8, 20) == 4096 * 4096 * 4096 * 4096 * 4096;
  }

  /** Each digit taken off uses up at least a factor of eight. */
  lemma Shrinks(n: nat, b: nat, k: nat)
    requires 8 <= b <= 16 && k > 0 && n < D.Pow(8, k)
    ensures Quo(n, b) < D.Pow(8, k - 1)
  {
  }

  lemma {:induction false} DigitsBound(n: nat, b: nat, k: nat)
    requires 8 <= b <= 16 && k > 0 && n < D.Pow(8, k)
    ensures |Digits(n, b)| <= k
  {
    hide D.Pow;
    PowOne();
    if n >= b {
      assert k > 1;
      Shrinks(n, b, k);
      DigitsBound(Quo(n, b), b, k - 1);
    }
  }

  lemma PowOne()
    ensures D.Pow(8, 1) == 8 && D.Pow(8, 0) == 1
  {
  }

  /** The digits of a 64-bit number in base 8, 10 or 16, with their NUL, fit the buffer exactly. */
  lemma NumberFits(n: nat, b: nat)
    requires n < LLONG && 8 <= b <= 16
    ensures |Digits(n, b)| + 1 <= NUMBER_BUF_SIZE
  {
    Pow22();
    DigitsBound(n, b, 22);
  }

  lemma {:induction false} DigitsAtLeast(n: nat, k: nat)
    requires n >= D.Pow(8, k)
    ensures |Digits(n, 8)| > k
    decreases k
  {
    if k > 0 {
      var p := D.Pow(8, k - 1);
      assert D.Pow(8, k) == 8 * p;
      D.PowPositive(8, k - 1);
      assert Quo(n, 8) >= p;
      DigitsAtLeast(Quo(n, 8), k - 1);
    }
  }

  /** The largest 64-bit number in octal fills the buffer to its last byte. */
  lemma NumberFillsBuffer()
    ensures |Digits(LLONG - 1, 8)| + 1 == NUMBER_BUF_SIZE
  {
    NumberFits(LLONG - 1, 8);
    assert 8 * D.Pow(8, 21) == 4 * LLONG by { Pow22(); }
    DigitsAtLeast(LLONG - 1, 21);
  }

  // ----- snprintf's output -----

  class Snp {
    const buf: array<char>
    const buflen: nat
    var bufpos: nat
    ghost var sent: string

    /** The buffer holds what was sent, as far as it fits. */
    ghost predicate Valid()
      reads this, buf
    {
      buflen <= buf.Length && bufpos == (if |sent| < buflen then |sent| else buflen) && buf[..bufpos] == sent[..bufpos]
    }

    constructor (buf: array<char>, buflen: nat)
      requires buflen <= buf.Length
      ensures Valid() && this.buf == buf && this.buflen == buflen && sent == ""
    {
      this.buf, this.buflen, bufpos, sent := buf, buflen, 0, "";
    }

    method Send(data: string)
      requires Valid()
      modifies this, buf
      ensures Valid() && sent == old(sent) + data
      ensures buf[buflen..] == old(buf[buflen..])
    {
      var i := 0;
      ghost var before := sent;
      while i < |data|
        invariant i <= |data| && Valid() && sent == before + data[..i]
        invariant buf[buflen..] == old(buf[buflen..])
      {
        if bufpos < buflen {
          buf[bufpos] := data[i];
          bufpos := bufpos + 1;
        }
        sent := sent + [data[i]];
        assert data[..i + 1] == data[..i] + [data[i]];
        i := i + 1;
      }
      assert data[..|data|] == data;
    }
  }

  // ----- the printf state -----

  class Pf {
    const snp: Snp
    var args: seq<Arg>
    var charcount: nat
    var inPct: bool
    var size: Size
    var num: nat
    var sign: int
    var spacing: nat
    var rightspc: bool
    var fillchar: char
    var base: nat
    var baseprefix: bool
    var altformat: bool

    ghost predicate Valid()
      reads this, snp, snp.buf
    {
      snp.Valid() && charcount == |snp.sent|
    }

    ghost function View(): State
      reads this
    {
      State(inPct, Mods(size, spacing, rightspc, fillchar, altformat), args)
    }

    /** Between fields: nothing is left over from the last number. */
    ghost predicate Clean()
      reads this
    {
      sign == 0 && !baseprefix
    }

    constructor (snp: Snp, args: seq<Arg>)
      requires snp.Valid() && snp.sent == ""
      ensures Valid() && Clean() && this.snp == snp && View() == START.(args := args)
    {
      this.snp, this.args, charcount := snp, args, 0;
      inPct, size, num, sign, spacing, rightspc := false, IntSize, 0, 0, 0, false;
      fillchar, base, baseprefix, altformat := ' ', 0, false, false;
    }

    method Print(txt: string)
      requires Valid()
      modifies this`charcount, snp, snp.buf
      ensures Valid() && snp.sent == old(snp.sent) + txt && snp.buf[snp.buflen..] == old(snp.buf[snp.buflen..])
    {
      snp.Send(txt);
      charcount := charcount + |txt|;
    }

    method EndField()
      requires Valid()
      modifies this
      ensures Valid() && Clean() && View() == State(false, NONE, old(args)) && charcount == old(charcount)
    {
      inPct, size, num, sign, spacing, rightspc := false, IntSize, 0, 0, 0, false;
      fillchar, base, baseprefix, altformat := ' ', 0, false, false;
    }

    method Modifier(ch: char)
      requires Valid() && IsModifier(ch)
      modifies this`altformat, this`rightspc, this`size, this`spacing, this`fillchar
      ensures Valid() && View() == old(View()).(mods := Modify(old(View()).mods, ch))
    {
      match ch
      case '#' => altformat := true;
      case '-' => rightspc := true;
      case 'l' => size := if size == LongSize then LongLongSize else LongSize;
      case '0' =>
        if spacing > 0 {
          spacing := spacing * 10;
        } else {
          fillchar := '0';
        }
      case _ => spacing := spacing * 10 + (ch as int - '0' as int);
    }

    /** Fetches the argument: its magnitude into num and, for %d, its sign. */
    method GetNum(ch: char)
      requires Valid() && Clean() && IsInteger(ch)
      modifies this`args, this`num, this`sign
      ensures Valid() && args == Rest(old(args))
      ensures var v := Fetch(IntArg(old(args)), size, ch); num == Magnitude(v) && (sign != 0 <==> v < 0)
    {
      var v := Fetch(IntArg(args), size, ch);
      args := Rest(args);
      if ch == 'd' && v < 0 {
        sign := -1;
        num := (0 - v) % LLONG;
      } else {
        num := v % LLONG;
      }
    }

    method SetBase(ch: char)
      requires Valid() && !baseprefix && IsInteger(ch)
      modifies this`base, this`baseprefix
      ensures Valid() && base == Base(ch) && baseprefix == (altformat || ch == 'p')
    {
      match ch {
        case 'd' => base := 10;
        case 'u' => base := 10;
        case 'x' => base := 16;
        case 'p' => base := 16;
        case _ => base := 8;
      }
      if altformat || ch == 'p' {
        baseprefix := true;
      }
    }

    method PrintFill(spc: nat)
      requires Valid()
      modifies this`charcount, snp, snp.buf
      ensures Valid() && snp.sent == old(snp.sent) + Fill(fillchar, spc)
            && snp.buf[snp.buflen..] == old(snp.buf[snp.buflen..])
    {
      var i := 0;
      while i < spc
        invariant i <= spc && Valid() && snp.sent == old(snp.sent) + Fill(fillchar, i)
        invariant snp.buf[snp.buflen..] == old(snp.buf[snp.buflen..])
      {
        Print([fillchar]);
        i := i + 1;
      }
    }

    method PrintStuff(prefix: string, prefix2: string, stuff: string)
      requires Valid()
      modifies this`charcount, snp, snp.buf
      ensures Valid() && snp.sent == old(snp.sent) + Field(View().mods, prefix, prefix2, stuff)
      ensures snp.buf[snp.buflen..] == old(snp.buf[snp.buflen..])
    {
      var len := |prefix| + |prefix2| + |stuff|;
      var spc := spacing;
      if spc > len {
        spc := spc - len;
      } else {
        spc := 0;
      }
      ghost var before, pad := snp.sent, Fill(fillchar, spc);
      ghost var a, b, c := "", "", "";
      hide Field, Fill, Snp.Valid;
      if spc > 0 && !rightspc && fillchar != '0' {
        PrintFill(spc);
        a := pad;
      }
      assert snp.sent == before + a;
      Print(prefix);
      Print(prefix2);
      if spc > 0 && !rightspc && fillchar == '0' {
        PrintFill(spc);
        b := pad;
      }
      assert snp.sent == before + a + prefix + prefix2 + b;
      Print(stuff);
      if spc > 0 && rightspc {
        PrintFill(spc);
        c := pad;
      }
      assert snp.sent == before + a + prefix + prefix2 + b + stuff + c;
      FieldParts(View().mods, before, prefix, prefix2, stuff, a, b, c);
    }

    /** Prints the number fetched, with its prefixes and padding. */
    method PrintNum()
      requires Valid() && num < LLONG && 8 <= base <= 16
      modifies this`charcount, snp, snp.buf
      ensures Valid() && snp.buf[snp.buflen..] == old(snp.buf[snp.buflen..])
      ensures snp.sent == old(snp.sent)
                          + Field(View().mods, if sign != 0 then "-" else "",
                                  if !baseprefix then "" else if base == 16 then "0x"
                                  else if base == 8 then "0" else "",
                                  Digits(num, base))
    {
      hide Field, Snp.Valid;
      var text := NumberText(num, base);
      var bprefix, sprefix := "", "";
      if baseprefix && base == 16 {
        bprefix := "0x";
      } else if baseprefix && base == 8 {
        bprefix := "0";
      }
      if sign != 0 {
        sprefix := "-";
      }
      PrintStuff(sprefix, bprefix, text);
    }

    /** One character of the format. */
    method SendChar(ch: char)
      requires Valid() && Clean() && ch != '\0'
      modifies this, snp, snp.buf
      ensures Valid() && Clean() && snp.buf[snp.buflen..] == old(snp.buf[snp.buflen..])
      ensures (View(), snp.sent) == (Send(old(View()), ch).0, old(snp.sent) + Send(old(View()), ch).1)
    {
      hide Field, Snp.Valid, Fetch, Magnitude, Digits, Modify;
      if !inPct && ch != '%' {
        Print([ch]);
      } else if !inPct {
        inPct := true;
        assert snp.sent == snp.sent + "";
      } else if IsModifier(ch) {
        Modifier(ch);
        assert snp.sent == snp.sent + "";
      } else if IsInteger(ch) {
        SendInteger(ch);
      } else if ch == 's' {
        var str := StrArg(args);
        args := Rest(args);
        PrintStuff("", "", str);
        EndField();
      } else {
        var x := [ch];
        if ch == 'c' {
          x := [CharArg(IntArg(args))];
          args := Rest(args);
        }
        assert CText([ch]) == [ch];
        PrintStuff("", "", CText(x));
        EndField();
      }
    }

    method SendInteger(ch: char)
      requires Valid() && Clean() && IsInteger(ch)
      modifies this, snp, snp.buf
      ensures Valid() && Clean() && snp.buf[snp.buflen..] == old(snp.buf[snp.buflen..])
      ensures View() == State(false, NONE, Rest(old(args)))
      ensures snp.sent == old(snp.sent) + NumberField(old(View()).mods, IntArg(old(args)), ch)
    {
      hide Field, Snp.Valid, Fetch, Digits;
      GetNum(ch);
      SetBase(ch);
      PrintNum();
      EndField();
    }

    /** A whole printf session: everything the format prints is sent, and counted. */
    method VPrintf(format: string) returns (chars: nat)
      requires Valid() && Clean() && '\0' !in format
      modifies this, snp, snp.buf
      ensures snp.Valid() && snp.buf[snp.buflen..] == old(snp.buf[snp.buflen..])
      ensures snp.sent == old(snp.sent) + Format(old(View()), format) && chars == |snp.sent|
    {
      hide Send;
      ghost var all := snp.sent + Format(View(), format);
      var i := 0;
      assert format[0..] == format;
      while i < |format|
        invariant i <= |format| && Valid() && Clean() && snp.sent + Format(View(), format[i..]) == all
        invariant snp.buf[snp.buflen..] == old(snp.buf[snp.buflen..])
      {
        FormatStep(View(), format, i);
        ghost var before, st := snp.sent, View();
        SendChar(format[i]);
        assert before + (Send(st, format[i]).1 + Format(View(), format[i + 1..]))
            == snp.sent + Format(View(), format[i + 1..]);
        i := i + 1;
      }
      assert format[|format|..] == "";
      chars := charcount;
    }
  }

  lemma FormatStep(st: State, format: string, i: nat)
    requires i < |format|
    ensures Format(st, format[i..]) == Send(st, format[i]).1 + Format(Send(st, format[i]).0, format[i + 1..])
  {
  }

  /**
   * vsnprintf: the buffer receives as much of the text as fits before a NUL, nothing beyond
   * len is written, and the length of the whole text is returned whatever fits.
   */
  method VSnprintf(buf: array<char>, len: nat, fmt: string, args: seq<Arg>) returns (chars: nat)
    requires len <= buf.Length && '\0' !in fmt
    modifies buf
    ensures chars == |Sprintf(fmt, args)| && buf[len..] == old(buf[len..])
    ensures len > 0 ==>
              var n := if chars < len - 1 then chars else len - 1;
              buf[..n] == Sprintf(fmt, args)[..n] && buf[n] == '\0'
  {
    hide Format;
    var buflen := if len == 0 then 0 else len - 1;
    var snp := new Snp(buf, buflen);
    var pf := new Pf(snp, args);
    chars := pf.VPrintf(fmt);
    assert snp.sent == Sprintf(fmt, args);
    assert buf[len..] == buf[buflen..][len - buflen..];
    if len > 0 {
      buf[snp.bufpos] := '\0';
    }
  }

  /** The three places where padding may go, put together. */
  lemma FieldParts(m: Mods, before: string, prefix: string, prefix2: string, stuff: string, a: string, b: string,
    c: string)
    requires var pad := Fill(m.fillchar, Padding(m, |prefix| + |prefix2| + |stuff|));
             && a == (if pad != "" && !m.rightspc && m.fillchar != '0' then pad else "")
             && b == (if pad != "" && !m.rightspc && m.fillchar == '0' then pad else "")
             && c == (if pad != "" && m.rightspc then pad else "")
    ensures before + a + prefix + prefix2 + b + stuff + c == before + Field(m, prefix, prefix2, stuff)
  {
  }

  lemma DigitsStep(n: nat, b: nat, done: string)
    requires 2 <= b <= 16
    ensures Digits(n, b) + done
          == (if Quo(n, b) > 0 then Digits(Quo(n, b), b) else "") + ([DigitChar(Rem(n, b))] + done)
  {
  }

  /** Digits of a number, filled in from the right end of a buffer of NUMBER_BUF_SIZE bytes. */
  method NumberText(num: nat, base: nat) returns (text: string)
    requires num < LLONG && 8 <= base <= 16
    ensures text == Digits(num, base)
  {
    Pow22();
    PowOne();
    hide D.Pow, Digits, DigitChar, Quo, Rem;
    var buf := new char[NUMBER_BUF_SIZE];
    var x := NUMBER_BUF_SIZE - 1;
    buf[x] := '\0';
    x := x - 1;
    var xnum: nat, more := num, true;
    ghost var done := "";
    assert Digits(num, base) == Digits(num, base) + done;
    while more
      invariant -1 <= x <= 21 && xnum < D.Pow(8, x + 1)
      invariant more ==> x >= 0
      invariant |done| == 21 - x && forall j :: 0 <= j < |done| ==> buf[x + 1 + j] == done[j]
      invariant Digits(num, base) == (if more then Digits(xnum, base) else "") + done
      decreases more, xnum
    {
      DigitsStep(xnum, base, done);
      Shrinks(xnum, base, x + 1);
      buf[x] := DigitChar(Rem(xnum, base));
      done := [DigitChar(Rem(xnum, base))] + done;
      x := x - 1;
      xnum := Quo(xnum, base);
      more := xnum > 0;
    }
    x := x + 1;
    text := buf[x..22];
    assert text == done && "" + done == done;
  }
}
