/** Printing into a buffer of limited size: print_number and the rest of rt_vsnprintf. */
module Printer {
  import opened Align
  import opened NumberText
  import opened FormatText
  import opened DirectiveText
  import opened FormatPieces

  // The output buffer: characters behind its end are counted but not stored.
  class Sink {
    const buf: array<char>
    var pos: nat
    ghost var text: string      // everything put so far

    ghost predicate Valid()
      reads this, buf
    {
      pos == |text| && forall i :: 0 <= i < pos && i < buf.Length ==> buf[i] == text[i]
    }

    constructor (b: array<char>)
      ensures Valid() && buf == b && text == []
    {
      buf, pos, text := b, 0, [];
    }

    method Put(c: char)
      requires Valid()
      modifies this, buf
      ensures Valid() && text == old(text) + [c]
    {
      if pos < buf.Length {
        buf[pos] := c;
      }
      pos, text := pos + 1, text + [c];
    }

    // c, as long as a counter lasts
    method PutTimes(c: char, n: int)
      requires Valid()
      modifies this, buf
      ensures Valid() && text == old(text) + Times(c, n)
    {
      var left := n;
      while left > 0
        invariant Valid() && (n > 0 ==> 0 <= left) && text == old(text) + Times(c, n - if left > 0 then left else 0)
        decreases left
      {
        Put(c);
        left := left - 1;
      }
    }

    // The trailing null byte: it takes the place of the last character if there is no room.
    method Finish() returns (n: nat)
      requires Valid()
      modifies buf
      ensures n == |text| && Truncated(buf[..], text)
    {
      if buf.Length > 0 {
        if pos < buf.Length {
          buf[pos] := '\0';
        } else {
          buf[buf.Length - 1] := '\0';
        }
      }
      n := pos;
    }
  }

  // The buffer holds the text, as far as it goes, and a null byte.
  ghost predicate Truncated(buf: string, text: string) {
    buf != [] ==>
      var k := if |text| < |buf| then |text| else |buf| - 1;
      k < |buf| && buf[k] == '\0' && buf[..k] == text[..k]
  }

  function Rev(s: string): (r: string)
    ensures |r| == |s|
  {
    if s == [] then [] else [s[|s| - 1]] + Rev(s[..|s| - 1])
  }

  // --- digits -----------------------------------------------------------------------------------

  function Pow10(k: nat): nat { if k == 0 then 1 else 10 * Pow10(k - 1) }

  // The digits of m still to come and those already split off, the lowest first.
  ghost predicate Splits(m: nat, n: nat, r: nat, tmp: string, large: bool)
    requires IsRadix(r)
  {
    Digits(m, r, large) == (if n == 0 then [] else Digits(n, r, large)) + Rev(tmp)
  }

  lemma {:induction false} SplitOne(m: nat, n: nat, r: nat, tmp: string, large: bool)
    requires IsRadix(r) && n > 0 && Splits(m, n, r, tmp, large)
    ensures Splits(m, Quo(n, r), r, tmp + [DigitChar(Rem(n, r), large)], large)
  {
    LastDigit(n, r, large);
    Shift(if Quo(n, r) == 0 then [] else Digits(Quo(n, r), r, large), DigitChar(Rem(n, r), large), tmp);
  }

  lemma Shift(high: string, c: char, tmp: string)
    ensures (high + [c]) + Rev(tmp) == high + Rev(tmp + [c])
  {
    assert (tmp + [c])[..|tmp|] == tmp;
  }

  lemma {:induction false} LastDigit(n: nat, r: nat, large: bool)
    requires IsRadix(r) && n > 0
    ensures Digits(n, r, large) ==
            (if Quo(n, r) == 0 then [] else Digits(Quo(n, r), r, large)) + [DigitChar(Rem(n, r), large)]
  {
  }

  lemma {:induction false} Shorter(n: nat, r: nat, k: nat)
    requires (r == 10 || r == 16) && 0 < n < Pow10(k)
    ensures k > 0 && Quo(n, r) < Pow10(k - 1)
  {
  }

  lemma TenDigits()
    ensures Pow10(10) == 10000000000
  {
    assert Pow10(3) == 1000 && Pow10(6) == 1000000;
  }

  // The digits of a word, the lowest first; ten of them at most, whatever the radix, so that
  // the sixteen characters of tmp are enough.
  method SplitDigits(m: nat, r: nat, large: bool) returns (tmp: string)
    requires (r == 10 || r == 16) && m < WORD
    ensures |tmp| <= 10 && Rev(tmp) == Digits(m, r, large)
  {
    if m == 0 {
      OneDigit(0, r, large);
      tmp := ['0'];
      assert Rev(tmp) == ['0'] + Rev([]);
      return;
    }
    tmp := SplitPositive(m, r, large);
  }

  method SplitPositive(m: nat, r: nat, large: bool) returns (tmp: string)
    requires (r == 10 || r == 16) && 0 < m < WORD
    ensures |tmp| <= 10 && Rev(tmp) == Digits(m, r, large)
  {
    TenDigits();
    var num: nat := m;
    tmp := [];
    ghost var left: nat := 10;
    SplitEnds(m, r, tmp, large);
    while num != 0
      invariant |tmp| + left == 10 && num < Pow10(left)
      invariant Splits(m, num, r, tmp, large)
      decreases num
    {
      SplitOne(m, num, r, tmp, large);
      Shorter(num, r, left);
      tmp := tmp + [DigitChar(Rem(num, r), large)];
      num, left := Quo(num, r), left - 1;
    }
    SplitEnds(m, r, tmp, large);
  }

  // At first nothing is split off, at last everything.
  lemma SplitEnds(m: nat, r: nat, tmp: string, large: bool)
    requires IsRadix(r) && m > 0
    ensures Splits(m, m, r, [], large)
    ensures Splits(m, 0, r, tmp, large) ==> Rev(tmp) == Digits(m, r, large)
  {
    assert [] + Rev(tmp) == Rev(tmp) && Digits(m, r, large) + Rev([]) == Digits(m, r, large);
  }

  // print_number, which returns nothing but what it puts
  method PrintNumber(out: Sink, num: nat, base: nat, s: int, precision: int, f: Flags)
    requires out.Valid() && num < WORD
    modifies out, out.buf
    ensures out.Valid() && out.text == old(out.text) + Number(num, base, s, precision, f)
  {
    var sign, m := ChooseSign(num, f);
    var tmp := SplitDigits(m, Radix(base), f.large);
    NumberParts(num, base, s, precision, f, Rev(tmp));
    LayOut(out, sign, tmp, s, precision, f);
  }

  // get sign
  method ChooseSign(num: nat, f: Flags) returns (sign: string, m: nat)
    requires num < WORD
    ensures sign == Sign(num, f) && m == Magnitude(num, f)
  {
    sign, m := "", num;
    if f.sign {
      if num >= TOP {
        sign := "-";
        m := WORD - num;
      } else if f.plus {
        sign := "+";
      } else if f.space {
        sign := " ";
      }
    }
  }

  lemma NumberParts(v: nat, base: nat, s: int, precision: int, f: Flags, digits: string)
    requires v < WORD && digits == Digits(Magnitude(v, f), Radix(base), f.large)
    ensures var body := Times('0', precision - |digits|) + if precision == 0 then "" else digits;
            Number(v, base, s, precision, f) == Laid(Sign(v, f), body, s - Max(precision, |digits|) - |Sign(v, f)|, f)
  {
  }

  // What follows in print_number: the parts in order, each as far as size lasts.
  method LayOut(out: Sink, sign: string, tmp: string, s: int, precision: int, f: Flags)
    requires out.Valid() && |sign| <= 1
    modifies out, out.buf
    ensures out.Valid()
    ensures var body := Times('0', precision - |tmp|) + if precision == 0 then "" else Rev(tmp);
            out.text == old(out.text) + Laid(sign, body, s - Max(precision, |tmp|) - |sign|, f)
  {
    ghost var t0, pad := out.text, s - Max(precision, |tmp|) - |sign|;
    var i := |tmp|;
    var shown := if i > precision then i else precision;
    var size := LayFront(out, sign, s - shown, f);
    ghost var body := PutBody(out, shown, precision, tmp);
    ghost var t1 := out.text;
    out.PutTimes(' ', size);
    Chain(t0, t1, out.text, sign, body, pad, size, f);
  }

  // What comes in front of the digits.
  ghost function Front(sign: string, pad: int, f: Flags): string {
    Times(' ', if f.left || f.zeropad then 0 else pad) + sign + Times('0', if f.zeropad && !f.left then pad else 0)
  }

  method LayFront(out: Sink, sign: string, room: int, f: Flags) returns (size: int)
    requires out.Valid() && |sign| <= 1
    modifies out, out.buf
    ensures out.Valid() && out.text == old(out.text) + Front(sign, room - |sign|, f)
    ensures if f.left then size == room - |sign| else size < 0
  {
    ghost var t0 := out.text;
    size := Lead(out, room, sign, f);
    ghost var t1 := out.text;
    PutSign(out, sign);
    size := size - |sign|;
    ghost var t2, left := out.text, size;
    size := Middle(out, size, f);
    FrontIs(t0, t1, t2, out.text, sign, room - |sign|, left, f);
  }

  lemma {:induction false} FrontIs(t0: string, t1: string, t2: string, t3: string, sign: string, pad: int, left: int,
        f: Flags)
    requires t1 == t0 + Times(' ', if f.left || f.zeropad then 0 else pad) && t2 == t1 + sign
    requires t3 == t2 + Times('0', if f.zeropad && !f.left then left else 0)
    requires f.left || f.zeropad ==> left == pad
    ensures t3 == t0 + Front(sign, pad, f)
  {
    var a, c := Times(' ', if f.left || f.zeropad then 0 else pad), Times('0', if f.zeropad && !f.left then pad else 0);
    assert t0 + a + sign + c == t0 + (a + sign + c);
  }

  // The parts one after the other are the text as it is laid out.
  lemma {:induction false} Chain(t0: string, t1: string, t2: string, sign: string, body: string, pad: int, size: int,
        f: Flags)
    requires t1 == t0 + Front(sign, pad, f) + body && t2 == t1 + Times(' ', size)
    requires if f.left then size == pad else size < 0
    ensures t2 == t0 + Laid(sign, body, pad, f)
  {
    var a, c := Times(' ', if f.left || f.zeropad then 0 else pad), Times('0', if f.zeropad && !f.left then pad else 0);
    var e := Times(' ', if f.left then pad else 0);
    assert Times(' ', size) == e;
    assert t0 + (a + sign + c) + body + e == t0 + (a + (sign + (c + body)) + e);
  }

  method PutSign(out: Sink, sign: string)
    requires out.Valid() && |sign| <= 1
    modifies out, out.buf
    ensures out.Valid() && out.text == old(out.text) + sign
  {
    if sign != "" {
      out.Put(sign[0]);
    }
  }

  // The zeros the precision asks for, and the digits.
  method PutBody(out: Sink, shown: int, precision: int, tmp: string) returns (ghost body: string)
    requires out.Valid() && shown == Max(precision, |tmp|)
    modifies out, out.buf
    ensures out.Valid() && out.text == old(out.text) + body
    ensures body == Times('0', precision - |tmp|) + if precision == 0 then "" else Rev(tmp)
  {
    SameTimes(shown - |tmp|, precision - |tmp|);
    out.PutTimes('0', shown - |tmp|);
    body := Times('0', precision - |tmp|);
    if precision != 0 {
      PutDigits(out, tmp);
      body := body + Rev(tmp);
    }
  }

  lemma SameTimes(a: int, b: int)
    requires a == b || (a <= 0 && b <= 0)
    ensures Times('0', a) == Times('0', b)
  {
  }

  // Blanks in front, unless the number is padded otherwise.
  method Lead(out: Sink, room: int, sign: string, f: Flags) returns (size: int)
    requires out.Valid() && |sign| <= 1
    modifies out, out.buf
    ensures out.Valid() && out.text == old(out.text) + Times(' ', if f.left || f.zeropad then 0 else room - |sign|)
    ensures if f.left || f.zeropad then size == room else size < 0
  {
    size := room;
    if !f.zeropad && !f.left {
      if sign != "" && size > 0 {
        size := size - 1;
      }
      assert Times(' ', size) == Times(' ', room - |sign|);
      out.PutTimes(' ', size);
      size := if size > 0 then -1 else size - 1;
    }
  }

  // Zeros between sign and digits.
  method Middle(out: Sink, room: int, f: Flags) returns (size: int)
    requires out.Valid() && (!f.left && !f.zeropad ==> room < 0)
    modifies out, out.buf
    ensures out.Valid() && out.text == old(out.text) + Times('0', if f.zeropad && !f.left then room else 0)
    ensures if f.left then size == room else size < 0
  {
    var c := if f.zeropad && !f.left then '0' else ' ';
    size := room;
    if !f.left {
      assert !f.zeropad ==> Times(c, size) == Times('0', 0);
      out.PutTimes(c, size);
      size := if size > 0 then -1 else size - 1;
    }
  }

  // The digits, the highest first.
  method PutDigits(out: Sink, tmp: string)
    requires out.Valid()
    modifies out, out.buf
    ensures out.Valid() && out.text == old(out.text) + Rev(tmp)
  {
    var i := |tmp|;
    assert tmp[..i] == tmp;
    while i > 0
      invariant 0 <= i <= |tmp| && out.Valid() && out.text + Rev(tmp[..i]) == old(out.text) + Rev(tmp)
    {
      assert tmp[..i][..i - 1] == tmp[..i - 1];
      i := i - 1;
      ghost var t := out.text;
      out.Put(tmp[i]);
      assert t + ([tmp[i]] + Rev(tmp[..i])) == (t + [tmp[i]]) + Rev(tmp[..i]);
    }
  }

  // --- rt_vsnprintf -----------------------------------------------------------------------------

  // process flags
  method ReadFlags(fmt: string, i: nat) returns (f: Flags, j: nat)
    ensures (f, j) == FlagsFrom(fmt, i, NoFlags())
  {
    f, j := NoFlags(), i;
    while IsFlag(CharAt(fmt, j))
      invariant FlagsFrom(fmt, j, f) == FlagsFrom(fmt, i, NoFlags())
      decreases |fmt| - j
    {
      f := WithFlag(f, fmt[j]);
      j := j + 1;
    }
  }

  // skip_atoi: the value of the decimal digits that stand there
  method SkipAtoi(fmt: string, i: nat) returns (n: nat, j: nat)
    ensures (n, j) == NumberFrom(fmt, i, 0)
    ensures i <= |fmt| ==> j == DigitsEnd(fmt, i) && n == Parse(fmt[i..j], 10)
  {
    n, j := 0, i;
    while IsDigit(CharAt(fmt, j))
      invariant NumberFrom(fmt, j, n) == NumberFrom(fmt, i, 0)
      decreases |fmt| - j
    {
      n := n * 10 + (fmt[j] as nat - '0' as nat);
      j := j + 1;
    }
    if i <= |fmt| {
      NumberRead(fmt, i, DigitsEnd(fmt, i), []);
      assert [] + fmt[i..j] == fmt[i..j];
    }
  }

  // get field width
  method ReadWidth(fmt: string, d0: Directive, args: seq<Arg>) returns (d: Directive)
    ensures d == WithWidth(fmt, d0, args)
  {
    d := d0;
    if IsDigit(CharAt(fmt, d.end)) {
      var n, i := SkipAtoi(fmt, d.end);
      d := d.(width := n, end := i);
    } else if CharAt(fmt, d.end) == '*' {
      d := d.(width := IntArg(args, d.used), end := d.end + 1, used := d.used + 1);
      if d.width < 0 {
        d := d.(width := -d.width, f := d.f.(left := true));
      }
    }
  }

  // get the precision
  method ReadPrecision(fmt: string, d0: Directive, args: seq<Arg>) returns (d: Directive)
    ensures d == WithPrecision(fmt, d0, args)
  {
    d := d0;
    if CharAt(fmt, d.end) == '.' {
      d := d.(end := d.end + 1, precision := -1);
      if IsDigit(CharAt(fmt, d.end)) {
        var n, i := SkipAtoi(fmt, d.end);
        d := d.(precision := n, end := i);
      } else if CharAt(fmt, d.end) == '*' {
        d := d.(precision := IntArg(args, d.used), end := d.end + 1, used := d.used + 1);
      }
      if d.precision < 0 {
        d := d.(precision := 0);
      }
    }
  }

  // Everything up to the conversion character.
  method ReadDirective(fmt: string, i: nat, args: seq<Arg>, k: nat) returns (d: Directive)
    requires i < |fmt|
    ensures d == DirectiveAt(fmt, i, args, k)
    // it says what is written
    ensures forall w :: WrittenAt(fmt, i, w) ==> d == w.Says(args, k, i + 1 + |w.Text()|)
  {
    var f, j := ReadFlags(fmt, i + 1);
    d := ReadWidth(fmt, Directive(f, -1, -1, false, j, k), args);
    d := ReadPrecision(fmt, d, args);
    var c := CharAt(fmt, d.end);
    if c == 'h' || c == 'l' {
      d := d.(half := c == 'h', end := d.end + 1);
    }
    forall w | WrittenAt(fmt, i, w)
      ensures d == w.Says(args, k, i + 1 + |w.Text()|)
    {
      ReadAsWritten(fmt, i, w, args, k);
    }
  }

  // case 'c'
  method PrintChar(out: Sink, d: Directive, c: char)
    requires out.Valid()
    modifies out, out.buf
    ensures out.Valid() && out.text == old(out.text) + CharText(d, c)
  {
    ghost var text := out.text;
    var width := d.width;
    if !d.f.left {
      out.PutTimes(' ', width - 1);
      width := 0;
    }
    ghost var lead := Times(' ', if d.f.left then 0 else d.width - 1);
    assert out.text == text + lead;
    out.Put(c);
    out.PutTimes(' ', width - 1);
    ghost var tail := Times(' ', if d.f.left then d.width - 1 else 0);
    assert Times(' ', width - 1) == tail;
    assert text + lead + [c] + tail == text + (lead + [c] + tail);
  }

  // case 's'
  method PrintStr(out: Sink, d: Directive, s: string)
    requires out.Valid()
    modifies out, out.buf
    ensures out.Valid() && out.text == old(out.text) + StrText(d, s)
  {
    ghost var text := out.text;
    var len := |s|;
    if d.precision > 0 && len > d.precision {
      len := d.precision;
    }
    var room := d.width - len;
    if !d.f.left {
      out.PutTimes(' ', room);
      room := -1;
    }
    ghost var lead := Times(' ', if d.f.left then 0 else d.width - len);
    assert out.text == text + lead;
    for i := 0 to len
      invariant out.Valid() && out.text == text + lead + s[..i]
    {
      out.Put(s[i]);
      assert s[..i + 1] == s[..i] + [s[i]];
    }
    out.PutTimes(' ', room);
    ghost var tail := Times(' ', if d.f.left then d.width - len else 0);
    assert Times(' ', room) == tail;
    assert text + lead + s[..len] + tail == text + (lead + s[..len] + tail);
  }

  // The integer formats: the word is cut down and extended as its qualifier says.
  method PrintInt(out: Sink, d: Directive, args: seq<Arg>, base: nat, sign: bool, large: bool)
    requires out.Valid()
    modifies out, out.buf
    ensures out.Valid() && out.text == old(out.text) + NumText(d, args, base, sign, large)
  {
    var num := WordArg(args, d.used);
    if d.half {
      num := num % 0x1_0000;
      if sign && num >= 0x8000 {
        num := num + 0xffff_0000;
      }
    }
    PrintNumber(out, num, base, d.width, d.precision, d.f.(sign := sign, large := large));
  }

  // The conversion itself.
  method Convert(out: Sink, fmt: string, d: Directive, args: seq<Arg>) returns (used: nat)
    requires out.Valid()
    modifies out, out.buf
    ensures out.Valid() && out.text == old(out.text) + Converted(fmt, d, args).0 && used == Converted(fmt, d, args).1
  {
    used := d.used + 1;
    match CharAt(fmt, d.end)
    case 'c' => PrintChar(out, d, (WordArg(args, d.used) % 256) as char);
    case 's' => PrintStr(out, d, StrArg(args, d.used));
    case 'p' =>
      var e := d;
      if d.width == -1 {
        e := d.(width := 8, f := d.f.(zeropad := true));
      }
      PrintNumber(out, WordArg(args, d.used), 16, e.width, e.precision, e.f);
    case '%' =>
      out.Put('%');
      used := d.used;
    case 'o' => PrintInt(out, d, args, 8, false, false);
    case 'X' => PrintInt(out, d, args, 16, false, true);
    case 'x' => PrintInt(out, d, args, 16, false, false);
    case 'd' => PrintInt(out, d, args, 10, true, false);
    case 'i' => PrintInt(out, d, args, 10, true, false);
    case 'u' => PrintInt(out, d, args, 10, false, false);
    case c =>
      ghost var text := out.text;
      out.Put('%');
      if c != '\0' {
        out.Put(c);
        assert text + ['%'] + [c] == text + ['%', c];
      }
      used := d.used;
  }

  lemma {:induction false} TextAt(fmt: string, i: nat, args: seq<Arg>, k: nat)
    requires i < |fmt| && fmt[i] == '%'
    ensures var d := DirectiveAt(fmt, i, args, k);
            Text(fmt, i, args, k) == Converted(fmt, d, args).0 + Text(fmt, d.end + 1, args, Converted(fmt, d, args).1)
  {
  }

  lemma Regroup(t: string, s: string, rest: string)
    ensures t + (s + rest) == (t + s) + rest
  {
  }

  // One character of the format, or one directive.
  method FormatOne(out: Sink, fmt: string, i: nat, args: seq<Arg>, k: nat) returns (j: nat, used: nat)
    requires out.Valid() && i < |fmt|
    modifies out, out.buf
    ensures out.Valid() && i < j && out.text + Text(fmt, j, args, used) == old(out.text) + Text(fmt, i, args, k)
  {
    ghost var text := out.text;
    if fmt[i] != '%' {
      out.Put(fmt[i]);
      j, used := i + 1, k;
      Regroup(text, [fmt[i]], Text(fmt, j, args, k));
    } else {
      var d := ReadDirective(fmt, i, args, k);
      TextAt(fmt, i, args, k);
      used := Convert(out, fmt, d, args);
      j := d.end + 1;
      Regroup(text, Converted(fmt, d, args).0, Text(fmt, j, args, used));
    }
  }

  // rt_vsnprintf. The text depends on the format and the arguments only; the result is its
  // length, and the buffer holds as much of it as there is room for.
  method FormatInto(buf: array<char>, fmt: string, args: seq<Arg>) returns (n: nat)
    modifies buf
    ensures n == |Text(fmt, 0, args, 0)| && Truncated(buf[..], Text(fmt, 0, args, 0))
    // and it is what the pieces of the format print
    ensures PrintedBy(fmt, args, Text(fmt, 0, args, 0))
  {
    TextPrinted(fmt, args);
    var out := new Sink(buf);
    var i, k := 0, 0;
    while i < |fmt|
      invariant out.Valid() && out.buf == buf && fresh(out) && out.text + Text(fmt, i, args, k) == Text(fmt, 0, args, 0)
      decreases |fmt| - i
    {
      i, k := FormatOne(out, fmt, i, args, k);
    }
    assert out.text == Text(fmt, 0, args, 0);
    n := out.Finish();
  }
}
