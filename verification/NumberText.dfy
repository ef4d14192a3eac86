/** What print_number prints, and what the printed digits mean. */
module NumberText {
  import opened Align

  const WORD := 0x1_0000_0000
  const TOP := 0x8000_0000

  datatype Flags = Flags(left: bool, plus: bool, space: bool, zeropad: bool, sign: bool, large: bool)

  function DigitChar(d: nat, large: bool): char
    requires d < 16
  {
    if large then "0123456789ABCDEF"[d] else "0123456789abcdef"[d]
  }

  predicate IsRadix(r: nat) { r == 8 || r == 10 || r == 16 }

  function Quo(n: nat, r: nat): (q: nat)
    requires IsRadix(r)
    ensures if n < r then q == 0 else 0 < q < n
  {
    if r == 8 then n / 8 else if r == 10 then n / 10 else n / 16
  }

  function Rem(n: nat, r: nat): (d: nat)
    requires IsRadix(r)
    ensures d < r && (n < r ==> d == n)
  {
    if r == 8 then n % 8 else if r == 10 then n % 10 else n % 16
  }

  // The digits of m to the radix r, the highest first.
  function Digits(m: nat, r: nat, large: bool): (s: string)
    requires IsRadix(r)
    ensures s != []
  {
    (if m < r then [] else Digits(Quo(m, r), r, large)) + [DigitChar(Rem(m, r), large)]
  }

  function Times(c: char, n: int): (s: string)
    ensures |s| == if n > 0 then n else 0
    ensures forall i :: 0 <= i < |s| ==> s[i] == c
  {
    seq(if n > 0 then n else 0, _ => c)
  }

  // The sign that is shown in front of the word v.
  function Sign(v: nat, f: Flags): string {
    if !f.sign then "" else if v >= TOP then "-" else if f.plus then "+" else if f.space then " " else ""
  }

  // What the digits show of the word v: its magnitude, if it counts as signed.
  function Magnitude(v: nat, f: Flags): nat
    requires v < WORD
  {
    if f.sign && v >= TOP then WORD - v else v
  }

  // divide() knows the radices 10 and 16 only.
  function Radix(base: nat): nat { if base == 10 then 10 else 16 }

  // The digits of the word v, with leading zeros as the precision asks.
  function Body(v: nat, base: nat, precision: int, f: Flags): string
    requires v < WORD
  {
    var digits := Digits(Magnitude(v, f), Radix(base), f.large);
    Times('0', precision - |digits|) + if precision == 0 then "" else digits
  }

  // The room left in the field.
  function Pad(v: nat, base: nat, width: int, precision: int, f: Flags): int
    requires v < WORD
  {
    width - Max(precision, |Digits(Magnitude(v, f), Radix(base), f.large)|) - |Sign(v, f)|
  }

  // The text of the word v: blanks in front, the sign, zeros, the digits, blanks behind.
  function Number(v: nat, base: nat, width: int, precision: int, f: Flags): string
    requires v < WORD
  {
    Laid(Sign(v, f), Body(v, base, precision, f), Pad(v, base, width, precision, f), f)
  }

  function Laid(sign: string, body: string, pad: int, f: Flags): string {
    Times(' ', if f.left || f.zeropad then 0 else pad)
    + (sign + (Times('0', if f.zeropad && !f.left then pad else 0) + body))
    + Times(' ', if f.left then pad else 0)
  }

  // --- length -------------------------------------------------------------------------------------

  // The text is as long as the field, or as what has to be shown if that is longer. A precision
  // of 0 suppresses the digits, but not the room for them.
  lemma {:induction false} LengthIs(v: nat, base: nat, width: int, precision: int, f: Flags)
    requires v < WORD
    ensures var n, s := |Digits(Magnitude(v, f), Radix(base), f.large)|, |Sign(v, f)|;
            |Number(v, base, width, precision, f)| ==
            if precision == 0 then Max(width, n + s) - n else Max(width, Max(n, precision) + s)
  {
  }

  // --- reading back -------------------------------------------------------------------------------

  function DigitValue(c: char): nat {
    if '0' <= c <= '9' then c as nat - '0' as nat
    else if 'a' <= c <= 'f' then c as nat - 'a' as nat + 10
    else if 'A' <= c <= 'F' then c as nat - 'A' as nat + 10
    else 0
  }

  function Parse(s: string, r: nat): nat {
    if s == [] then 0 else Parse(s[..|s| - 1], r) * r + DigitValue(s[|s| - 1])
  }

  lemma DigitBack(d: nat, large: bool)
    requires d < 16
    ensures DigitValue(DigitChar(d, large)) == d && DigitChar(d, large) !in " +-"
  {
  }

  lemma {:induction false} ParseLast(s: string, c: char, r: nat)
    ensures Parse(s + [c], r) == Parse(s, r) * r + DigitValue(c)
  {
    assert (s + [c])[..|s|] == s;
  }

  lemma DivMod(m: nat, r: nat)
    requires IsRadix(r)
    ensures Quo(m, r) * r + Rem(m, r) == m
  {
  }

  lemma {:induction false} ParseDigits(m: nat, r: nat, large: bool)
    requires IsRadix(r)
    ensures Parse(Digits(m, r, large), r) == m
    decreases m
  {
    DigitBack(Rem(m, r), large);
    DivMod(m, r);
    if m >= r {
      ParseDigits(Quo(m, r), r, large);
      ParseLast(Digits(Quo(m, r), r, large), DigitChar(Rem(m, r), large), r);
    } else {
      ParseLast([], DigitChar(Rem(m, r), large), r);
    }
  }

  // Leading zeros do not count.
  lemma {:induction false} ParseZeros(n: int, s: string, r: nat)
    ensures Parse(Times('0', n) + s, r) == Parse(s, r)
  {
    var z := Times('0', n);
    if s == [] {
      assert z + s == z;
      OnlyZeros(z, r);
    } else {
      assert (z + s)[..|z + s| - 1] == z + s[..|s| - 1];
      ParseZeros(n, s[..|s| - 1], r);
    }
  }

  lemma {:induction false} OnlyZeros(z: string, r: nat)
    requires forall i :: 0 <= i < |z| ==> z[i] == '0'
    ensures Parse(z, r) == 0
  {
    if z != [] {
      OnlyZeros(z[..|z| - 1], r);
    }
  }

  // What stands in front of the first blank.
  function Upto(s: string): string {
    if s == [] || s[0] == ' ' then [] else [s[0]] + Upto(s[1..])
  }

  // The value of a text: leading blanks, a sign, then digits up to a blank.
  function ValueOf(s: string, r: nat): int {
    if s == [] then 0
    else if s[0] == ' ' then ValueOf(s[1..], r)
    else if s[0] == '-' then 0 - Parse(Upto(s[1..]), r)
    else if s[0] == '+' then Parse(Upto(s[1..]), r)
    else Parse(Upto(s), r)
  }

  lemma {:induction false} SkipBlanks(n: int, s: string, r: nat)
    ensures ValueOf(Times(' ', n) + s, r) == ValueOf(s, r)
    decreases n
  {
    if n > 0 {
      assert (Times(' ', n) + s)[1..] == Times(' ', n - 1) + s;
      SkipBlanks(n - 1, s, r);
    } else {
      assert Times(' ', n) + s == s;
    }
  }

  // Neither blanks nor signs.
  predicate Plain(s: string) { forall i :: 0 <= i < |s| ==> s[i] !in " +-" }

  lemma {:induction false} StopAtBlank(s: string, n: int)
    requires Plain(s)
    ensures Upto(s + Times(' ', n)) == s
  {
    if s != [] {
      assert (s + Times(' ', n))[1..] == s[1..] + Times(' ', n);
      StopAtBlank(s[1..], n);
    }
  }

  // What the word v stands for.
  function Signed(v: nat, f: Flags): int { if f.sign && v >= TOP then v - WORD else v }

  // A printed number reads back as what the word stands for, whatever the width, the precision
  // and the flags: also the most negative one. Only a precision of 0 leaves nothing to read.
  lemma {:induction false} ReadsBack(v: nat, base: nat, width: int, precision: int, f: Flags)
    requires v < WORD
    ensures ValueOf(Number(v, base, width, precision, f), Radix(base)) == if precision == 0 then 0 else Signed(v, f)
  {
    var pad, r := Pad(v, base, width, precision, f), Radix(base);
    var lead, zeros := if f.left || f.zeropad then 0 else pad, if f.zeropad && !f.left then pad else 0;
    var tail := if f.left then pad else 0;
    var body := Times('0', zeros) + Body(v, base, precision, f);
    var text := Sign(v, f) + (body + Times(' ', tail));
    assert Number(v, base, width, precision, f) == Times(' ', lead) + text;
    SkipBlanks(lead, text, r);
    PlainBody(v, base, zeros, precision, f);
    SignValue(Sign(v, f), body, tail, r);
    BodyValue(v, base, zeros, precision, f);
  }

  // So the words that do not read back are exactly those printed with a precision of 0, but for 0.
  lemma {:induction false} ReadsBackExactly(v: nat, base: nat, width: int, precision: int, f: Flags)
    requires v < WORD
    ensures ValueOf(Number(v, base, width, precision, f), Radix(base)) == Signed(v, f) <==> precision != 0 || v == 0
  {
    ReadsBack(v, base, width, precision, f);
  }

  lemma {:induction false} BodyValue(v: nat, base: nat, zeros: int, precision: int, f: Flags)
    requires v < WORD
    ensures Parse(Times('0', zeros) + Body(v, base, precision, f), Radix(base)) == if precision == 0 then 0
              else Magnitude(v, f)
  {
    var r, body := Radix(base), Body(v, base, precision, f);
    var digits := Digits(Magnitude(v, f), r, f.large);
    ParseDigits(Magnitude(v, f), r, f.large);
    ParseZeros(precision - |digits|, if precision == 0 then "" else digits, r);
    ParseZeros(zeros, body, r);
  }

  lemma {:induction false} SignValue(sign: string, s: string, n: int, r: nat)
    requires sign in {"", "-", "+", " "} && Plain(s)
    ensures ValueOf(sign + (s + Times(' ', n)), r) == if sign == "-" then 0 - Parse(s, r) else Parse(s, r)
  {
    var t := s + Times(' ', n);
    StopAtBlank(s, n);
    assert sign == "" ==> sign + t == t;
    assert sign != "" ==> (sign + t)[1..] == t && (sign + t)[0] == sign[0];
    if s == [] {
      SkipBlanks(n, [], r);
      assert t == Times(' ', n) + [];
    } else {
      assert t[0] == s[0];
    }
  }

  lemma {:induction false} PlainBody(v: nat, base: nat, zeros: int, precision: int, f: Flags)
    requires v < WORD
    ensures Plain(Times('0', zeros) + Body(v, base, precision, f))
  {
    PlainDigits(Magnitude(v, f), Radix(base), f.large);
  }

  lemma {:induction false} PlainDigits(m: nat, r: nat, large: bool)
    requires IsRadix(r)
    ensures Plain(Digits(m, r, large))
    decreases m
  {
    DigitBack(Rem(m, r), large);
    if m >= r {
      PlainDigits(Quo(m, r), r, large);
    }
  }

  // %o is printed with the radix 16: the digits are the octal ones exactly for numbers below 8.
  lemma {:induction false} OctalExactly(m: nat, large: bool)
    ensures Digits(m, Radix(8), large) == Digits(m, 8, large) <==> m < 8
  {
    if m < 8 {
      OneDigit(m, 8, large);
      OneDigit(m, 16, large);
    } else {
      var hex, oct := Digits(m, 16, large), Digits(m, 8, large);
      assert Parse(hex, 16) == m by {
        ParseDigits(m, 16, large);
      }
      assert Parse(oct, 16) > m by {
        OctalReadAsHex(m, large);
      }
    }
  }

  lemma {:induction false} OneDigit(m: nat, r: nat, large: bool)
    requires IsRadix(r) && m < r
    ensures Digits(m, r, large) == [DigitChar(m, large)]
  {
  }

  lemma {:induction false} OctalReadAsHex(m: nat, large: bool)
    ensures Parse(Digits(m, 8, large), 16) >= m && (m >= 8 ==> Parse(Digits(m, 8, large), 16) > m)
  {
    DigitBack(Rem(m, 8), large);
    if m >= 8 {
      OctalReadAsHex(Quo(m, 8), large);
      ParseLast(Digits(Quo(m, 8), 8, large), DigitChar(Rem(m, 8), large), 16);
    } else {
      ParseLast([], DigitChar(Rem(m, 8), large), 16);
    }
  }
}
