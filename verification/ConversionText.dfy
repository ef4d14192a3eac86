/** What each conversion of a format prints: how its text is composed and how it reads, for every
    directive as it is written. */
module ConversionText {
  import opened Align
  import opened NumberText
  import opened FormatText
  import opened DirectiveText

  // --- fields -------------------------------------------------------------------------------------

  // A text in a field: blanks fill the field up, behind the text if it is left adjusted.
  ghost predicate InField(s: string, text: string, width: int, left: bool) {
    && |s| == Max(width, |text|)
    && s == if left then text + Times(' ', |s| - |text|) else Times(' ', |s| - |text|) + text
  }

  // How many digits it takes to write m.
  ghost function DigitCount(m: nat, r: nat): (n: nat)
    requires r in {10, 16}
    ensures n > 0
  {
    if m < r then 1 else 1 + DigitCount(m / r, r)
  }

  ghost predicate Letter(c: char, large: bool) { IsDigit(c) || if large then 'A' <= c <= 'F' else 'a' <= c <= 'f' }

  // The text spells m: it has no digit too many, the letters are of the right case, and it reads as m.
  ghost predicate Spells(s: string, m: nat, r: nat, large: bool)
    requires r in {10, 16}
  {
    |s| == DigitCount(m, r) && Parse(s, r) == m && forall i :: 0 <= i < |s| ==> Letter(s[i], large)
  }

  ghost predicate Composed(s: string, lead: nat, sign: string, zeros: nat, digits: string, tail: nat) {
    s == Times(' ', lead) + sign + Times('0', zeros) + digits + Times(' ', tail)
  }

  // The number m with its sign, in a field. There are blanks in front only if the field is neither left
  // adjusted nor filled up with zeros, blanks behind only if it is left adjusted. A precision of 0
  // suppresses the digits.
  ghost predicate NumberField(s: string, m: nat, sign: string, r: nat, w: int, precision: int, left: bool,
        zeropad: bool, large: bool)
    requires r in {10, 16}
  {
    var n := DigitCount(m, r);
    exists lead: nat, zeros: nat, digits, tail: nat :: Composed(s, lead, sign, zeros, digits, tail)
      && (if precision == 0 then digits == "" else Spells(digits, m, r, large))
      && (lead > 0 ==> !left && !zeropad) && (tail > 0 ==> left)
      && zeros >= precision - n && (left || !zeropad ==> zeros == Max(0, precision - n))
      && lead + |sign| + zeros + n + tail == Max(w, |sign| + Max(precision, n))
  }

  lemma {:induction false} DigitsSpell(m: nat, r: nat, large: bool)
    requires r in {10, 16}
    ensures Spells(Digits(m, r, large), m, r, large)
  {
    ParseDigits(m, r, large);
    DigitsLook(m, r, large);
  }

  lemma {:induction false} DigitsLook(m: nat, r: nat, large: bool)
    requires r in {10, 16}
    ensures var s := Digits(m, r, large);
            |s| == DigitCount(m, r) && forall i :: 0 <= i < |s| ==> Letter(s[i], large)
    decreases m
  {
    assert Letter(DigitChar(Rem(m, r), large), large);
    if m >= r {
      assert Quo(m, r) == m / r;
      DigitsLook(Quo(m, r), r, large);
    }
  }

  lemma {:induction false} SameTimes(c: char, n: int)
    ensures Times(c, n) == Times(c, Max(0, n))
  {
  }

  lemma {:induction false} ComposedIs(lead: int, sign: string, fill: int, more: int, digits: string, tail: int)
    ensures Composed(Times(' ', lead) + (sign + (Times('0', fill) + (Times('0', more) + digits))) + Times(' ', tail),
                     Max(0, lead), sign, Max(0, fill) + Max(0, more), digits, Max(0, tail))
  {
    SameTimes(' ', lead);
    SameTimes(' ', tail);
    var z := Times('0', Max(0, fill) + Max(0, more));
    assert Times('0', fill) + Times('0', more) == z;
    assert Times('0', fill) + (Times('0', more) + digits) == z + digits;
    assert Times(' ', lead) + (sign + (z + digits)) == Times(' ', lead) + sign + z + digits;
  }

  // The parts that Number puts together.
  lemma {:induction false} NumberIs(v: nat, base: nat, w: int, precision: int, f: Flags, digits: string)
    requires v < WORD && digits == Digits(Magnitude(v, f), Radix(base), f.large)
    ensures var pad := w - Max(precision, |digits|) - |Sign(v, f)|;
            Composed(Number(v, base, w, precision, f),
                     Max(0, if f.left || f.zeropad then 0 else pad), Sign(v, f),
                     Max(0, if f.zeropad && !f.left then pad else 0) + Max(0, precision - |digits|),
                     if precision == 0 then "" else digits, Max(0, if f.left then pad else 0))
  {
    var pad := w - Max(precision, |digits|) - |Sign(v, f)|;
    assert Number(v, base, w, precision, f) == Laid(Sign(v, f), Body(v, base, precision, f), pad, f);
    ComposedIs(if f.left || f.zeropad then 0 else pad, Sign(v, f), if f.zeropad && !f.left then pad else 0,
        precision - |digits|, if precision == 0 then "" else digits, if f.left then pad else 0);
  }

  lemma {:induction false} NumberFits(v: nat, base: nat, w: int, precision: int, f: Flags)
    requires v < WORD
    ensures NumberField(Number(v, base, w, precision, f), Magnitude(v, f), Sign(v, f), Radix(base), w, precision,
                f.left, f.zeropad, f.large)
  {
    var digits := Digits(Magnitude(v, f), Radix(base), f.large);
    DigitsSpell(Magnitude(v, f), Radix(base), f.large);
    NumberIs(v, base, w, precision, f, digits);
    Fits(Number(v, base, w, precision, f), Magnitude(v, f), Sign(v, f), Radix(base), w, precision, f, digits);
  }

  lemma {:induction false} Fits(s: string, m: nat, sign: string, r: nat, w: int, precision: int, f: Flags,
        digits: string)
    requires r in {10, 16} && Spells(digits, m, r, f.large)
    requires var pad := w - Max(precision, |digits|) - |sign|;
             Composed(s, Max(0, if f.left || f.zeropad then 0 else pad), sign,
                      Max(0, if f.zeropad && !f.left then pad else 0) + Max(0, precision - |digits|),
                      if precision == 0 then "" else digits, Max(0, if f.left then pad else 0))
    ensures NumberField(s, m, sign, r, w, precision, f.left, f.zeropad, f.large)
  {
  }

  // --- conversions --------------------------------------------------------------------------------

  // Argument x as an integer of so many values; what is not a word counts as 0.
  ghost predicate ArgIs(args: seq<Arg>, x: nat, values: nat, signed: bool, v: int)
    requires values in {0x1_0000, WORD}
  {
    && (if signed then -(values / 2) <= v < values / 2 else 0 <= v < values)
    && if x < |args| && args[x].Num? then (args[x].v - v) % values == 0 else v == 0
  }

  // A string that is printed up to a precision greater than 0.
  ghost predicate StringIs(args: seq<Arg>, x: nat, precision: int, t: string) {
    var s := if x < |args| && args[x].Str? then args[x].s else "(NULL)";
    && t <= s && |t| == if 0 < precision < |s| then precision else |s|
  }

  ghost function SignShown(v: int, plus: bool, space: bool): string {
    if v < 0 then "-" else if plus then "+" else if space then " " else ""
  }

  // What a directive d prints that ends with c.
  ghost predicate Prints(d: Directive, c: char, args: seq<Arg>, s: string) {
    match c
    case 'd' => PrintsSigned(d, args, s)
    case 'i' => PrintsSigned(d, args, s)
    case 'u' => PrintsUnsigned(d, 10, false, args, s)
    case 'x' => PrintsUnsigned(d, 16, false, args, s)
    case 'o' => PrintsUnsigned(d, 16, false, args, s)
    case 'X' => PrintsUnsigned(d, 16, true, args, s)
    case 'p' => PrintsUnsigned(AsPointer(d), 16, false, args, s)
    case 'c' =>
      exists v: nat :: ArgIs(args, d.used, WORD, false, v) && InField(s, [(v % 256) as char], d.width, d.f.left)
    case 's' => exists t :: StringIs(args, d.used, d.precision, t) && InField(s, t, d.width, d.f.left)
    case '%' => s == "%"
    case _ => s == ['%', c]
  }

  // A pointer is a whole word, and takes 8 digits if there is no width.
  ghost function AsPointer(d: Directive): Directive {
    d.(half := false, width := if d.width == -1 then 8 else d.width,
       f := if d.width == -1 then d.f.(zeropad := true) else d.f)
  }

  ghost function Values(d: Directive): nat { if d.half then 0x1_0000 else WORD }

  ghost predicate PrintsSigned(d: Directive, args: seq<Arg>, s: string) {
    exists v :: ArgIs(args, d.used, Values(d), true, v) &&
      NumberField(s, if v < 0 then -v else v, SignShown(v, d.f.plus, d.f.space), 10, d.width, d.precision,
                  d.f.left, d.f.zeropad, false)
  }

  ghost predicate PrintsUnsigned(d: Directive, r: nat, large: bool, args: seq<Arg>, s: string)
    requires r in {10, 16}
  {
    exists v: nat :: ArgIs(args, d.used, Values(d), false, v) &&
      NumberField(s, v, "", r, d.width, d.precision, d.f.left, d.f.zeropad, large)
  }

  // How many arguments a conversion uses up.
  ghost function Uses(c: char): nat { if c in "cspoXxdiu" then 1 else 0 }

  // a is v, but for a multiple of the modulus.
  lemma Multiple(a: int, v: int, q: int, values: nat)
    requires values in {0x1_0000, WORD} && a == v + values * q
    ensures (a - v) % values == 0
  {
  }

  lemma WordOf(a: nat)
    ensures (a - a % WORD) % WORD == 0 && (a - a % WORD + WORD) % WORD == 0
  {
    Multiple(a, a % WORD, a / WORD, WORD);
    Multiple(a, a % WORD - WORD, a / WORD + 1, WORD);
  }

  lemma HalfOf(a: nat)
    ensures var h := a % WORD % 0x1_0000; (a - h) % 0x1_0000 == 0 && (a - h + 0x1_0000) % 0x1_0000 == 0
  {
    var b := a % WORD;
    var q := 0x1_0000 * (a / WORD) + b / 0x1_0000;
    assert a == WORD * (a / WORD) + b && b == 0x1_0000 * (b / 0x1_0000) + b % 0x1_0000;
    Multiple(a, b % 0x1_0000, q, 0x1_0000);
    Multiple(a, b % 0x1_0000 - 0x1_0000, q + 1, 0x1_0000);
  }

  // The word that is printed stands for the argument, or for its lower half.
  lemma {:induction false} ValueIs(d: Directive, args: seq<Arg>, sign: bool)
    ensures var v := Value(d, args, sign);
            ArgIs(args, d.used, Values(d), sign, if sign && v >= TOP then v - WORD else v)
  {
    if d.used < |args| && args[d.used].Num? {
      WordOf(args[d.used].v);
      HalfOf(args[d.used].v);
    }
  }

  lemma {:induction false} SignedFits(d: Directive, args: seq<Arg>)
    ensures PrintsSigned(d, args, NumText(d, args, 10, true, false))
  {
    var v, f := Value(d, args, true), d.f.(sign := true, large := false);
    ValueIs(d, args, true);
    NumberFits(v, 10, d.width, d.precision, f);
  }

  lemma {:induction false} UnsignedFits(d: Directive, args: seq<Arg>, base: nat, large: bool)
    ensures PrintsUnsigned(d, Radix(base), large, args, NumText(d, args, base, false, large))
  {
    ValueIs(d, args, false);
    NumberFits(Value(d, args, false), base, d.width, d.precision, d.f.(sign := false, large := large));
  }

  lemma {:induction false} PointerFits(d: Directive, args: seq<Arg>)
    requires !d.f.sign && !d.f.large && !d.half
    ensures PrintsUnsigned(d, 16, false, args, Number(WordArg(args, d.used), 16, d.width, d.precision, d.f))
  {
    ValueIs(d, args, false);
    NumberFits(WordArg(args, d.used), 16, d.width, d.precision, d.f);
  }

  lemma {:induction false} CharFits(d: Directive, args: seq<Arg>)
    ensures var v := WordArg(args, d.used);
            && ArgIs(args, d.used, WORD, false, v)
            && InField(CharText(d, (v % 256) as char), [(v % 256) as char], d.width, d.f.left)
  {
    ValueIs(d.(half := false), args, false);
  }

  lemma {:induction false} StringFits(d: Directive, args: seq<Arg>)
    ensures exists t :: StringIs(args, d.used, d.precision, t) &&
              InField(StrText(d, StrArg(args, d.used)), t, d.width, d.f.left)
  {
    var s := StrArg(args, d.used);
    var t := s[..if 0 < d.precision < |s| then d.precision else |s|];
    assert StringIs(args, d.used, d.precision, t);
    assert InField(StrText(d, s), t, d.width, d.f.left);
  }

  // Each conversion prints what its directive says, and uses up so many arguments.
  lemma {:induction false} ConvertedPrints(fmt: string, d: Directive, args: seq<Arg>)
    requires !d.f.sign && !d.f.large && CharAt(fmt, d.end) != '\0'
    ensures var (s, used) := Converted(fmt, d, args);
            Prints(d, CharAt(fmt, d.end), args, s) && used == d.used + Uses(CharAt(fmt, d.end))
  {
    match CharAt(fmt, d.end)
    case 'c' => CharFits(d, args);
    case 's' => StringFits(d, args);
    case 'p' => PointerFits(AsPointer(d), args);
    case 'o' => UnsignedFits(d, args, 8, false);
    case 'X' => UnsignedFits(d, args, 16, true);
    case 'x' => UnsignedFits(d, args, 16, false);
    case 'd' => SignedFits(d, args);
    case 'i' => SignedFits(d, args);
    case 'u' => UnsignedFits(d, args, 10, false);
    case _ =>
  }
}
