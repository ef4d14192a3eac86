/** What a directive of a format says, by how it is written: flags, width, precision, qualifier. */
module DirectiveText {
  import opened Align
  import opened NumberText
  import opened FormatText

  // A number that is written out, left to an argument, or left out.
  datatype Field = Absent | Literal(digits: string) | Star {
    function Text(): string {
      match this
      case Absent => ""
      case Literal(s) => s
      case Star => "*"
    }

    ghost predicate Ok() { Literal? ==> digits != [] && AllDigits(digits) }

    function Args(): nat { if Star? then 1 else 0 }

    // c does not belong to it any more.
    ghost predicate EndedBy(c: char) {
      match this
      case Absent => !IsDigit(c) && c != '*'
      case Literal(s) => !IsDigit(c)
      case Star => true
    }
  }

  // precision counts only if there is a point.
  datatype Written = Written(flags: string, width: Field, point: bool, precision: Field, qualifier: string) {
    function PointText(): string { if point then "." + precision.Text() else "" }

    function Rest(): string { PointText() + qualifier }

    function Text(): string { flags + (width.Text() + Rest()) }

    ghost predicate Ok() {
      && (forall c :: c in flags ==> IsFlag(c)) && width.Ok() && precision.Ok()
      && (width.Literal? ==> width.digits[0] != '0')
      && qualifier in {"", "h", "l"}
    }

    // Nothing that belongs to it follows, if c does.
    ghost predicate EndedBy(c: char) {
      qualifier != "" ||
      (c !in "hl" &&
       if point then precision.EndedBy(c) else c != '.' && width.EndedBy(c) && (width.Absent? ==> !IsFlag(c)))
    }

    // What it says, given the arguments from place k on.
    function Width(args: seq<Arg>, k: nat): int {
      match width
      case Absent => -1
      case Literal(s) => Parse(s, 10)
      case Star => if IntArg(args, k) < 0 then -IntArg(args, k) else IntArg(args, k)
    }

    function Precision(args: seq<Arg>, k: nat): int {
      if !point then -1
      else
        match precision
        case Absent => 0
        case Literal(s) => Parse(s, 10)
        case Star => Max(0, IntArg(args, k + width.Args()))
    }

    function Says(args: seq<Arg>, k: nat, end: nat): Directive {
      Directive(Flags('-' in flags || (width.Star? && IntArg(args, k) < 0), '+' in flags, ' ' in flags, '0' in flags,
          false, false),
                Width(args, k), Precision(args, k), qualifier == "h", end,
                k + width.Args() + if point then precision.Args() else 0)
    }
  }

  predicate AllDigits(s: string) { forall c :: c in s ==> IsDigit(c) }

  // s stands in fmt at place i.
  ghost predicate Stands(fmt: string, i: nat, s: string) { i + |s| <= |fmt| && fmt[i..i + |s|] == s }

  // w stands behind the '%' at place i, and ends there.
  ghost predicate WrittenAt(fmt: string, i: nat, w: Written) {
    w.Ok() && i < |fmt| && Stands(fmt, i + 1, w.Text()) && w.EndedBy(CharAt(fmt, i + 1 + |w.Text()|))
  }

  lemma {:induction false} StandsParts(fmt: string, i: nat, a: string, b: string)
    requires Stands(fmt, i, a + b)
    ensures Stands(fmt, i, a) && Stands(fmt, i + |a|, b)
  {
    var t := fmt[i..i + |a + b|];
    assert t[..|a|] == a && t[|a|..] == b;
    assert fmt[i..i + |a|] == t[..|a|] && fmt[i + |a|..i + |a| + |b|] == t[|a|..];
  }

  // The first character behind s.
  lemma {:induction false} StandsFirst(fmt: string, i: nat, s: string)
    requires Stands(fmt, i, s) && s != []
    ensures CharAt(fmt, i) == s[0]
  {
    assert fmt[i..i + |s|][0] == s[0];
  }

  // --- flags and numbers ------------------------------------------------------------------------

  // f with the flags of s.
  function Marked(f: Flags, s: string): Flags {
    f.(left := f.left || '-' in s, plus := f.plus || '+' in s, space := f.space || ' ' in s, zeropad := f.zeropad
        || '0' in s)
  }

  lemma {:induction false} FlagsRead(fmt: string, i: nat, j: nat, f: Flags)
    requires i <= j <= |fmt| && (forall k :: i <= k < j ==> IsFlag(fmt[k])) && (j < |fmt| ==> !IsFlag(fmt[j]))
    ensures FlagsFrom(fmt, i, f) == (Marked(f, fmt[i..j]), j)
    decreases j - i
  {
    if i < j {
      FlagsRead(fmt, i + 1, j, WithFlag(f, fmt[i]));
      assert fmt[i..j] == [fmt[i]] + fmt[i + 1..j];
      MarkedMore(f, fmt[i], fmt[i + 1..j]);
    } else {
      assert fmt[i..j] == [];
    }
  }

  lemma MarkedMore(f: Flags, c: char, s: string)
    requires IsFlag(c)
    ensures Marked(f, [c] + s) == Marked(WithFlag(f, c), s)
  {
    forall x
      ensures x in [c] + s <==> x == c || x in s
    {
    }
  }

  // Continued from what s says, the digits from i to j are read as a decimal number.
  lemma {:induction false} NumberRead(fmt: string, i: nat, j: nat, s: string)
    requires i <= j <= |fmt| && (forall k :: i <= k < j ==> IsDigit(fmt[k])) && (j < |fmt| ==> !IsDigit(fmt[j]))
    ensures NumberFrom(fmt, i, Parse(s, 10)) == (Parse(s + fmt[i..j], 10), j)
    decreases j - i
  {
    if i < j {
      var t := s + [fmt[i]];
      DigitNext(s, fmt[i]);
      assert NumberFrom(fmt, i, Parse(s, 10)) == NumberFrom(fmt, i + 1, Parse(t, 10));
      NumberRead(fmt, i + 1, j, t);
      assert s + fmt[i..j] == t + fmt[i + 1..j];
    } else {
      assert s + fmt[i..j] == s;
    }
  }

  lemma DigitNext(s: string, c: char)
    requires IsDigit(c)
    ensures Parse(s + [c], 10) == Parse(s, 10) * 10 + (c as nat - '0' as nat)
  {
    ParseLast(s, c, 10);
  }

  // Where the digits from i on end.
  function DigitsEnd(fmt: string, i: nat): (j: nat)
    requires i <= |fmt|
    ensures i <= j <= |fmt| && (forall k :: i <= k < j ==> IsDigit(fmt[k])) && (j < |fmt| ==> !IsDigit(fmt[j]))
    decreases |fmt| - i
  {
    if i < |fmt| && IsDigit(fmt[i]) then DigitsEnd(fmt, i + 1) else i
  }

  lemma {:induction false} LiteralRead(fmt: string, i: nat, s: string)
    requires Stands(fmt, i, s) && AllDigits(s) && !IsDigit(CharAt(fmt, i + |s|))
    ensures NumberFrom(fmt, i, 0) == (Parse(s, 10), i + |s|)
  {
    forall k | i <= k < i + |s|
      ensures IsDigit(fmt[k])
    {
      assert fmt[k] == fmt[i..i + |s|][k - i];
    }
    NumberRead(fmt, i, i + |s|, []);
    assert [] + fmt[i..i + |s|] == s;
  }

  // A number written in decimal is read back.
  lemma {:induction false} DecimalRead(fmt: string, i: nat, m: nat)
    requires Stands(fmt, i, Digits(m, 10, false)) && !IsDigit(CharAt(fmt, i + |Digits(m, 10, false)|))
    ensures NumberFrom(fmt, i, 0).0 == m
  {
    DecimalDigits(m);
    LiteralRead(fmt, i, Digits(m, 10, false));
    ParseDigits(m, 10, false);
  }

  lemma {:induction false} DecimalDigits(m: nat)
    ensures AllDigits(Digits(m, 10, false))
  {
    if m >= 10 {
      DecimalDigits(Quo(m, 10));
    }
  }

  // --- the parts of a directive -----------------------------------------------------------------

  // d with the width of w, whose text ends at mid.
  ghost function Widened(d: Directive, w: Written, args: seq<Arg>, mid: nat): Directive {
    d.(width := w.Width(args, d.used), f := if w.width.Star? && IntArg(args, d.used) < 0 then d.f.(left := true)
        else d.f,
       end := mid, used := d.used + w.width.Args())
  }

  lemma {:induction false} WidthRead(fmt: string, d: Directive, w: Written, args: seq<Arg>, mid: nat)
    requires w.Ok() && Stands(fmt, d.end, w.width.Text()) && mid == d.end + |w.width.Text()| && d.width == -1
    requires w.width.EndedBy(CharAt(fmt, mid))
    ensures WithWidth(fmt, d, args) == Widened(d, w, args, mid)
  {
    FieldRead(fmt, d.end, w.width, mid);
  }

  // The first character tells what kind of field it is.
  lemma {:induction false} FieldRead(fmt: string, j: nat, f: Field, end: nat)
    requires f.Ok() && Stands(fmt, j, f.Text()) && end == j + |f.Text()| && f.EndedBy(CharAt(fmt, end))
    ensures IsDigit(CharAt(fmt, j)) <==> f.Literal?
    ensures CharAt(fmt, j) == '*' <==> f.Star?
    ensures f.Literal? ==> NumberFrom(fmt, j, 0) == (Parse(f.digits, 10), end)
  {
    if f != Absent {
      StandsFirst(fmt, j, f.Text());
    }
    if f.Literal? {
      assert f.digits[0] in f.digits;
      LiteralRead(fmt, j, f.digits);
    }
  }

  lemma {:induction false} PrecisionRead(fmt: string, d: Directive, w: Written, args: seq<Arg>, k: nat, end: nat)
    requires w.Ok() && d.used == k + w.width.Args() && d.precision == -1
    requires Stands(fmt, d.end, w.PointText()) && end == d.end + |w.PointText()|
    requires var c := CharAt(fmt, end); if w.point then w.precision.EndedBy(c) else c != '.'
    ensures WithPrecision(fmt, d, args) ==
            d.(precision := w.Precision(args, k), end := end, used := d.used + if w.point then w.precision.Args()
                else 0)
  {
    if w.point {
      StandsParts(fmt, d.end, ".", w.precision.Text());
      StandsFirst(fmt, d.end, ".");
      FieldRead(fmt, d.end + 1, w.precision, end);
    }
  }

  lemma {:induction false} QualifierRead(fmt: string, d: Directive, w: Written)
    requires w.Ok() && Stands(fmt, d.end, w.qualifier) && !d.half
    requires w.qualifier == "" ==> CharAt(fmt, d.end) !in "hl"
    ensures WithQualifier(fmt, d) == d.(half := w.qualifier == "h", end := d.end + |w.qualifier|)
  {
    if w.qualifier != "" {
      StandsFirst(fmt, d.end, w.qualifier);
    }
  }

  lemma {:induction false} FlagsStand(fmt: string, i: nat, w: Written)
    requires w.Ok() && Stands(fmt, i, w.flags) && !IsFlag(CharAt(fmt, i + |w.flags|))
    ensures FlagsFrom(fmt, i, NoFlags()) == (Marked(NoFlags(), w.flags), i + |w.flags|)
  {
    forall k | i <= k < i + |w.flags|
      ensures IsFlag(fmt[k])
    {
      assert fmt[k] == fmt[i..i + |w.flags|][k - i] && fmt[k] in w.flags;
    }
    FlagsRead(fmt, i, i + |w.flags|, NoFlags());
  }

  // The first character of a part, or the one behind it if it is empty.
  lemma {:induction false} Behind(fmt: string, j: nat, s: string, end: nat)
    requires Stands(fmt, j, s) && end == j + |s|
    ensures CharAt(fmt, j) == if s == "" then CharAt(fmt, end) else s[0]
  {
    if s != "" {
      StandsFirst(fmt, j, s);
    }
  }

  lemma {:induction false} RestRead(fmt: string, d: Directive, w: Written, args: seq<Arg>, k: nat, end: nat)
    requires w.Ok() && Stands(fmt, d.end, w.Rest()) && end == d.end + |w.Rest()| && w.EndedBy(CharAt(fmt, end))
    requires d.used == k + w.width.Args() && d.precision == -1 && !d.half
    ensures WithQualifier(fmt, WithPrecision(fmt, d, args)) ==
            d.(precision := w.Precision(args, k), half := w.qualifier == "h", end := end,
               used := d.used + if w.point then w.precision.Args() else 0)
  {
    var mid := d.end + |w.PointText()|;
    StandsParts(fmt, d.end, w.PointText(), w.qualifier);
    Behind(fmt, mid, w.qualifier, end);
    PrecisionRead(fmt, d, w, args, k, mid);
    QualifierRead(fmt, WithPrecision(fmt, d, args), w);
  }

  lemma {:induction false} FieldsRead(fmt: string, d: Directive, w: Written, args: seq<Arg>, mid: nat, end: nat)
    requires w.Ok() && Stands(fmt, d.end, w.width.Text()) && mid == d.end + |w.width.Text()|
    requires Stands(fmt, mid, w.Rest()) && end == mid + |w.Rest()| && w.EndedBy(CharAt(fmt, end))
    requires d.width == -1 && d.precision == -1 && !d.half
    ensures WithQualifier(fmt, WithPrecision(fmt, WithWidth(fmt, d, args), args)) ==
            Widened(d, w, args, mid).(precision := w.Precision(args, d.used), half := w.qualifier == "h", end := end,
                                      used := d.used + w.width.Args() + if w.point then w.precision.Args() else 0)
  {
    WidthEnd(fmt, mid, end, w);
    WidthRead(fmt, d, w, args, mid);
    RestRead(fmt, Widened(d, w, args, mid), w, args, d.used, end);
  }

  lemma {:induction false} WidthEnd(fmt: string, mid: nat, end: nat, w: Written)
    requires w.Ok() && Stands(fmt, mid, w.Rest()) && end == mid + |w.Rest()| && w.EndedBy(CharAt(fmt, end))
    ensures w.width.EndedBy(CharAt(fmt, mid))
  {
    RestFirst(w);
    Behind(fmt, mid, w.Rest(), end);
  }

  // What follows the width starts with no digit, flag or star.
  lemma {:induction false} RestFirst(w: Written)
    requires w.Ok()
    ensures w.Rest() != "" ==> w.Rest()[0] in ".hl"
  {
  }

  lemma {:induction false} FieldFirst(w: Written)
    requires w.Ok()
    ensures w.width.Text() != "" ==> !IsFlag(w.width.Text()[0])
    ensures w.width.Text() == "" <==> w.width == Absent
  {
    if w.width.Literal? {
      assert w.width.digits[0] in w.width.digits;
    }
  }

  // Behind the flags no flag follows.
  lemma {:induction false} FlagsEnd(fmt: string, j: nat, mid: nat, end: nat, w: Written)
    requires w.Ok() && Stands(fmt, j, w.width.Text()) && mid == j + |w.width.Text()|
    requires Stands(fmt, mid, w.Rest()) && end == mid + |w.Rest()| && w.EndedBy(CharAt(fmt, end))
    ensures !IsFlag(CharAt(fmt, j))
  {
    RestFirst(w);
    FieldFirst(w);
    if w.width == Absent {
      Behind(fmt, mid, w.Rest(), end);
    } else {
      StandsFirst(fmt, j, w.width.Text());
    }
  }

  // The directive from its flags on.
  lemma {:induction false} Assembled(fmt: string, i: nat, args: seq<Arg>, k: nat, f: Flags, j: nat)
    requires i < |fmt| && FlagsFrom(fmt, i + 1, NoFlags()) == (f, j)
    ensures DirectiveAt(fmt, i, args, k) ==
            WithQualifier(fmt, WithPrecision(fmt, WithWidth(fmt, Directive(f, -1, -1, false, j, k), args), args))
  {
  }

  lemma {:induction false} TextParts(fmt: string, i: nat, w: Written)
    requires Stands(fmt, i, w.Text())
    ensures Stands(fmt, i, w.flags) && Stands(fmt, i + |w.flags|, w.width.Text())
    ensures Stands(fmt, i + |w.flags| + |w.width.Text()|, w.Rest())
    ensures |w.Text()| == |w.flags| + |w.width.Text()| + |w.Rest()|
  {
    StandsParts(fmt, i, w.flags, w.width.Text() + w.Rest());
    StandsParts(fmt, i + |w.flags|, w.width.Text(), w.Rest());
  }

  // A directive is read as it is written: its flags in any order and number, width and precision
  // as decimal numbers or from the arguments, a negative width as left adjustment, and its
  // qualifier, up to the conversion character.
  lemma {:induction false} ReadAsWritten(fmt: string, i: nat, w: Written, args: seq<Arg>, k: nat)
    requires WrittenAt(fmt, i, w)
    ensures DirectiveAt(fmt, i, args, k) == w.Says(args, k, i + 1 + |w.Text()|)
  {
    var j, mid, end := TextPlaces(fmt, i + 1, w);
    ReadParts(fmt, i, w, args, k, j, mid, end);
  }

  // Where its parts begin and end.
  lemma {:induction false} TextPlaces(fmt: string, i: nat, w: Written) returns (j: nat, mid: nat, end: nat)
    requires Stands(fmt, i, w.Text())
    ensures Stands(fmt, i, w.flags) && j == i + |w.flags|
    ensures Stands(fmt, j, w.width.Text()) && mid == j + |w.width.Text()|
    ensures Stands(fmt, mid, w.Rest()) && end == mid + |w.Rest()| == i + |w.Text()|
  {
    TextParts(fmt, i, w);
    j, mid, end := i + |w.flags|, i + |w.flags| + |w.width.Text()|, i + |w.Text()|;
  }

  lemma {:induction false} ReadParts(fmt: string, i: nat, w: Written, args: seq<Arg>, k: nat, j: nat, mid: nat,
        end: nat)
    requires w.Ok() && i < |fmt| && Stands(fmt, i + 1, w.flags) && j == i + 1 + |w.flags|
    requires Stands(fmt, j, w.width.Text()) && mid == j + |w.width.Text()|
    requires Stands(fmt, mid, w.Rest()) && end == mid + |w.Rest()| && w.EndedBy(CharAt(fmt, end))
    ensures DirectiveAt(fmt, i, args, k) == w.Says(args, k, end)
  {
    var f := Marked(NoFlags(), w.flags);
    FlagsEnd(fmt, j, mid, end, w);
    FlagsStand(fmt, i + 1, w);
    BehindFlags(fmt, i, w, args, k, f, j, mid, end);
  }

  lemma {:induction false} BehindFlags(fmt: string, i: nat, w: Written, args: seq<Arg>, k: nat, f: Flags, j: nat,
        mid: nat, end: nat)
    requires w.Ok() && i < |fmt| && f == Marked(NoFlags(), w.flags) && FlagsFrom(fmt, i + 1, NoFlags()) == (f, j)
    requires Stands(fmt, j, w.width.Text()) && mid == j + |w.width.Text()|
    requires Stands(fmt, mid, w.Rest()) && end == mid + |w.Rest()| && w.EndedBy(CharAt(fmt, end))
    ensures DirectiveAt(fmt, i, args, k) == w.Says(args, k, end)
  {
    Assembled(fmt, i, args, k, f, j);
    FieldsRead(fmt, Directive(f, -1, -1, false, j, k), w, args, mid, end);
    SaysAll(w, args, k, j, mid, end);
  }

  lemma SaysAll(w: Written, args: seq<Arg>, k: nat, j: nat, mid: nat, end: nat)
    ensures Widened(Directive(Marked(NoFlags(), w.flags), -1, -1, false, j, k), w, args, mid)
            .(precision := w.Precision(args, k), half := w.qualifier == "h", end := end,
              used := k + w.width.Args() + if w.point then w.precision.Args() else 0)
            == w.Says(args, k, end)
  {
  }
}
