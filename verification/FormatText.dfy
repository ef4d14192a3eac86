/** What rt_vsnprintf prints for a format and its arguments, whatever the buffer. */
module FormatText {
  import opened Align
  import opened NumberText

  // An argument: a word, or a string, which may be missing.
  datatype Arg = Num(v: nat) | Str(s: string) | NullStr

  // The directive between '%' and its conversion character, which stands at place end.
  datatype Directive = Directive(f: Flags, width: int, precision: int, half: bool, end: nat, used: nat)

  function CharAt(fmt: string, i: nat): char { if i < |fmt| then fmt[i] else '\0' }

  predicate IsDigit(c: char) { '0' <= c <= '9' }

  function NoFlags(): Flags { Flags(false, false, false, false, false, false) }

  // Argument k as a word; what is not a word counts as 0.
  function WordArg(args: seq<Arg>, k: nat): (v: nat)
    ensures v < WORD
  {
    if k < |args| && args[k].Num? then args[k].v % WORD else 0
  }

  function IntArg(args: seq<Arg>, k: nat): int {
    var v := WordArg(args, k);
    if v >= TOP then v - WORD else v
  }

  function StrArg(args: seq<Arg>, k: nat): string {
    if k < |args| && args[k].Str? then args[k].s else "(NULL)"
  }

  // The flag c sets, or None.
  function WithFlag(f: Flags, c: char): Flags {
    match c
    case '-' => f.(left := true)
    case '+' => f.(plus := true)
    case ' ' => f.(space := true)
    case '0' => f.(zeropad := true)
    case _ => f
  }

  predicate IsFlag(c: char) { c == '-' || c == '+' || c == ' ' || c == '#' || c == '0' }

  function FlagsFrom(fmt: string, i: nat, f: Flags): (r: (Flags, nat))
    ensures i <= r.1 <= if i <= |fmt| then |fmt| else i
    decreases |fmt| - i
  {
    if i < |fmt| && IsFlag(fmt[i]) then FlagsFrom(fmt, i + 1, WithFlag(f, fmt[i])) else (f, i)
  }

  function NumberFrom(fmt: string, i: nat, n: nat): (r: (nat, nat))
    ensures i <= r.1 <= if i <= |fmt| then |fmt| else i
    decreases |fmt| - i
  {
    if i < |fmt| && IsDigit(fmt[i]) then NumberFrom(fmt, i + 1, n * 10 + (fmt[i] as nat - '0' as nat)) else (n, i)
  }

  // The field width.
  function WithWidth(fmt: string, d: Directive, args: seq<Arg>): (r: Directive)
    ensures d.end <= r.end <= if d.end <= |fmt| then |fmt| else d.end
  {
    var c := CharAt(fmt, d.end);
    if IsDigit(c) then
      var (n, i) := NumberFrom(fmt, d.end, 0);
      d.(width := n, end := i)
    else if c == '*' then
      var w := IntArg(args, d.used);
      d.(width := if w < 0 then -w else w, f := if w < 0 then d.f.(left := true) else d.f,
         end := d.end + 1, used := d.used + 1)
    else d
  }

  function WithPrecision(fmt: string, d: Directive, args: seq<Arg>): (r: Directive)
    ensures d.end <= r.end <= if d.end <= |fmt| then |fmt| else d.end
  {
    if CharAt(fmt, d.end) != '.' then d
    else
      var c := CharAt(fmt, d.end + 1);
      if IsDigit(c) then
        var (n, i) := NumberFrom(fmt, d.end + 1, 0);
        d.(precision := n, end := i)
      else if c == '*' then
        d.(precision := Max(0, IntArg(args, d.used)), end := d.end + 2, used := d.used + 1)
      else d.(precision := 0, end := d.end + 1)
  }

  function WithQualifier(fmt: string, d: Directive): (r: Directive)
    ensures d.end <= r.end <= if d.end <= |fmt| then |fmt| else d.end
  {
    var c := CharAt(fmt, d.end);
    if c == 'h' || c == 'l' then d.(half := c == 'h', end := d.end + 1) else d
  }

  // The directive whose '%' stands at place i; k arguments are used up before it.
  function DirectiveAt(fmt: string, i: nat, args: seq<Arg>, k: nat): (d: Directive)
    requires i < |fmt|
    ensures i < d.end <= |fmt|
  {
    var (f, j) := FlagsFrom(fmt, i + 1, NoFlags());
    WithQualifier(fmt, WithPrecision(fmt, WithWidth(fmt, Directive(f, -1, -1, false, j, k), args), args))
  }

  // The word that is printed: the lower half of the argument, if it is so qualified.
  function Value(d: Directive, args: seq<Arg>, sign: bool): (v: nat)
    ensures v < WORD
  {
    var v := WordArg(args, d.used);
    if d.half then
      var h := v % 0x1_0000;
      if sign && h >= 0x8000 then h + 0xffff_0000 else h
    else v
  }

  function CharText(d: Directive, c: char): string {
    Times(' ', if d.f.left then 0 else d.width - 1) + [c] + Times(' ', if d.f.left then d.width - 1 else 0)
  }

  function StrText(d: Directive, s: string): string {
    var len := if 0 < d.precision < |s| then d.precision else |s|;
    Times(' ', if d.f.left then 0 else d.width - len) + s[..len] + Times(' ', if d.f.left then d.width - len else 0)
  }

  function NumText(d: Directive, args: seq<Arg>, base: nat, sign: bool, large: bool): string {
    Number(Value(d, args, sign), base, d.width, d.precision, d.f.(sign := sign, large := large))
  }

  // The text for a directive, and how many arguments are used up after it.
  function Converted(fmt: string, d: Directive, args: seq<Arg>): (string, nat) {
    match CharAt(fmt, d.end)
    case 'c' => (CharText(d, (WordArg(args, d.used) % 256) as char), d.used + 1)
    case 's' => (StrText(d, StrArg(args, d.used)), d.used + 1)
    case 'p' =>
      var e := if d.width == -1 then d.(width := 8, f := d.f.(zeropad := true)) else d;
      (Number(WordArg(args, d.used), 16, e.width, e.precision, e.f), d.used + 1)
    case '%' => ("%", d.used)
    case 'o' => (NumText(d, args, 8, false, false), d.used + 1)
    case 'X' => (NumText(d, args, 16, false, true), d.used + 1)
    case 'x' => (NumText(d, args, 16, false, false), d.used + 1)
    case 'd' => (NumText(d, args, 10, true, false), d.used + 1)
    case 'i' => (NumText(d, args, 10, true, false), d.used + 1)
    case 'u' => (NumText(d, args, 10, false, false), d.used + 1)
    case c => (if c == '\0' then "%" else ['%', c], d.used)
  }

  // The text for the format from place i on.
  function Text(fmt: string, i: nat, args: seq<Arg>, k: nat): string
    decreases |fmt| - i
  {
    if i >= |fmt| then ""
    else if fmt[i] != '%' then [fmt[i]] + Text(fmt, i + 1, args, k)
    else
      var d := DirectiveAt(fmt, i, args, k);
      var (s, used) := Converted(fmt, d, args);
      s + Text(fmt, d.end + 1, args, used)
  }

  // A format without '%' prints itself.
  lemma {:induction false} PlainText(fmt: string, i: nat, args: seq<Arg>, k: nat)
    requires i <= |fmt| && forall j :: i <= j < |fmt| ==> fmt[j] != '%'
    ensures Text(fmt, i, args, k) == fmt[i..]
    decreases |fmt| - i
  {
    if i < |fmt| {
      PlainText(fmt, i + 1, args, k);
      assert fmt[i..] == [fmt[i]] + fmt[i + 1..];
    }
  }
}
