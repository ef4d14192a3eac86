/** Any format as its pieces, and what they print one after the other. */
module FormatPieces {
  import opened NumberText
  import opened FormatText
  import opened DirectiveText
  import opened ConversionText

  // A character that stands for itself, a directive with the character that ends it, or one that the end
  // of the format breaks off.
  datatype Piece = Plain(c: char) | Conversion(w: Written, c: char) | Open(w: Written) {
    function Size(): nat {
      match this
      case Plain(c) => 1
      case Conversion(w, c) => |w.Text()| + 2
      case Open(w) => |w.Text()| + 1
    }
  }

  // Piece p stands in fmt from place i on.
  ghost predicate PieceAt(fmt: string, i: nat, p: Piece) {
    && i + p.Size() <= |fmt|
    && match p
       case Plain(c) => fmt[i] == c != '%'
       case Conversion(w, c) => fmt[i] == '%' && WrittenAt(fmt, i, w) && fmt[i + p.Size() - 1] == c != '\0'
       case Open(w) => fmt[i] == '%' && WrittenAt(fmt, i, w) && i + p.Size() == |fmt|
  }

  // The format consists of the pieces ps from place i on.
  ghost predicate Consists(fmt: string, i: nat, ps: seq<Piece>)
    decreases |ps|
  {
    if ps == [] then i == |fmt| else PieceAt(fmt, i, ps[0]) && Consists(fmt, i + ps[0].Size(), ps[1..])
  }

  // The arguments from place k on are used up to the place that is returned.
  ghost function Behind(p: Piece, args: seq<Arg>, k: nat): nat {
    if p.Conversion? then p.w.Says(args, k, 0).used + Uses(p.c) else k
  }

  // What one piece prints that finds the arguments from place k on.
  ghost predicate PrintsPiece(p: Piece, args: seq<Arg>, k: nat, s: string) {
    match p
    case Plain(c) => s == [c]
    case Conversion(w, c) => Prints(w.Says(args, k, 0), c, args, s)
    case Open(w) => s == "%"
  }

  // What the pieces print one after the other, each with the arguments that those in front of it have left.
  ghost predicate PrintsEach(ps: seq<Piece>, args: seq<Arg>, k: nat, parts: seq<string>) {
    && |parts| == |ps|
    && (ps == [] || (PrintsPiece(ps[0], args, k, parts[0])
                     && PrintsEach(ps[1..], args, Behind(ps[0], args, k), parts[1..])))
  }

  ghost function Joined(parts: seq<string>): string { if parts == [] then "" else parts[0] + Joined(parts[1..]) }

  lemma {:induction false} EndApart(d: Directive, e: Directive, c: char, args: seq<Arg>, s: string)
    requires Prints(d, c, args, s) && e == d.(end := e.end)
    ensures Prints(e, c, args, s)
  {
    assert AsPointer(e) == AsPointer(d).(end := e.end);
    SignedApart(d, e, args, s);
    UnsignedApart(d, e, args, s);
    UnsignedApart(AsPointer(d), AsPointer(e), args, s);
  }

  lemma {:induction false} SignedApart(d: Directive, e: Directive, args: seq<Arg>, s: string)
    requires e == d.(end := e.end)
    ensures PrintsSigned(d, args, s) ==> PrintsSigned(e, args, s)
  {
  }

  lemma {:induction false} UnsignedApart(d: Directive, e: Directive, args: seq<Arg>, s: string)
    requires e == d.(end := e.end)
    ensures PrintsUnsigned(d, 10, false, args, s) ==> PrintsUnsigned(e, 10, false, args, s)
    ensures PrintsUnsigned(d, 16, false, args, s) ==> PrintsUnsigned(e, 16, false, args, s)
    ensures PrintsUnsigned(d, 16, true, args, s) ==> PrintsUnsigned(e, 16, true, args, s)
  {
  }

  lemma {:induction false} OneMore(ps: seq<Piece>, args: seq<Arg>, k: nat, s: string, parts: seq<string>)
    requires ps != [] && PrintsPiece(ps[0], args, k, s) && PrintsEach(ps[1..], args, Behind(ps[0], args, k), parts)
    ensures PrintsEach(ps, args, k, [s] + parts) && Joined([s] + parts) == s + Joined(parts)
  {
    assert ([s] + parts)[1..] == parts;
  }

  // --- how the pieces are read --------------------------------------------------------------------

  // Whatever the arguments, the directive at place i says what w says.
  ghost predicate ReadAs(fmt: string, i: nat, w: Written, end: nat)
    requires i < |fmt|
  {
    forall args, k: nat :: DirectiveAt(fmt, i, args, k) == w.Says(args, k, end)
  }

  ghost predicate PieceRead(fmt: string, i: nat, p: Piece, j: nat) {
    && i < j <= |fmt|
    && match p
       case Plain(c) => fmt[i] == c != '%' && j == i + 1
       case Conversion(w, c) => fmt[i] == '%' && fmt[j - 1] == c != '\0' && ReadAs(fmt, i, w, j - 1)
       case Open(w) => fmt[i] == '%' && j == |fmt| && ReadAs(fmt, i, w, j)
  }

  ghost predicate AllRead(fmt: string, i: nat, ps: seq<Piece>)
    decreases |ps|
  {
    if ps == [] then i == |fmt|
    else PieceRead(fmt, i, ps[0], i + ps[0].Size()) && AllRead(fmt, i + ps[0].Size(), ps[1..])
  }

  lemma {:induction false} IsRead(fmt: string, i: nat, w: Written, end: nat)
    requires WrittenAt(fmt, i, w) && end == i + 1 + |w.Text()|
    ensures ReadAs(fmt, i, w, end)
  {
    forall args, k: nat
      ensures DirectiveAt(fmt, i, args, k) == w.Says(args, k, end)
    {
      ReadAsWritten(fmt, i, w, args, k);
    }
  }

  lemma {:induction false} PieceIsRead(fmt: string, i: nat, p: Piece)
    requires PieceAt(fmt, i, p)
    ensures PieceRead(fmt, i, p, i + p.Size())
  {
    match p
    case Plain(c) =>
    case Conversion(w, c) => IsRead(fmt, i, w, i + 1 + |w.Text()|);
    case Open(w) => IsRead(fmt, i, w, i + 1 + |w.Text()|);
  }

  lemma {:induction false} AllAreRead(fmt: string, i: nat, ps: seq<Piece>)
    requires Consists(fmt, i, ps)
    ensures AllRead(fmt, i, ps)
    decreases |ps|
  {
    if ps != [] {
      PieceIsRead(fmt, i, ps[0]);
      AllAreRead(fmt, i + ps[0].Size(), ps[1..]);
    }
  }

  // --- what the pieces print ----------------------------------------------------------------------

  lemma {:induction false} SaysApart(w: Written, args: seq<Arg>, k: nat, end: nat)
    ensures var d := w.Says(args, k, end); d.(end := 0) == w.Says(args, k, 0) && d.end == end && !d.f.sign && !d.f.large
  {
  }

  lemma {:induction false} TextFirst(fmt: string, i: nat, args: seq<Arg>, k: nat, d: Directive)
    requires i < |fmt| && fmt[i] == '%' && d == DirectiveAt(fmt, i, args, k)
    ensures Text(fmt, i, args, k) == Converted(fmt, d, args).0 + Text(fmt, d.end + 1, args, Converted(fmt, d, args).1)
  {
  }

  lemma {:induction false} TextLast(fmt: string, i: nat, args: seq<Arg>, k: nat, d: Directive)
    requires i < |fmt| && fmt[i] == '%' && d == DirectiveAt(fmt, i, args, k) && d.end == |fmt|
    ensures Text(fmt, i, args, k) == "%" + Text(fmt, d.end, args, k)
  {
    TextFirst(fmt, i, args, k, d);
    assert Converted(fmt, d, args).0 == "%" && Text(fmt, d.end + 1, args, Converted(fmt, d, args).1) == "";
  }

  lemma {:induction false} PrintsApart(fmt: string, d: Directive, args: seq<Arg>)
    requires !d.f.sign && !d.f.large && CharAt(fmt, d.end) != '\0'
    ensures Prints(d.(end := 0), CharAt(fmt, d.end), args, Converted(fmt, d, args).0)
    ensures Converted(fmt, d, args).1 == d.used + Uses(CharAt(fmt, d.end))
  {
    ConvertedPrints(fmt, d, args);
    EndApart(d, d.(end := 0), CharAt(fmt, d.end), args, Converted(fmt, d, args).0);
  }

  // A directive prints what it says, and leaves the arguments behind those it uses.
  lemma {:induction false} PrintsDirective(fmt: string, i: nat, args: seq<Arg>, k: nat, d: Directive, c: char)
      returns (s: string)
    requires i < |fmt| && fmt[i] == '%' && d == DirectiveAt(fmt, i, args, k) && CharAt(fmt, d.end) == c != '\0'
    requires !d.f.sign && !d.f.large
    ensures Prints(d.(end := 0), c, args, s)
    ensures Text(fmt, i, args, k) == s + Text(fmt, d.end + 1, args, d.used + Uses(c))
  {
    s := Converted(fmt, d, args).0;
    TextFirst(fmt, i, args, k, d);
    PrintsApart(fmt, d, args);
  }

  lemma {:induction false} PieceIs(p: Piece, d: Directive, args: seq<Arg>, k: nat, s: string)
    requires p.Conversion? && d == p.w.Says(args, k, 0) && Prints(d, p.c, args, s)
    ensures PrintsPiece(p, args, k, s) && Behind(p, args, k) == d.used + Uses(p.c)
  {
  }

  lemma {:induction false} PrintsConversion(fmt: string, i: nat, p: Piece, args: seq<Arg>, k: nat, j: nat)
      returns (s: string)
    requires PieceRead(fmt, i, p, j) && p.Conversion?
    ensures PrintsPiece(p, args, k, s) && Text(fmt, i, args, k) == s + Text(fmt, j, args, Behind(p, args, k))
  {
    var d := p.w.Says(args, k, j - 1);
    SaysApart(p.w, args, k, j - 1);
    s := PrintsDirective(fmt, i, args, k, d, p.c);
    PieceIs(p, d.(end := 0), args, k, s);
  }

  lemma {:induction false} PrintsOpen(fmt: string, i: nat, p: Piece, args: seq<Arg>, k: nat, j: nat)
    requires PieceRead(fmt, i, p, j) && p.Open?
    ensures Text(fmt, i, args, k) == "%" + Text(fmt, j, args, k)
  {
    SaysApart(p.w, args, k, j);
    TextLast(fmt, i, args, k, p.w.Says(args, k, j));
  }

  lemma {:induction false} PrintsFront(fmt: string, i: nat, p: Piece, args: seq<Arg>, k: nat, j: nat)
      returns (s: string)
    requires PieceRead(fmt, i, p, j)
    ensures PrintsPiece(p, args, k, s) && Text(fmt, i, args, k) == s + Text(fmt, j, args, Behind(p, args, k))
  {
    match p
    case Plain(c) => s := [c];
    case Conversion(w, c) => s := PrintsConversion(fmt, i, p, args, k, j);
    case Open(w) =>
      PrintsOpen(fmt, i, p, args, k, j);
      s := "%";
  }

  lemma {:induction false} PrintsRead(fmt: string, i: nat, ps: seq<Piece>, args: seq<Arg>, k: nat)
      returns (parts: seq<string>)
    requires AllRead(fmt, i, ps)
    ensures PrintsEach(ps, args, k, parts) && Text(fmt, i, args, k) == Joined(parts)
    decreases |ps|
  {
    if ps == [] {
      parts := [];
    } else {
      var j := i + ps[0].Size();
      var s := PrintsFront(fmt, i, ps[0], args, k, j);
      var more := PrintsRead(fmt, j, ps[1..], args, Behind(ps[0], args, k));
      OneMore(ps, args, k, s, more);
      parts := [s] + more;
    }
  }

  // Every format prints what its pieces say, one after the other.
  lemma {:induction false} PrintsPieces(fmt: string, ps: seq<Piece>, args: seq<Arg>) returns (parts: seq<string>)
    requires Consists(fmt, 0, ps)
    ensures PrintsEach(ps, args, 0, parts) && Text(fmt, 0, args, 0) == Joined(parts)
  {
    AllAreRead(fmt, 0, ps);
    parts := PrintsRead(fmt, 0, ps, args, 0);
  }

  // --- every format consists of pieces ------------------------------------------------------------

  // Where the flags from i on end.
  ghost function FlagsStop(fmt: string, i: nat): (j: nat)
    requires i <= |fmt|
    ensures i <= j <= |fmt| && (forall k :: i <= k < j ==> IsFlag(fmt[k])) && (j < |fmt| ==> !IsFlag(fmt[j]))
    decreases |fmt| - i
  {
    if i < |fmt| && IsFlag(fmt[i]) then FlagsStop(fmt, i + 1) else i
  }

  // The field at place i, and where it ends.
  lemma {:induction false} FieldFrom(fmt: string, i: nat) returns (f: Field, j: nat)
    requires i <= |fmt|
    ensures f.Ok() && i <= j <= |fmt| && fmt[i..j] == f.Text() && f.EndedBy(CharAt(fmt, j))
    ensures f.Literal? ==> f.digits[0] == CharAt(fmt, i)
    ensures f.Absent? ==> j == i
  {
    if IsDigit(CharAt(fmt, i)) {
      j := DigitsEnd(fmt, i);
      f := Literal(fmt[i..j]);
    } else if CharAt(fmt, i) == '*' {
      f, j := Star, i + 1;
    } else {
      f, j := Absent, i;
    }
  }

  // The point and the precision at place i.
  lemma {:induction false} PointFrom(fmt: string, i: nat) returns (point: bool, f: Field, j: nat)
    requires i <= |fmt|
    ensures f.Ok() && i <= j <= |fmt| && fmt[i..j] == if point then "." + f.Text() else ""
    ensures if point then f.EndedBy(CharAt(fmt, j)) else j == i && CharAt(fmt, j) != '.'
  {
    point := CharAt(fmt, i) == '.';
    if point {
      f, j := FieldFrom(fmt, i + 1);
      assert fmt[i..j] == [fmt[i]] + fmt[i + 1..j];
    } else {
      f, j := Absent, i;
    }
  }

  lemma {:induction false} QualifierFrom(fmt: string, i: nat) returns (q: string, j: nat)
    requires i <= |fmt|
    ensures q in {"", "h", "l"} && i <= j <= |fmt| && fmt[i..j] == q && (q == "" ==> CharAt(fmt, j) !in "hl")
  {
    if CharAt(fmt, i) == 'h' || CharAt(fmt, i) == 'l' {
      q, j := [fmt[i]], i + 1;
    } else {
      q, j := "", i;
    }
  }

  // The directive behind the '%' at place i.
  lemma {:induction false} WrittenFrom(fmt: string, i: nat) returns (w: Written)
    requires i < |fmt|
    ensures WrittenAt(fmt, i, w)
  {
    var j := FlagsStop(fmt, i + 1);
    var width, m := FieldFrom(fmt, j);
    var point, precision, e := PointFrom(fmt, m);
    var q, end := QualifierFrom(fmt, e);
    w := Written(fmt[i + 1..j], width, point, precision, q);
    PartsOk(fmt, i + 1, w, j);
    EndsThere(fmt, w, j, m, e, end);
    StandsAll(fmt, i + 1, w, j, m, e, end);
  }

  lemma {:induction false} PartsOk(fmt: string, i: nat, w: Written, j: nat)
    requires i <= j <= |fmt| && w.flags == fmt[i..j] && forall k :: i <= k < j ==> IsFlag(fmt[k])
    requires w.width.Ok() && w.precision.Ok() && w.qualifier in {"", "h", "l"}
    requires w.width.Literal? ==> w.width.digits[0] == CharAt(fmt, j)
    requires !IsFlag(CharAt(fmt, j))
    ensures w.Ok()
  {
  }

  lemma {:induction false} EndsThere(fmt: string, w: Written, j: nat, m: nat, e: nat, end: nat)
    requires w.width.EndedBy(CharAt(fmt, m)) && (w.width.Absent? ==> m == j && !IsFlag(CharAt(fmt, j)))
    requires if w.point then w.precision.EndedBy(CharAt(fmt, e)) else e == m && CharAt(fmt, e) != '.'
    requires w.qualifier == "" ==> end == e && CharAt(fmt, end) !in "hl"
    ensures w.EndedBy(CharAt(fmt, end))
  {
  }

  lemma {:induction false} StandsAll(fmt: string, i: nat, w: Written, j: nat, m: nat, e: nat, end: nat)
    requires i <= j <= m <= e <= end <= |fmt| && w.flags == fmt[i..j] && w.width.Text() == fmt[j..m]
    requires w.PointText() == fmt[m..e] && w.qualifier == fmt[e..end]
    ensures Stands(fmt, i, w.Text()) && end == i + |w.Text()|
  {
    assert fmt[i..j] + (fmt[j..m] + (fmt[m..e] + fmt[e..end])) == fmt[i..end];
  }

  lemma {:induction false} PieceFrom(fmt: string, i: nat) returns (p: Piece)
    requires i < |fmt| && forall k :: 0 <= k < |fmt| ==> fmt[k] != '\0'
    ensures PieceAt(fmt, i, p)
  {
    if fmt[i] != '%' {
      p := Plain(fmt[i]);
    } else {
      var w := WrittenFrom(fmt, i);
      var end := i + 1 + |w.Text()|;
      p := if end < |fmt| then Conversion(w, fmt[end]) else Open(w);
    }
  }

  // So every format has such pieces, also one that is not well formed.
  lemma {:induction false} PiecesExist(fmt: string, i: nat) returns (ps: seq<Piece>)
    requires i <= |fmt| && forall k :: 0 <= k < |fmt| ==> fmt[k] != '\0'
    ensures Consists(fmt, i, ps)
    decreases |fmt| - i
  {
    if i == |fmt| {
      ps := [];
    } else {
      var p := PieceFrom(fmt, i);
      var more := PiecesExist(fmt, i + p.Size());
      ps := [p] + more;
      assert ps[1..] == more;
    }
  }

  // The text that the pieces print; no other way to split the format into pieces gives another one.
  ghost predicate PrintedBy(fmt: string, args: seq<Arg>, text: string) {
    forall ps :: Consists(fmt, 0, ps) ==> exists parts :: PrintsEach(ps, args, 0, parts) && Joined(parts) == text
  }

  lemma {:induction false} TextPrinted(fmt: string, args: seq<Arg>)
    ensures PrintedBy(fmt, args, Text(fmt, 0, args, 0))
  {
    forall ps | Consists(fmt, 0, ps)
      ensures exists parts :: PrintsEach(ps, args, 0, parts) && Joined(parts) == Text(fmt, 0, args, 0)
    {
      var parts := PrintsPieces(fmt, ps, args);
    }
  }
}
