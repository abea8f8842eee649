/** Which texts `ArchiveElement::parse` accepts, said without the reader: a number field is written
    like this, an archive is made of these sections, and everything else is refused like that. */
module ArchiveTexts {
  import opened Digits
  import opened Archive
  import ArchiveWriter
  import opened Sequences
  import Texts

  // ---------------------------------------------------------------- number fields

  /** C's `isspace`. */
  predicate Blank(c: char) {
    c in " \t\n\U{0B}\U{0C}\r"
  }

  predicate Digit(c: char, base: nat)
    requires base <= 10
  {
    c in "0123456789"[..base]
  }

  /** Digits from `first` to `end`, with single underscores allowed between them. */
  predicate Groups(f: string, first: nat, end: nat, base: nat)
    requires base <= 10
  {
    && first < end <= |f| && Digit(f[first], base) && Digit(f[end - 1], base)
    && (forall i :: first <= i < end ==> Digit(f[i], base) || f[i] == '_')
    && (forall i :: first <= i < end - 1 ==> Digit(f[i], base) || Digit(f[i + 1], base))
  }

  /** A number is an optional sign and groups of digits; it ends the field or a blank follows. */
  predicate NumberEnds(f: string, end: nat, base: nat)
    requires base <= 10
  {
    && Groups(f, if Signed(f) then 1 else 0, end, base)
    && (end < |f| ==> Blank(f[end]))
  }

  lemma CharKinds(c: char, base: nat)
    requires base <= 10
    ensures Blank(c) <==> IsSpace(c)
    ensures Digit(c, base) <==> IsDigit(c, base)
  {
    if Digit(c, base) {
      var i :| 0 <= i < base && "0123456789"[..base][i] == c;
      assert "0123456789"[i] == ('0' as int + i) as char;
    }
    if IsDigit(c, base) {
      assert "0123456789"[..base][c as int - '0' as int] == c;
    }
  }

  lemma AllKinds(base: nat)
    requires base <= 10
    ensures forall c :: Blank(c) <==> IsSpace(c)
    ensures forall c :: Digit(c, base) <==> IsDigit(c, base)
  {
    forall c ensures (Blank(c) <==> IsSpace(c)) && (Digit(c, base) <==> IsDigit(c, base)) {
      CharKinds(c, base);
    }
  }

  /** Groups cannot go on at `end`. */
  predicate Stops(f: string, end: nat, base: nat)
    requires base <= 10
  {
    end < |f| ==> !Digit(f[end], base) && (f[end] == '_' && end + 1 < |f| ==> !Digit(f[end + 1], base))
  }

  /** From the end of some groups on, the scanner goes on to where they stop. */
  lemma {:induction false} ScanRest(f: string, first: nat, s: nat, base: nat)
    requires base <= 10 && Groups(f, first, s, base)
    ensures Groups(f, first, ScanDigits(f, s, s, base), base) && Stops(f, ScanDigits(f, s, s, base), base)
    decreases |f| - s
  {
    AllKinds(base);
    if s < |f| && f[s] == '_' {
      if s + 1 < |f| && Digit(f[s + 1], base) {
        assert Groups(f, first, s + 2, base);
        ScanRest(f, first, s + 2, base);
      }
    } else if s < |f| && Digit(f[s], base) {
      ScanRest(f, first, s + 1, base);
    }
  }

  /** The scanner takes the longest groups there are behind the sign, or nothing. */
  lemma SpanIs(f: string, base: nat)
    requires base <= 10
    ensures var first, end := if Signed(f) then 1 else 0, Span(f, base);
            if first < |f| && Digit(f[first], base) then Groups(f, first, end, base) && Stops(f, end, base)
            else end == 0
  {
    AllKinds(base);
    var first := if Signed(f) then 1 else 0;
    if first < |f| && Digit(f[first], base) {
      ScanRest(f, first, first + 1, base);
    }
  }

  lemma GroupsGoOn(f: string, first: nat, a: nat, b: nat, base: nat)
    requires base <= 10 && Groups(f, first, a, base) && Groups(f, first, b, base) && a < b
    ensures !Stops(f, a, base) && !Blank(f[a])
  {
    AllKinds(base);
    assert Digit(f[a], base) || f[a] == '_';
    assert a < b - 1 ==> Digit(f[a], base) || Digit(f[a + 1], base);
  }

  lemma EndIsSpan(f: string, end: nat, base: nat)
    requires base <= 10 && NumberEnds(f, end, base)
    ensures Span(f, base) == end
  {
    SpanIs(f, base);
    var first, span := if Signed(f) then 1 else 0, Span(f, base);
    if span < end {
      GroupsGoOn(f, first, span, end, base);
    } else if end < span {
      GroupsGoOn(f, first, end, span, base);
    }
  }

  /** A field that holds a number is read as that number, without complaint; every other field as -1,
      with one. */
  lemma FieldExactly(f: string, what: Field, base: nat)
    requires base <= 10
    ensures forall end: nat :: NumberEnds(f, end, base) ==>
              ReadUint(f, what, base) == Number(Saturate(Value(f[..end], base), f[0] == '-'), [])
    ensures (forall end: nat :: !NumberEnds(f, end, base)) ==> ReadUint(f, what, base) == Number(-1, [BadNumber(what)])
  {
    AllKinds(base);
    forall end: nat | NumberEnds(f, end, base)
      ensures ReadUint(f, what, base) == Number(Saturate(Value(f[..end], base), f[0] == '-'), [])
    {
      EndIsSpan(f, end, base);
    }
    SpanIs(f, base);
    assert Span(f, base) > 0 && !NumberEnds(f, Span(f, base), base) ==>
        Span(f, base) < |f| && !Blank(f[Span(f, base)]);
  }

  // ---------------------------------------------------------------- what a number is worth

  /** Signs and separating underscores do not count. */
  lemma {:induction false} ValueSkips(x: string, c: char, y: string, base: nat)
    requires !IsDigit(c, 10)
    ensures Value(x + [c] + y, base) == Value(x + y, base)
    decreases |y|
  {
    if y == "" {
      assert (x + [c] + y)[..|x|] == x && x + y == x;
    } else {
      var front := y[..|y| - 1];
      assert (x + [c] + y)[..|x| + |y|] == x + [c] + front && (x + y)[..|x| + |y| - 1] == x + front;
      ValueSkips(x, c, front, base);
    }
  }

  lemma SignedEnds(sign: char, p: string, rest: string, base: nat)
    requires base <= 10 && (sign == '-' || sign == '+') && (rest == "" || Blank(rest[0]))
    requires p != "" && forall i :: 0 <= i < |p| ==> IsDigit(p[i], base)
    ensures var f := [sign] + p + rest;
            NumberEnds(f, 1 + |p|, base) && f[..1 + |p|] == "" + [sign] + p && f[0] == sign
  {
    AllKinds(base);
    var f, end := [sign] + p + rest, 1 + |p|;
    assert forall i :: 1 <= i < end ==> f[i] == p[i - 1];
    assert rest != "" ==> f[end] == rest[0];
  }

  lemma SignedValue(sign: char, n: nat, base: nat)
    requires 2 <= base <= 10 && (sign == '-' || sign == '+')
    ensures Value("" + [sign] + Print(n, base), base) == n
  {
    ValueSkips("", sign, Print(n, base), base);
    assert "" + Print(n, base) == Print(n, base);
    ValueOfPrint(n, base);
  }

  /** A sign, a number and what cannot go on it: the number with that sign, cut off at the limits of
      32 bits. */
  lemma SignedField(sign: char, n: nat, rest: string, what: Field, base: nat)
    requires base == 8 || base == 10
    requires sign == '-' || sign == '+'
    requires rest == "" || Blank(rest[0])
    ensures ReadUint([sign] + Print(n, base) + rest, what, base)
            == Number(if sign == '+' then (if n > 0x7FFF_FFFF then 0x7FFF_FFFF else n)
                      else if n > 0x8000_0000 then -0x8000_0000 else 0 - n, [])
  {
    SignedEnds(sign, Print(n, base), rest, base);
    FieldExactly([sign] + Print(n, base) + rest, what, base);
    SignedValue(sign, n, base);
  }

  /** The same without a sign. */
  lemma PlainField(n: nat, rest: string, what: Field, base: nat)
    requires base == 8 || base == 10
    requires rest == "" || Blank(rest[0])
    ensures ReadUint(Print(n, base) + rest, what, base)
            == Number(if n > 0x7FFF_FFFF then 0x7FFF_FFFF else n, [])
  {
    AllKinds(base);
    IntegerOfPrint(n, base, rest);
  }

  /** A number with something else behind it is refused. */
  lemma GarbageBehind(n: nat, rest: string, what: Field, base: nat)
    requires base == 8 || base == 10
    requires rest != "" && !Blank(rest[0]) && !Digit(rest[0], base) && rest[0] != '_'
    ensures ReadUint(Print(n, base) + rest, what, base) == Number(-1, [BadNumber(what)])
  {
    AllKinds(base);
    IntegerOfPrint(n, base, rest);
  }

  /** So is a field that does not start with a number. */
  lemma NoNumber(f: string, what: Field, base: nat)
    requires base <= 10
    requires var first := if Signed(f) then 1 else 0; first < |f| ==> !Digit(f[first], base)
    ensures ReadUint(f, what, base) == Number(-1, [BadNumber(what)])
  {
    SpanIs(f, base);
  }

  // ---------------------------------------------------------------- name fields

  predicate EndsName(c: char) {
    c == '/' || Blank(c)
  }

  /** `name` stands in `text` at `from`, up to the end, a slash or a blank. */
  predicate NameAt(text: string, from: nat, name: string) {
    && from + |name| <= |text| && text[from..from + |name|] == name
    && (forall i :: 0 <= i < |name| ==> !EndsName(name[i]))
    && (from + |name| < |text| ==> EndsName(text[from + |name|]))
  }

  lemma NameAtEnd(text: string, from: nat, name: string)
    requires NameAt(text, from, name)
    ensures from <= |text| && NameEnd(text, from) == from + |name|
  {
    AllKinds(10);
    forall k | from <= k < from + |name| ensures text[k] != '/' && !IsSpace(text[k]) {
      assert text[k] == name[k - from];
    }
  }

  /** A field that refers to the long names. */
  predicate Refers(h: string)
    requires |h| == 16
  {
    h[0] == '/' && Digit(h[1], 10)
  }

  /** A field that says how many bytes of the body are the name. */
  predicate SaysLength(h: string)
    requires |h| == 16
  {
    h[..3] == "#1/" && Digit(h[3], 10)
  }

  /** What a name field means. A reference is to a position in the long names, and refused when
      there is no such position or it is not a number. */
  lemma NameMeans(h: string, names: string, name: string)
    requires |h| == 16
    ensures !Refers(h) && !SaysLength(h) && NameAt(h, 0, name) ==> ReadName(h, names) == NameField(name, 0, [])
    ensures SaysLength(h) ==>
              var n := ReadUint(h[3..], LongNameField, 10); ReadName(h, names) == NameField("", n.value, n.log)
    ensures Refers(h) ==>
              var n := ReadUint(h[1..], LongNameField, 10);
              && (0 <= n.value < |names| && NameAt(names, n.value, name) ==>
                    ReadName(h, names) == NameField(name, 0, n.log))
              && (!(0 <= n.value < |names|) ==> ReadName(h, names) == NameField("", 0, n.log + [BadLongName]))
  {
    AllKinds(10);
    if NameAt(h, 0, name) {
      NameAtEnd(h, 0, name);
    }
    if Refers(h) {
      var n := ReadUint(h[1..], LongNameField, 10);
      if 0 <= n.value < |names| && NameAt(names, n.value, name) {
        NameAtEnd(names, n.value, name);
      }
    }
    if SaysLength(h) {
      assert h[0] == h[..3][0] && h[1] == h[..3][1] && h[2] == h[..3][2];
    } else if h[0] == '#' && h[1] == '1' && h[2] == '/' {
      assert h[..3] == "#1/";
    }
  }

  // ---------------------------------------------------------------- sections

  /** One section of an archive, field by field. */
  datatype Part = Part(name: string, date: string, uid: string, gid: string, mode: string, size: string,
                       body: string, pad: string)

  function Header(p: Part): string {
    p.name + (p.date + p.uid + p.gid + p.mode + p.size + "`\n")
  }

  function Text(p: Part): string {
    Header(p) + (p.body + p.pad)
  }

  predicate HeaderShaped(p: Part) {
    |p.name| == 16 && |p.date| == 12 && |p.uid| == 6 && |p.gid| == 6 && |p.mode| == 8 && |p.size| == 10
  }

  function SizeOf(p: Part): int {
    ReadUint(p.size, SizeField, 10).value
  }

  /** The section with the long names. */
  predicate IsTable(p: Part)
    requires HeaderShaped(p)
  {
    p.name[..2] == "//" && Blank(p.name[2])
  }

  /** How many bytes of the body are the name. */
  function Inline(p: Part): int
    requires HeaderShaped(p)
  {
    if SaysLength(p.name) then ReadUint(p.name[3..], LongNameField, 10).value else 0
  }

  /** The body has the length the header says, an odd body has one more byte behind it, and a name
      in the body fits into it. */
  predicate Complete(p: Part) {
    && HeaderShaped(p) && SizeOf(p) == |p.body| && |p.pad| == |p.body| % 2
    && (!IsTable(p) ==> Inline(p) <= |p.body|)
  }

  function FieldLog(p: Part, names: string): seq<Complaint>
    requires HeaderShaped(p)
  {
    ReadName(p.name, names).log
    + ReadUint(p.date, DateField, 10).log + ReadUint(p.uid, UidField, 10).log + ReadUint(p.gid, GidField, 10).log
    + ReadUint(p.mode, ModeField, 8).log + ReadUint(p.size, SizeField, 10).log
  }

  function MemberOf(p: Part, names: string): Member
    requires Complete(p) && !IsTable(p)
  {
    var n := if Inline(p) > 0 then Inline(p) else 0;
    Member(if n > 0 then p.body[..n] else ReadName(p.name, names).name,
           ReadUint(p.date, DateField, 10).value, ReadUint(p.uid, UidField, 10).value,
           ReadUint(p.gid, GidField, 10).value, ReadUint(p.mode, ModeField, 8).value, p.body[n..])
  }

  function TwoTables(names: string): seq<Complaint> {
    if names != "" then [TwoLongNameSections] else []
  }

  lemma HeaderParts(p: Part, rest: string)
    requires HeaderShaped(p)
    ensures var t := Header(p) + rest;
            && |t| == 60 + |rest| && t[..16] == p.name && t[16..28] == p.date && t[28..34] == p.uid
            && t[34..40] == p.gid && t[40..48] == p.mode && t[48..58] == p.size
            && t[58] == '`' && t[59] == '\n' && t[60..] == rest
  {
    ArchiveWriter.HeaderSlices(p.name, p.date, p.uid, p.gid, p.mode, p.size, rest);
  }

  /** A header is taken for that of the long names, or for an element's with such a name. */
  lemma HeaderKind(p: Part, rest: string, names: string)
    requires HeaderShaped(p)
    ensures var t := Header(p) + rest;
            && |t| >= HEADER
            && ReadSection(t, names) == if IsTable(p) then ReadLongNames(t, names) else ReadElement(t, names)
    ensures ReadName(p.name, names).inline == Inline(p)
  {
    AllKinds(10);
    HeaderParts(p, rest);
    var t := Header(p) + rest;
    assert t[0] == t[..16][0] && t[1] == t[..16][1] && t[2] == t[..16][2];
    NameKinds(p.name, names);
    if p.name[0] == '/' && p.name[1] == '/' {
      assert p.name[..2] == "//";
    } else {
      assert p.name[..2][0] == p.name[0] && p.name[..2][1] == p.name[1];
    }
  }

  lemma NameKinds(h: string, names: string)
    requires |h| == 16
    ensures ReadName(h, names).inline == if SaysLength(h) then ReadUint(h[3..], LongNameField, 10).value else 0
  {
    NameMeans(h, names, "");
    if SaysLength(h) {
    } else if Refers(h) {
      var n := ReadUint(h[1..], LongNameField, 10).value;
    } else {
      AllKinds(10);
      if h[0] == '#' && h[1] == '1' && h[2] == '/' {
        assert h[..3] == "#1/";
      }
    }
  }

  lemma TextParts(p: Part, rest: string)
    requires HeaderShaped(p)
    ensures var t := Text(p) + rest;
            && t == Header(p) + (p.body + p.pad + rest)
            && |t| == 60 + |p.body| + |p.pad| + |rest| && t[..16] == p.name && t[16..28] == p.date
            && t[28..34] == p.uid && t[34..40] == p.gid && t[40..48] == p.mode && t[48..58] == p.size
            && t[60..60 + |p.body|] == p.body
  {
    var t, tail := Text(p) + rest, p.body + p.pad + rest;
    assert t == Header(p) + tail;
    HeaderParts(p, tail);
    assert t[60..60 + |p.body|] == t[60..][..|p.body|];
  }

  /** A complete section is read whole, whatever follows it. */
  lemma PartRead(p: Part, rest: string, names: string)
    requires Complete(p)
    ensures |Text(p) + rest| >= HEADER
    ensures ReadSection(Text(p) + rest, names)
            == if IsTable(p) then LongNames(p.body, TwoTables(names), |Text(p)|)
               else Element(MemberOf(p, names), FieldLog(p, names), |Text(p)|)
  {
    var t, tail := Text(p) + rest, p.body + p.pad + rest;
    TextParts(p, rest);
    HeaderKind(p, tail, names);
  }

  // ---------------------------------------------------------------- whole archives

  predicate AllComplete(parts: seq<Part>) {
    forall i :: 0 <= i < |parts| ==> Complete(parts[i])
  }

  function PartsText(parts: seq<Part>): string {
    if parts == [] then "" else Text(parts[0]) + PartsText(parts[1..])
  }

  function NamesAfter(parts: seq<Part>, names: string): string
    requires AllComplete(parts)
  {
    if parts == [] then names
    else NamesAfter(parts[1..], if IsTable(parts[0]) then parts[0].body else names)
  }

  /** The outcome of sections and what follows them: a member for each that is not a list of long
      names, and the complaints, in order. */
  function Behind(parts: seq<Part>, names: string, tail: Parsed): Parsed
    requires AllComplete(parts)
  {
    if parts == [] then tail
    else if IsTable(parts[0]) then Prepend([], TwoTables(names), Behind(parts[1..], parts[0].body, tail))
    else Prepend([MemberOf(parts[0], names)], FieldLog(parts[0], names), Behind(parts[1..], names, tail))
  }

  lemma FirstRead(p: Part, rest: string, names: string)
    requires Complete(p)
    ensures Sections(Text(p) + rest, names)
            == if IsTable(p) then Prepend([], TwoTables(names), Sections(rest, p.body))
               else Prepend([MemberOf(p, names)], FieldLog(p, names), Sections(rest, names))
  {
    var t := Text(p) + rest;
    PartRead(p, rest, names);
    assert t[|Text(p)|..] == rest;
    assert Sections(t, names) == Follow(ReadSection(t, names), t, names);
  }

  lemma {:induction false} PartsRead(parts: seq<Part>, rest: string, names: string)
    requires AllComplete(parts)
    ensures Sections(PartsText(parts) + rest, names)
            == Behind(parts, names, Sections(rest, NamesAfter(parts, names)))
    decreases |parts|
  {
    if parts == [] {
      assert PartsText(parts) + rest == rest;
    } else {
      var p, tail := parts[0], PartsText(parts[1..]) + rest;
      Associate(Text(p), PartsText(parts[1..]), rest);
      FirstRead(p, tail, names);
      PartsRead(parts[1..], rest, if IsTable(p) then p.body else names);
    }
  }

  lemma AfterMagic(body: string)
    requires body != ""
    ensures ParseText("!<arch>\n" + body) == Sections(body, "")
  {
    var str := "!<arch>\n" + body;
    assert str[..8] == "!<arch>\n" && str[8..] == body;
  }

  /** Complete sections behind the eight bytes of the magic are read, and what follows them decides
      the rest. */
  lemma ParseParts(parts: seq<Part>, rest: string)
    requires AllComplete(parts) && (parts != [] || rest != "")
    ensures ParseText("!<arch>\n" + (PartsText(parts) + rest))
            == Behind(parts, "", Sections(rest, NamesAfter(parts, "")))
  {
    AfterMagic(PartsText(parts) + rest);
    PartsRead(parts, rest, "");
  }

  function PartAt(rest: string, size: nat): Part
    requires |rest| >= 60 + size + size % 2
  {
    Part(rest[..16], rest[16..28], rest[28..34], rest[34..40], rest[40..48], rest[48..58],
         rest[60..60 + size], rest[60 + size..60 + size + size % 2])
  }

  lemma Slices(s: string, a: nat, b: nat, c: nat)
    requires a <= b <= c <= |s|
    ensures s[a..b] + s[b..c] == s[a..c]
  {
  }

  lemma HeaderJoined(rest: string)
    requires |rest| >= 60 && rest[58..60] == "`\n"
    ensures rest[..16] + (rest[16..28] + rest[28..34] + rest[34..40] + rest[40..48] + rest[48..58] + "`\n")
            == rest[..60]
  {
    Slices(rest, 16, 28, 34);
    Slices(rest, 16, 34, 40);
    Slices(rest, 16, 40, 48);
    Slices(rest, 16, 48, 58);
    Slices(rest, 16, 58, 60);
    Slices(rest, 0, 16, 60);
  }

  lemma PartAtIs(rest: string, size: nat)
    requires |rest| >= 60 + size + size % 2 && rest[58] == '`' && rest[59] == '\n'
    ensures HeaderShaped(PartAt(rest, size))
    ensures Text(PartAt(rest, size)) + rest[60 + size + size % 2..] == rest
    ensures Header(PartAt(rest, size)) + rest[60..] == rest
  {
    var p, end := PartAt(rest, size), 60 + size + size % 2;
    assert rest[58..60] == [rest[58], rest[59]];
    HeaderJoined(rest);
    assert Header(p) == rest[..60];
    Slices(rest, 60, 60 + size, end);
    assert Text(p) == rest[0..60] + rest[60..end];
    Slices(rest, 0, 60, end);
    Slices(rest, 0, end, |rest|);
    Slices(rest, 0, 60, |rest|);
  }

  /** A section that is read to its end was complete. */
  lemma ReadIsComplete(rest: string, names: string)
    requires |rest| >= HEADER && !ReadSection(rest, names).Stop? && ReadSection(rest, names).length <= |rest|
    ensures var size := ReadUint(rest[48..58], SizeField, 10).value;
            && size >= 0 && ReadSection(rest, names).length == 60 + size + size % 2
            && Complete(PartAt(rest, size))
  {
    var size := ReadUint(rest[48..58], SizeField, 10).value;
    PartAtIs(rest, size);
    HeaderKind(PartAt(rest, size), rest[60..], names);
  }

  function TableAfter(section: Section, names: string): string {
    if section.LongNames? then section.names else names
  }

  lemma FirstFound(rest: string, names: string) returns (p: Part, tail: string, next: string)
    requires Sections(rest, names).ok && rest != ""
    ensures Complete(p) && rest == Text(p) + tail && |tail| < |rest| && Sections(tail, next).ok
  {
    var section := ReadSection(rest, names);
    assert Sections(rest, names) == Follow(section, rest, names);
    ReadIsComplete(rest, names);
    var size := ReadUint(rest[48..58], SizeField, 10).value;
    PartAtIs(rest, size);
    p, tail, next := PartAt(rest, size), rest[section.length..], TableAfter(section, names);
  }

  lemma {:induction false} PartsFound(rest: string, names: string) returns (parts: seq<Part>)
    requires Sections(rest, names).ok
    ensures AllComplete(parts) && rest == PartsText(parts)
    decreases |rest|
  {
    if rest == "" {
      parts := [];
    } else {
      var p, tail, next := FirstFound(rest, names);
      var more := PartsFound(tail, next);
      parts := [p] + more;
      assert parts[1..] == more;
    }
  }

  ghost predicate IsArchive(str: string) {
    exists parts :: parts != [] && AllComplete(parts) && str == "!<arch>\n" + PartsText(parts)
  }

  /** Reading succeeds for exactly the texts that are the magic and at least one complete section. */
  lemma AcceptsExactly(str: string)
    ensures ParseText(str).ok <==> IsArchive(str)
  {
    if ParseText(str).ok {
      var parts := PartsFound(str[8..], "");
      assert str == str[..8] + str[8..];
    }
    if IsArchive(str) {
      var parts :| parts != [] && AllComplete(parts) && str == "!<arch>\n" + PartsText(parts);
      assert PartsText(parts) + "" == PartsText(parts);
      ParseParts(parts, "");
      BehindOk(parts, "", Parsed(true, [], []));
    }
  }

  lemma {:induction false} BehindOk(parts: seq<Part>, names: string, tail: Parsed)
    requires AllComplete(parts)
    ensures Behind(parts, names, tail).ok == tail.ok
    decreases |parts|
  {
    if parts != [] {
      BehindOk(parts[1..], if IsTable(parts[0]) then parts[0].body else names, tail);
    }
  }

  // ---------------------------------------------------------------- refusals

  /** The complaints a header itself causes. */
  function HeaderLog(p: Part, names: string): seq<Complaint>
    requires HeaderShaped(p)
  {
    if IsTable(p) then TwoTables(names) + ReadUint(p.size, SizeField, 10).log else FieldLog(p, names)
  }

  lemma NotMagic(str: string)
    requires |str| <= 8 || str[..8] != "!<arch>\n"
    ensures ParseText(str) == Parsed(false, [], [NotAnArchive])
  {
  }

  lemma StrayBytes(rest: string, names: string)
    requires 0 < |rest| < 60
    ensures Sections(rest, names) == Parsed(false, [], [TruncatedArchive])
  {
  }

  lemma NoHeaderMagic(rest: string, names: string)
    requires |rest| >= 60 && rest[58..60] != "`\n"
    ensures Sections(rest, names) == Parsed(false, [], [MissingMagic])
  {
    assert rest[58..60] == [rest[58], rest[59]];
    assert Sections(rest, names) == Follow(ReadSection(rest, names), rest, names);
  }

  /** The size is no number, or there is less than that. */
  lemma BodyMissing(p: Part, rest: string, names: string)
    requires HeaderShaped(p) && (SizeOf(p) < 0 || SizeOf(p) > |rest|)
    ensures Sections(Header(p) + rest, names) == Parsed(false, [], HeaderLog(p, names) + [TruncatedArchive])
  {
    var t := Header(p) + rest;
    HeaderParts(p, rest);
    HeaderKind(p, rest, names);
    assert Sections(t, names) == Follow(ReadSection(t, names), t, names);
  }

  /** The name in front of the data is longer than the body. */
  lemma NameTooLong(p: Part, rest: string, names: string)
    requires HeaderShaped(p) && 0 <= SizeOf(p) <= |rest| && !IsTable(p) && Inline(p) > SizeOf(p)
    ensures Sections(Header(p) + rest, names) == Parsed(false, [], HeaderLog(p, names) + [BadLongName])
  {
    var t := Header(p) + rest;
    HeaderParts(p, rest);
    HeaderKind(p, rest, names);
    assert Sections(t, names) == Follow(ReadSection(t, names), t, names);
  }

  /** An odd body at the end with nothing behind it: the member is there, but reading fails. */
  lemma PadMissing(p: Part, names: string)
    requires Complete(p) && p.pad != ""
    ensures Sections(Header(p) + p.body, names)
            == Parsed(false, if IsTable(p) then [] else [MemberOf(p, names)],
                      HeaderLog(p, names) + [TruncatedArchive])
  {
    var t := Header(p) + p.body;
    HeaderParts(p, p.body);
    HeaderKind(p, p.body, names);
    assert t[60..60 + |p.body|] == p.body;
    assert Sections(t, names) == Follow(ReadSection(t, names), t, names);
  }

  ghost predicate StartsComplete(rest: string) {
    exists p, tail :: Complete(p) && rest == Text(p) + tail
  }

  /** The header at the front of a text, with what stands behind it as the body. */
  function HeaderAt(rest: string): Part
    requires |rest| >= 60
  {
    Part(rest[..16], rest[16..28], rest[28..34], rest[34..40], rest[40..48], rest[48..58], rest[60..], "")
  }

  lemma HeaderAtIs(rest: string)
    requires |rest| >= 60 && rest[58..60] == "`\n"
    ensures HeaderShaped(HeaderAt(rest)) && Header(HeaderAt(rest)) + rest[60..] == rest
  {
    HeaderJoined(rest);
    assert Header(HeaderAt(rest)) == rest[..60];
    Slices(rest, 0, 60, |rest|);
  }

  /** A header whose size and name fit what is there, but which is not a complete section, is that of
      an odd body at the very end. */
  lemma OnlyPadMissing(rest: string)
    requires |rest| >= 60 && rest[58..60] == "`\n" && !StartsComplete(rest)
    requires var p := HeaderAt(rest); 0 <= SizeOf(p) <= |rest| - 60 && (!IsTable(p) ==> Inline(p) <= SizeOf(p))
    ensures SizeOf(HeaderAt(rest)) == |rest| - 60 && |rest| % 2 == 1
  {
    var size := SizeOf(HeaderAt(rest));
    if size + size % 2 <= |rest| - 60 {
      assert rest[58] == rest[58..60][0] && rest[59] == rest[58..60][1];
      PartAtIs(rest, size);
      assert Complete(PartAt(rest, size));
    }
  }

  /** How reading fails at a header that does not start a complete section: the size is no number or
      more than there is; a name in the body is longer than the body; or, after that member, an odd
      body has no byte behind it. */
  function StoppedAt(p: Part, names: string): Parsed
    requires HeaderShaped(p)
  {
    var padded := p.(pad := "\n");
    if !(0 <= SizeOf(p) <= |p.body|) then Parsed(false, [], HeaderLog(p, names) + [TruncatedArchive])
    else if !IsTable(p) && Inline(p) > SizeOf(p) then Parsed(false, [], HeaderLog(p, names) + [BadLongName])
    else Parsed(false, if !IsTable(p) && Complete(padded) then [MemberOf(padded, names)] else [],
                HeaderLog(p, names) + [TruncatedArchive])
  }

  lemma StoppedThere(rest: string, names: string)
    requires |rest| >= 60 && rest[58..60] == "`\n" && !StartsComplete(rest)
    ensures HeaderShaped(HeaderAt(rest)) && Sections(rest, names) == StoppedAt(HeaderAt(rest), names)
  {
    var p := HeaderAt(rest);
    HeaderAtIs(rest);
    if !(0 <= SizeOf(p) <= |rest| - 60) {
      BodyMissing(p, rest[60..], names);
    } else if !IsTable(p) && Inline(p) > SizeOf(p) {
      NameTooLong(p, rest[60..], names);
    } else {
      OnlyPadMissing(rest);
      PadMissing(p.(pad := "\n"), names);
    }
  }

  /** Where no complete section starts, and the text is not at its end, reading fails there: on bytes
      too few for a header, without its magic, or as `StoppedAt` says. */
  lemma RefusedExactly(rest: string, names: string)
    requires rest != "" && !StartsComplete(rest)
    ensures |rest| < 60 ==> Sections(rest, names) == Parsed(false, [], [TruncatedArchive])
    ensures |rest| >= 60 && rest[58..60] != "`\n" ==> Sections(rest, names) == Parsed(false, [], [MissingMagic])
    ensures |rest| >= 60 && rest[58..60] == "`\n" ==>
              HeaderShaped(HeaderAt(rest)) && Sections(rest, names) == StoppedAt(HeaderAt(rest), names)
  {
    if |rest| < 60 {
      StrayBytes(rest, names);
    } else if rest[58..60] != "`\n" {
      NoHeaderMagic(rest, names);
    } else {
      StoppedThere(rest, names);
    }
  }

  // ---------------------------------------------------------------- what is written

  predicate Long(kept: string) {
    |kept| > 14 || exists i :: 0 <= i < |kept| && Blank(kept[i])
  }

  lemma LongNeeded(kept: string)
    ensures Long(kept) <==> ArchiveWriter.NeedsLongName(kept)
  {
    AllKinds(10);
  }

  lemma SplitAt(s: string, x: string, y: string, c: char)
    requires s == x + y && c !in x && (y != "" ==> y[0] == c)
    ensures s[..Texts.IndexOf(s, c, 0)] == x
  {
    assert forall i :: 0 <= i < |x| ==> s[i] == x[i] && x[i] in x;
    assert y != "" ==> s[|x|] == c;
    assert Texts.IndexOf(s, c, 0) == |x|;
    assert s[..|x|] == x;
  }

  lemma HeaderLength(m: Member)
    requires ArchiveWriter.Writable(m)
    ensures |ArchiveWriter.MemberText(m)| >= 60
    ensures var text := ArchiveWriter.MemberText(m);
            text[..16] == ArchiveWriter.NameText(ArchiveWriter.Kept(m.name)) && text[60..] == ArchiveWriter.BodyText(m)
  {
    ArchiveWriter.NumberWidths(m);
    ArchiveWriter.NameWidth(ArchiveWriter.Kept(m.name));
  }

  /** How a name is written: `kept` is what stands in front of the first slash. Names over 14 bytes
      and names with a blank go in front of the data, others into the field up to a NUL. A body of
      odd length gets a newline. */
  lemma NameWritten(m: Member, kept: string, dropped: string, shown: string, hidden: string)
    requires ArchiveWriter.Writable(m) && m.name == kept + dropped && kept == shown + hidden
    requires '/' !in kept && (dropped != "" ==> dropped[0] == '/')
    requires '\0' !in shown && (hidden != "" ==> hidden[0] == '\0')
    ensures var text, body := ArchiveWriter.MemberText(m), (if Long(kept) then kept else "") + m.data;
            && |text| >= 60
            && text[..16] == (if Long(kept) then "#1/" + ArchiveWriter.Pad(Print(|kept|, 10), 13)
                              else ArchiveWriter.Pad(shown, 16))
            && text[60..] == body + if |body| % 2 == 1 then "\n" else ""
  {
    SplitAt(m.name, kept, dropped, '/');
    SplitAt(kept, shown, hidden, '\0');
    LongNeeded(kept);
    HeaderLength(m);
  }

  /** How the numbers are written: in decimal, the mode in octal, each in its own field; a date before
      1970 as the unsigned number with the same 32 bits. */
  lemma NumbersWritten(m: Member)
    requires ArchiveWriter.Writable(m)
    ensures var text := ArchiveWriter.MemberText(m);
            && |text| >= 60
            && text[16..28] == ArchiveWriter.Pad(Print(if m.date < 0 then m.date + 4294967296 else m.date, 10), 12)
            && text[28..34] == ArchiveWriter.Pad(Print(m.uid, 10), 6)
            && text[34..40] == ArchiveWriter.Pad(Print(m.gid, 10), 6)
            && text[40..48] == ArchiveWriter.Pad(Print(m.mode, 8), 8)
            && text[48..58] == ArchiveWriter.Pad(Print(ArchiveWriter.WrittenSize(m), 10), 10)
            && text[58..60] == "`\n"
  {
    var kept := ArchiveWriter.Kept(m.name);
    ArchiveWriter.NumberWidths(m);
    ArchiveWriter.NameWidth(kept);
    ArchiveWriter.HeaderSlices(ArchiveWriter.NameText(kept),
                               ArchiveWriter.Pad(Print(ArchiveWriter.Unsigned(m.date), 10), 12),
                               ArchiveWriter.Pad(Print(m.uid, 10), 6), ArchiveWriter.Pad(Print(m.gid, 10), 6),
                               ArchiveWriter.Pad(Print(m.mode, 8), 8),
                               ArchiveWriter.Pad(Print(ArchiveWriter.WrittenSize(m), 10), 10),
                               ArchiveWriter.BodyText(m));
  }
}
