/** Click's reader and writer for `ar` archives (`ArchiveElement::parse` and `unparse`).
    A string is a sequence of bytes, one `char` each. */
module Archive {
  import opened Digits

  const MAGIC := "!<arch>\n"
  const HEADER := 60

  datatype Member = Member(name: string, date: int, uid: int, gid: int, mode: int, data: string) {
    /** Only members with a name are written; the others have been killed. */
    predicate Live() {
      name != ""
    }
  }

  datatype Field = LongNameField | DateField | UidField | GidField | ModeField | SizeField

  datatype Complaint =
    | NotAnArchive
    | MissingMagic
    | TwoLongNameSections
    | TruncatedArchive
    | BadLongName
    | BadNumber(field: Field)
    | SlashInName(name: string)

  // ---------------------------------------------------------------- reading

  /** A number read from a header field, with the complaint (if any) it caused. */
  datatype Number = Number(value: int, log: seq<Complaint>)

  /** A field holds an integer that fills the field or is followed by white space. */
  function ReadUint(f: string, what: Field, base: nat): Number {
    var (end, x) := Integer(f, base);
    if end == 0 || (end < |f| && !IsSpace(f[end])) then Number(-1, [BadNumber(what)])
    else Number(x, [])
  }

  /** The first position from `i` on that holds a slash or white space. */
  function NameEnd(t: string, i: nat): (end: nat)
    requires i <= |t|
    ensures i <= end <= |t|
    ensures forall k :: i <= k < end ==> t[k] != '/' && !IsSpace(t[k])
    ensures end < |t| ==> t[end] == '/' || IsSpace(t[end])
    decreases |t| - i
  {
    if i == |t| || t[i] == '/' || IsSpace(t[i]) then i else NameEnd(t, i + 1)
  }

  /** What the 16-byte name field says: a name, or (when `inline > 0`) that the first
      `inline` bytes of the body are the name. */
  datatype NameField = NameField(name: string, inline: int, log: seq<Complaint>)

  function ReadName(h: string, names: string): NameField
    requires |h| == 16
  {
    if h[0] == '/' && IsDigit(h[1], 10) then
      var offset := ReadUint(h[1..], LongNameField, 10);
      if names == "" || offset.value < 0 || offset.value >= |names| then
        NameField("", 0, offset.log + [BadLongName])
      else
        NameField(names[offset.value..NameEnd(names, offset.value)], 0, offset.log)
    else if h[0] == '#' && h[1] == '1' && h[2] == '/' && IsDigit(h[3], 10) then
      var length := ReadUint(h[3..], LongNameField, 10);
      NameField("", length.value, length.log)
    else
      NameField(h[..NameEnd(h, 0)], 0, [])
  }

  /** One header with its body. `length` is the distance to the next header, one byte past
      the end of the input when an odd body is the last thing in it. */
  datatype Section =
    | Stop(log: seq<Complaint>)
    | LongNames(names: string, log: seq<Complaint>, length: nat)
    | Element(member: Member, log: seq<Complaint>, length: nat)

  /** Bodies are padded to an even number of bytes. */
  function Even(size: nat): nat {
    size + size % 2
  }

  function ReadLongNames(rest: string, names: string): Section
    requires |rest| >= HEADER
  {
    var twice := if names != "" then [TwoLongNameSections] else [];
    var size := ReadUint(rest[48..58], SizeField, 10);
    if size.value < 0 || HEADER + size.value > |rest| then Stop(twice + size.log + [TruncatedArchive])
    else LongNames(rest[HEADER..HEADER + size.value], twice + size.log, HEADER + Even(size.value))
  }

  function ReadElement(rest: string, names: string): Section
    requires |rest| >= HEADER
  {
    var name := ReadName(rest[..16], names);
    var date := ReadUint(rest[16..28], DateField, 10);
    var uid := ReadUint(rest[28..34], UidField, 10);
    var gid := ReadUint(rest[34..40], GidField, 10);
    var mode := ReadUint(rest[40..48], ModeField, 8);
    var size := ReadUint(rest[48..58], SizeField, 10);
    var log := name.log + date.log + uid.log + gid.log + mode.log + size.log;
    if size.value < 0 || HEADER + size.value > |rest| then Stop(log + [TruncatedArchive])
    else if name.inline > size.value then Stop(log + [BadLongName])
    else
      var body := rest[HEADER..HEADER + size.value];
      var split := if name.inline > 0 then name.inline else 0;
      var member := Member(if split > 0 then body[..split] else name.name,
                           date.value, uid.value, gid.value, mode.value, body[split..]);
      Element(member, log, HEADER + Even(size.value))
  }

  function ReadSection(rest: string, names: string): Section
    requires |rest| >= HEADER
  {
    if rest[58] != '`' || rest[59] != '\n' then Stop([MissingMagic])
    else if rest[0] == '/' && rest[1] == '/' && IsSpace(rest[2]) then ReadLongNames(rest, names)
    else ReadElement(rest, names)
  }

  /** The outcome of `parse`: whether it returned 0, the members it pushed (also those before
      an error), and everything it reported, in order. */
  datatype Parsed = Parsed(ok: bool, members: seq<Member>, log: seq<Complaint>)

  /** What the section just read adds to the outcome of the rest. */
  function Prepend(members: seq<Member>, log: seq<Complaint>, tail: Parsed): Parsed {
    Parsed(tail.ok, members + tail.members, log + tail.log)
  }

  /** Reading section after section from a position where a header is due. `names` is the
      body of the long-name section seen so far, empty if there was none. */
  function Sections(rest: string, names: string): Parsed
    decreases |rest|, 1
  {
    if |rest| < HEADER then
      if rest == "" then Parsed(true, [], []) else Parsed(false, [], [TruncatedArchive])
    else Follow(ReadSection(rest, names), rest, names)
  }

  function Follow(section: Section, rest: string, names: string): Parsed
    requires section.Stop? || section.length > 0
    decreases |rest|, 0
  {
    match section
    case Stop(log) => Parsed(false, [], log)
    case LongNames(found, log, length) =>
      Prepend([], log, if length > |rest| then PastEnd else Sections(rest[length..], found))
    case Element(member, log, length) =>
      Prepend([member], log, if length > |rest| then PastEnd else Sections(rest[length..], names))
  }

  /** A cursor one past the end: there is no header there, and it is not the end. */
  const PastEnd := Parsed(false, [], [TruncatedArchive])

  function ParseText(str: string): Parsed {
    if |str| <= 8 || str[..8] != MAGIC then Parsed(false, [], [NotAnArchive])
    else Sections(str[8..], "")
  }

  /** The name scan of `parse`: stop at a slash, at white space or at the end. */
  method ScanName(t: string, from: nat) returns (end: nat)
    requires from <= |t|
    ensures end == NameEnd(t, from)
  {
    end := from;
    while end < |t| && t[end] != '/' && !IsSpace(t[end])
      invariant from <= end <= |t|
      invariant NameEnd(t, end) == NameEnd(t, from)
    {
      end := end + 1;
    }
  }

  method ParseName(h: string, names: string) returns (f: NameField)
    requires |h| == 16
    ensures f == ReadName(h, names)
  {
    if h[0] == '/' && IsDigit(h[1], 10) {
      var offset := ReadUint(h[1..], LongNameField, 10);
      if names == "" || offset.value < 0 || offset.value >= |names| {
        f := NameField("", 0, offset.log + [BadLongName]);
      } else {
        var end := ScanName(names, offset.value);
        f := NameField(names[offset.value..end], 0, offset.log);
      }
    } else if h[0] == '#' && h[1] == '1' && h[2] == '/' && IsDigit(h[3], 10) {
      var length := ReadUint(h[3..], LongNameField, 10);
      f := NameField("", length.value, length.log);
    } else {
      var end := ScanName(h, 0);
      f := NameField(h[..end], 0, []);
    }
  }

  /** One turn of the loop of `parse` on the text from the cursor on. */
  method ParseSection(rest: string, names: string) returns (section: Section)
    requires |rest| >= HEADER
    ensures section == ReadSection(rest, names)
  {
    if rest[58] != '`' || rest[59] != '\n' {
      return Stop([MissingMagic]);
    }
    if rest[0] == '/' && rest[1] == '/' && IsSpace(rest[2]) {
      var twice := if names != "" then [TwoLongNameSections] else [];
      var size := ReadUint(rest[48..58], SizeField, 10);
      if size.value < 0 || HEADER + size.value > |rest| {
        return Stop(twice + size.log + [TruncatedArchive]);
      }
      return LongNames(rest[HEADER..HEADER + size.value], twice + size.log, HEADER + Even(size.value));
    }
    section := ParseElement(rest, names);
  }

  method ParseElement(rest: string, names: string) returns (section: Section)
    requires |rest| >= HEADER
    ensures section == ReadElement(rest, names)
  {
    var name := ParseName(rest[..16], names);
    var date := ReadUint(rest[16..28], DateField, 10);
    var uid := ReadUint(rest[28..34], UidField, 10);
    var gid := ReadUint(rest[34..40], GidField, 10);
    var mode := ReadUint(rest[40..48], ModeField, 8);
    var size := ReadUint(rest[48..58], SizeField, 10);
    var log := name.log + date.log + uid.log + gid.log + mode.log + size.log;
    if size.value < 0 || HEADER + size.value > |rest| {
      return Stop(log + [TruncatedArchive]);
    }
    if name.inline > 0 && size.value < name.inline {
      return Stop(log + [BadLongName]);
    }
    var body := rest[HEADER..HEADER + size.value];
    var member := Member(name.name, date.value, uid.value, gid.value, mode.value, body);
    if name.inline > 0 {
      member := member.(name := body[..name.inline], data := body[name.inline..]);
    }
    return Element(member, log, HEADER + Even(size.value));
  }

  /** What is still to come when the cursor of `parse` stands at `s`. */
  function Remaining(str: string, s: nat, names: string): Parsed {
    if s > |str| then PastEnd else Sections(str[s..], names)
  }

  lemma AdvanceStop(str: string, s: nat, names: string, complaints: seq<Complaint>)
    requires s + HEADER <= |str| && ReadSection(str[s..], names) == Stop(complaints)
    ensures Remaining(str, s, names) == Parsed(false, [], complaints)
  {
    assert Sections(str[s..], names) == Follow(Stop(complaints), str[s..], names);
  }

  lemma AdvanceNames(str: string, s: nat, names: string, found: string, complaints: seq<Complaint>, length: nat)
    requires s + HEADER <= |str| && ReadSection(str[s..], names) == LongNames(found, complaints, length)
    ensures 0 < length && s + length <= |str| + 1
    ensures Remaining(str, s, names) == Prepend([], complaints, Remaining(str, s + length, found))
  {
    assert Sections(str[s..], names) == Follow(LongNames(found, complaints, length), str[s..], names);
    if length <= |str| - s {
      assert str[s..][length..] == str[s + length..];
    }
  }

  lemma AdvanceElement(str: string, s: nat, names: string, member: Member, complaints: seq<Complaint>, length: nat)
    requires s + HEADER <= |str| && ReadSection(str[s..], names) == Element(member, complaints, length)
    ensures 0 < length && s + length <= |str| + 1
    ensures Remaining(str, s, names) == Prepend([member], complaints, Remaining(str, s + length, names))
  {
    assert Sections(str[s..], names) == Follow(Element(member, complaints, length), str[s..], names);
    if length <= |str| - s {
      assert str[s..][length..] == str[s + length..];
    }
  }

  lemma PrependTwice(m0: seq<Member>, l0: seq<Complaint>, m1: seq<Member>, l1: seq<Complaint>, tail: Parsed)
    ensures Prepend(m0, l0, Prepend(m1, l1, tail)) == Prepend(m0 + m1, l0 + l1, tail)
  {
    assert m0 + (m1 + tail.members) == m0 + m1 + tail.members;
    assert l0 + (l1 + tail.log) == l0 + l1 + tail.log;
  }

  /** `ArchiveElement::parse`: a cursor moves over the text section by section. Every access
      is in bounds for every input. */
  method Parse(str: string) returns (ok: bool, ar: seq<Member>, log: seq<Complaint>)
    ensures Parsed(ok, ar, log) == ParseText(str)
  {
    if |str| <= 8 || str[..8] != MAGIC {
      return false, [], [NotAnArchive];
    }
    ok, ar, log := ParseSections(str, 8);
  }

  /** Where the loop of `parse` stands: done with an error, or about to look at position `s`. */
  datatype Cursor = Failed | At(s: nat, names: string)

  ghost function Left(str: string, c: Cursor): Parsed {
    if c.Failed? then Parsed(false, [], []) else Remaining(str, c.s, c.names)
  }

  /** One turn of the loop. */
  method Turn(str: string, s: nat, names: string) returns (c: Cursor, found: seq<Member>, complaints: seq<Complaint>)
    requires s + HEADER <= |str|
    ensures c.At? ==> s < c.s <= |str| + 1
    ensures Remaining(str, s, names) == Prepend(found, complaints, Left(str, c))
  {
    var section := ParseSection(str[s..], names);
    match section {
      case Stop(log) =>
        AdvanceStop(str, s, names, log);
        return Failed, [], log;
      case LongNames(text, log, length) =>
        AdvanceNames(str, s, names, text, log, length);
        return At(s + length, text), [], log;
      case Element(member, log, length) =>
        AdvanceElement(str, s, names, member, log, length);
        return At(s + length, names), [member], log;
    }
  }

  /** The loop over the sections, from the cursor position `start`. */
  method ParseSections(str: string, start: nat) returns (ok: bool, ar: seq<Member>, log: seq<Complaint>)
    requires start <= |str|
    ensures Parsed(ok, ar, log) == Remaining(str, start, "")
  {
    ok, ar, log := false, [], [];
    var c := At(start, "");
    while c.At? && c.s + HEADER <= |str|
      invariant c.At? ==> c.s <= |str| + 1
      invariant Remaining(str, start, "") == Prepend(ar, log, Left(str, c))
      decreases c.At?, if c.At? then |str| - c.s else 0
    {
      var found, complaints;
      c, found, complaints := Turn(str, c.s, c.names);
      PrependTwice(ar, log, found, complaints, Left(str, c));
      ar, log := ar + found, log + complaints;
    }
    if c.At? {
      if c.s == |str| {
        ok := true;
      } else {
        log := log + [TruncatedArchive];
      }
    }
  }
}
