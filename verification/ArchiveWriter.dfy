/** `ArchiveElement::unparse`, and what reading its output back yields. */
module ArchiveWriter {
  import opened Digits
  import opened Archive
  import opened Sequences
  import opened Texts

  // ---------------------------------------------------------------- writing

  function Spaces(k: nat): string {
    seq(k, _ => ' ')
  }

  /** C's `%-<w>s`: left-justified, never truncated. */
  function Pad(s: string, w: nat): (r: string)
    ensures |s| <= w ==> |r| == w
    ensures s <= r
    ensures forall i :: |s| <= i < |r| ==> r[i] == ' '
  {
    if |s| >= w then s else s + Spaces(w - |s|)
  }

  /** The part of the name that is written: a slash ends it. */
  function Kept(name: string): string {
    name[..IndexOf(name, '/', 0)]
  }

  predicate HasSpace(s: string) {
    exists i :: 0 <= i < |s| && IsSpace(s[i])
  }

  /** Names with white space and names over 14 bytes go in front of the data. */
  predicate NeedsLongName(kept: string) {
    HasSpace(kept) || |kept| > 14
  }

  /** The cast from `int` to `unsigned`. */
  function Unsigned(x: int): nat
    requires INT_MIN <= x <= INT_MAX
  {
    if x < 0 then x + 0x1_0000_0000 else x
  }

  function WrittenSize(m: Member): nat {
    |m.data| + if NeedsLongName(Kept(m.name)) then |Kept(m.name)| else 0
  }

  /** The caller's obligation: dates are 32-bit integers, and the numbers printed into the
      owner, group and mode fields and the body size fit where `sprintf` puts them. */
  predicate Writable(m: Member) {
    && INT_MIN <= m.date <= INT_MAX
    && 0 <= m.uid < 1_000_000
    && 0 <= m.gid < 1_000_000
    && 0 <= m.mode < 0x100_0000
    && WrittenSize(m) <= INT_MAX
  }

  function NameText(kept: string): string {
    if NeedsLongName(kept) then "#1/" + Pad(Print(|kept|, 10), 13)
    else Pad(kept[..IndexOf(kept, '\0', 0)], 16)
  }

  function NumbersText(m: Member): string
    requires Writable(m)
  {
    Pad(Print(Unsigned(m.date), 10), 12) + Pad(Print(m.uid, 10), 6) + Pad(Print(m.gid, 10), 6)
    + Pad(Print(m.mode, 8), 8) + Pad(Print(WrittenSize(m), 10), 10) + "`\n"
  }

  function BodyText(m: Member): string {
    (if NeedsLongName(Kept(m.name)) then Kept(m.name) else "") + m.data
    + if WrittenSize(m) % 2 == 1 then "\n" else ""
  }

  function MemberText(m: Member): string
    requires Writable(m)
  {
    NameText(Kept(m.name)) + NumbersText(m) + BodyText(m)
  }

  function Living(ar: seq<Member>): (living: seq<Member>)
    ensures forall m :: m in living <==> m in ar && m.name != ""
    ensures (forall m :: m in ar ==> m.name != "") ==> living == ar
  {
    if ar == [] then []
    else if ar[0].Live() then [ar[0]] + Living(ar[1..]) else Living(ar[1..])
  }

  predicate AllWritable(ar: seq<Member>) {
    forall m :: m in ar && m.Live() ==> Writable(m)
  }

  function MembersText(ar: seq<Member>): string
    requires AllWritable(ar)
  {
    if ar == [] then ""
    else (if ar[0].Live() then MemberText(ar[0]) else "") + MembersText(ar[1..])
  }

  function UnparseText(ar: seq<Member>): string
    requires AllWritable(ar)
  {
    MAGIC + MembersText(ar)
  }

  function SlashLog(ar: seq<Member>): (log: seq<Complaint>)
    ensures forall c :: c in log <==> c.SlashInName? && '/' in c.name && exists m :: m in ar && m.name == c.name
    ensures (forall m :: m in ar ==> '/' in m.name) ==>
              |log| == |ar| && forall i :: 0 <= i < |ar| ==> log[i] == SlashInName(ar[i].name)
  {
    if ar == [] then []
    else (if '/' in ar[0].name then [SlashInName(ar[0].name)] else []) + SlashLog(ar[1..])
  }

  /** The loop over the name: find the slash that ends it and note white space before that. */
  method CheckName(name: string) returns (nlen: nat, mustLongname: bool)
    ensures nlen == |Kept(name)| && name[..nlen] == Kept(name)
    ensures mustLongname <==> HasSpace(Kept(name))
  {
    nlen, mustLongname := |name|, false;
    var i := 0;
    while i < |name|
      invariant 0 <= i <= |name| == nlen
      invariant IndexOf(name, '/', i) == IndexOf(name, '/', 0)
      invariant mustLongname <==> HasSpace(name[..i])
    {
      if name[i] == '/' {
        nlen := i;
        break;
      } else if IsSpace(name[i]) {
        mustLongname := true;
        assert IsSpace(name[..i + 1][i]);
      }
      assert name[..i + 1] == name[..i] + [name[i]];
      i := i + 1;
    }
    assert Kept(name) == name[..nlen];
  }

  method UnparseMember(m: Member) returns (text: string, wroteSize: nat)
    requires Writable(m)
    ensures text == MemberText(m) && wroteSize == WrittenSize(m)
  {
    var nlen, mustLongname := CheckName(m.name);
    var kept := m.name[..nlen];
    assert nlen >= 3 ==> kept[..3][2] == kept[2] && kept[2] != '/';
    if (nlen >= 3 && kept[..3] == "#1/") || mustLongname || nlen > 14 {
      text := "#1/" + Pad(Print(nlen, 10), 13);
      mustLongname := true;
    } else {
      text := Pad(kept[..IndexOf(kept, '\0', 0)], 16);
    }
    wroteSize := |m.data| + if mustLongname then nlen else 0;
    text := text + (Pad(Print(Unsigned(m.date), 10), 12) + Pad(Print(m.uid, 10), 6)
                    + Pad(Print(m.gid, 10), 6) + Pad(Print(m.mode, 8), 8)
                    + Pad(Print(wroteSize, 10), 10) + "`\n");
    text := text + ((if mustLongname then kept else "") + m.data
                    + if wroteSize % 2 == 1 then "\n" else "");
  }

  /** One turn of the loop of `unparse`: what it adds to the text and to the reports. */
  method UnparseTurn(ar: seq<Member>, i: nat) returns (piece: string, found: seq<Complaint>, size: nat)
    requires i < |ar| && AllWritable(ar[i..])
    ensures AllWritable(ar[i + 1..]) && size == |piece|
    ensures MembersText(ar[i..]) == piece + MembersText(ar[i + 1..])
    ensures SlashLog(Living(ar[i..])) == found + SlashLog(Living(ar[i + 1..]))
  {
    assert ar[i..][0] == ar[i] && ar[i..][1..] == ar[i + 1..];
    piece, found, size := "", [], 0;
    if !ar[i].Live() {
      return;
    }
    assert Living(ar[i..])[1..] == Living(ar[i + 1..]);
    if '/' in ar[i].name {
      found := [SlashInName(ar[i].name)];
    }
    var wroteSize;
    piece, wroteSize := UnparseMember(ar[i]);
    MemberTextLength(ar[i]);
    size := 60 + wroteSize;
    if wroteSize % 2 == 1 {
      size := size + 1;
    }
  }

  /** `ArchiveElement::unparse`. `wantSize` counts the bytes that ought to have been written. */
  method Unparse(ar: seq<Member>) returns (text: string, log: seq<Complaint>)
    requires AllWritable(ar)
    ensures text == UnparseText(ar)
    ensures log == SlashLog(Living(ar))
  {
    text, log := MAGIC, [];
    var wantSize := 8;
    var i := 0;
    assert ar[0..] == ar;
    while i < |ar|
      invariant 0 <= i <= |ar|
      invariant AllWritable(ar[i..])
      invariant text + MembersText(ar[i..]) == UnparseText(ar)
      invariant log + SlashLog(Living(ar[i..])) == SlashLog(Living(ar))
      invariant wantSize == |text|
    {
      var piece, found, size := UnparseTurn(ar, i);
      Associate(text, piece, MembersText(ar[i + 1..]));
      Associate(log, found, SlashLog(Living(ar[i + 1..])));
      text, log, wantSize := text + piece, log + found, wantSize + size;
      i := i + 1;
    }
    assert wantSize == |text|;
  }

  // ---------------------------------------------------------------- reading back

  lemma ReadPadded(n: nat, base: nat, w: nat, what: Field)
    requires base == 8 || base == 10
    requires |Print(n, base)| <= w
    ensures ReadUint(Pad(Print(n, base), w), what, base) == Number(Saturate(n, false), [])
  {
    var p := Print(n, base);
    var rest := Pad(p, w)[|p|..];
    assert Pad(p, w) == p + rest;
    IntegerOfPrint(n, base, rest);
  }

  lemma NumberWidths(m: Member)
    requires Writable(m)
    ensures |Print(Unsigned(m.date), 10)| <= 12
    ensures |Print(m.uid, 10)| <= 6 && |Print(m.gid, 10)| <= 6
    ensures |Print(m.mode, 8)| <= 8
    ensures |Print(WrittenSize(m), 10)| <= 10
    ensures |Print(|Kept(m.name)|, 10)| <= 13 || !NeedsLongName(Kept(m.name))
  {
    PrintFits(Unsigned(m.date), 10, 12);
    PrintFits(m.uid, 10, 6);
    PrintFits(m.gid, 10, 6);
    PrintFits(m.mode, 8, 8);
    PrintFits(WrittenSize(m), 10, 10);
    if NeedsLongName(Kept(m.name)) {
      PrintFits(|Kept(m.name)|, 10, 13);
    }
  }

  lemma NameWidth(kept: string)
    requires NeedsLongName(kept) ==> |Print(|kept|, 10)| <= 13
    ensures |NameText(kept)| == 16
  {
  }

  lemma MemberTextLength(m: Member)
    requires Writable(m)
    ensures |MemberText(m)| == HEADER + Even(WrittenSize(m))
  {
    NumberWidths(m);
    NameWidth(Kept(m.name));
  }

  /** Where the parts of a header are. */
  lemma HeaderSlices(name: string, date: string, uid: string, gid: string, mode: string, size: string, rest: string)
    requires |name| == 16 && |date| == 12 && |uid| == 6 && |gid| == 6 && |mode| == 8 && |size| == 10
    ensures var t := name + (date + uid + gid + mode + size + "`\n") + rest;
            && |t| == HEADER + |rest|
            && t[..16] == name && t[16..28] == date && t[28..34] == uid && t[34..40] == gid
            && t[40..48] == mode && t[48..58] == size && t[58] == '`' && t[59] == '\n' && t[HEADER..] == rest
  {
  }

  /** The member that reading the written form of `m` yields: the name ends at a slash, and,
      in a short name, at a NUL byte; a date before 1970 comes back as the largest one. */
  function ReadBack(m: Member): Member {
    var kept := Kept(m.name);
    m.(name := if NeedsLongName(kept) then kept else kept[..IndexOf(kept, '\0', 0)],
       date := if m.date < 0 then INT_MAX else m.date)
  }

  lemma ReadShortName(kept: string, names: string)
    requires '/' !in kept && !NeedsLongName(kept)
    ensures ReadName(NameText(kept), names) == NameField(kept[..IndexOf(kept, '\0', 0)], 0, [])
  {
    var short := kept[..IndexOf(kept, '\0', 0)];
    var h := NameText(kept);
    assert forall i :: 0 <= i < |h| ==> h[i] == (if i < |short| then short[i] else ' ');
    assert forall i :: 0 <= i < |short| ==> short[i] == kept[i] && short[i] in kept && !IsSpace(kept[i]);
    assert forall i :: 0 <= i < |short| ==> h[i] != '/' && !IsSpace(h[i]);
    assert |short| < |h| && IsSpace(h[|short|]);
    assert NameEnd(h, 0) == |short|;
    assert h[..|short|] == short;
  }

  lemma ReadLongName(kept: string, names: string)
    requires NeedsLongName(kept) && |kept| <= INT_MAX && |Print(|kept|, 10)| <= 13
    ensures ReadName(NameText(kept), names) == NameField("", |kept|, [])
  {
    var h := NameText(kept);
    assert h[3..] == Pad(Print(|kept|, 10), 13);
    assert IsDigit(h[3..][0], 10);
    ReadPadded(|kept|, 10, 13, LongNameField);
  }

  /** `t` starts with a header whose numbers read without complaint. */
  ghost predicate Fields(t: string, date: int, uid: int, gid: int, mode: int, size: nat) {
    && |t| >= HEADER + size && t[58] == '`' && t[59] == '\n'
    && ReadUint(t[16..28], DateField, 10) == Number(date, [])
    && ReadUint(t[28..34], UidField, 10) == Number(uid, [])
    && ReadUint(t[34..40], GidField, 10) == Number(gid, [])
    && ReadUint(t[40..48], ModeField, 8) == Number(mode, [])
    && ReadUint(t[48..58], SizeField, 10) == Number(size, [])
  }

  /** `t` starts with a header and body that say what `unparse` writes for `m`. */
  ghost predicate Says(t: string, m: Member)
    requires Writable(m)
  {
    var size := WrittenSize(m);
    var front := if NeedsLongName(Kept(m.name)) then |Kept(m.name)| else 0;
    && Fields(t, Saturate(Unsigned(m.date), false), m.uid, m.gid, m.mode, size)
    && t[..16] == NameText(Kept(m.name))
    && t[HEADER..HEADER + size][..front] == Kept(m.name)[..front]
    && t[HEADER..HEADER + size][front..] == m.data
  }

  lemma MemberTextSays(m: Member, rest: string)
    requires Writable(m)
    ensures Says(MemberText(m) + rest, m)
  {
    NumberWidths(m);
    NameWidth(Kept(m.name));
    assert MemberText(m) + rest == NameText(Kept(m.name)) + NumbersText(m) + (BodyText(m) + rest);
    HeaderSlices(NameText(Kept(m.name)), Pad(Print(Unsigned(m.date), 10), 12), Pad(Print(m.uid, 10), 6),
                 Pad(Print(m.gid, 10), 6), Pad(Print(m.mode, 8), 8), Pad(Print(WrittenSize(m), 10), 10),
                 BodyText(m) + rest);
    ReadPadded(Unsigned(m.date), 10, 12, DateField);
    ReadPadded(m.uid, 10, 6, UidField);
    ReadPadded(m.gid, 10, 6, GidField);
    ReadPadded(m.mode, 8, 8, ModeField);
    ReadPadded(WrittenSize(m), 10, 10, SizeField);
    BodySlice(MemberText(m) + rest, m, rest);
  }

  lemma BodySlice(t: string, m: Member, rest: string)
    requires |t| >= HEADER && t[HEADER..] == BodyText(m) + rest
    ensures |t| >= HEADER + WrittenSize(m)
    ensures t[HEADER..HEADER + WrittenSize(m)]
         == (if NeedsLongName(Kept(m.name)) then Kept(m.name) else "") + m.data
  {
    assert t[HEADER..HEADER + WrittenSize(m)] == t[HEADER..][..WrittenSize(m)];
  }

  /** The name field of a written member is not mistaken for a long-name section, and it is
      read as the kept name or as the length of the name in front of the data. */
  lemma ReadNameText(m: Member, names: string)
    requires Writable(m)
    ensures var kept := Kept(m.name);
            && |NameText(kept)| == 16 && NameText(kept)[0] != '/'
            && ReadName(NameText(kept), names) ==
                if NeedsLongName(kept) then NameField("", |kept|, [])
                else NameField(kept[..IndexOf(kept, '\0', 0)], 0, [])
  {
    var kept := Kept(m.name);
    NumberWidths(m);
    NameWidth(kept);
    assert '/' !in kept;
    if NeedsLongName(kept) {
      ReadLongName(kept, names);
    } else {
      ReadShortName(kept, names);
    }
  }

  /** A header whose fields all read without complaint, and its body, make one element. */
  lemma AssembleElement(t: string, names: string, name: NameField,
                        date: int, uid: int, gid: int, mode: int, size: nat, body: string, member: Member)
    requires Fields(t, date, uid, gid, mode, size) && t[0] != '/'
    requires ReadName(t[..16], names) == name && name.log == [] && 0 <= name.inline <= size
    requires body == t[HEADER..HEADER + size]
    requires member == Member(if name.inline > 0 then body[..name.inline] else name.name,
                              date, uid, gid, mode, body[name.inline..])
    ensures ReadSection(t, names) == Element(member, [], HEADER + Even(size))
  {
  }

  /** What the name field of a written member says. */
  function HeaderName(m: Member): NameField {
    var kept := Kept(m.name);
    if NeedsLongName(kept) then NameField("", |kept|, []) else NameField(kept[..IndexOf(kept, '\0', 0)], 0, [])
  }

  lemma SaysName(t: string, m: Member, names: string)
    requires Writable(m) && Says(t, m)
    ensures t[0] != '/' && ReadName(t[..16], names) == HeaderName(m) && HeaderName(m).log == []
  {
    ReadNameText(m, names);
    assert t[0] == t[..16][0];
  }

  lemma SaysBody(t: string, m: Member)
    requires Writable(m) && Says(t, m)
    ensures var name, body := HeaderName(m), t[HEADER..HEADER + WrittenSize(m)];
            && 0 <= name.inline <= WrittenSize(m)
            && ReadBack(m) == Member(if name.inline > 0 then body[..name.inline] else name.name,
                                     Saturate(Unsigned(m.date), false), m.uid, m.gid, m.mode, body[name.inline..])
  {
  }

  lemma ReadSaid(t: string, m: Member, names: string, date: int, size: nat, member: Member)
    requires Writable(m) && Says(t, m)
    requires date == Saturate(Unsigned(m.date), false) && size == WrittenSize(m) && member == ReadBack(m)
    ensures ReadSection(t, names) == Element(member, [], HEADER + Even(size))
  {
    SaysName(t, m, names);
    SaysBody(t, m);
    AssembleElement(t, names, HeaderName(m), date, m.uid, m.gid, m.mode, size, t[HEADER..HEADER + size], member);
  }

  /** The heart of the matter: whatever follows it in the archive, and whatever long-name
      section came before, a written member is read back as one section, without complaint,
      and the cursor lands right behind it. */
  lemma ReadMember(m: Member, rest: string, names: string)
    requires Writable(m)
    ensures ReadSection(MemberText(m) + rest, names) == Element(ReadBack(m), [], |MemberText(m)|)
  {
    MemberTextSays(m, rest);
    MemberTextLength(m);
    ReadSaid(MemberText(m) + rest, m, names, Saturate(Unsigned(m.date), false), WrittenSize(m), ReadBack(m));
  }

  lemma SectionsStep(t: string, names: string, member: Member, length: nat)
    requires |t| >= HEADER && 0 < length <= |t|
    requires ReadSection(t, names) == Element(member, [], length)
    ensures Sections(t, names) == Prepend([member], [], Sections(t[length..], names))
  {
    assert Sections(t, names) == Follow(ReadSection(t, names), t, names);
  }

  function ReadBackAll(ar: seq<Member>): seq<Member> {
    seq(|ar|, i requires 0 <= i < |ar| => ReadBack(ar[i]))
  }

  lemma {:induction false} ReadMembers(ar: seq<Member>, names: string)
    requires AllWritable(ar)
    ensures Sections(MembersText(ar), names) == Parsed(true, ReadBackAll(Living(ar)), [])
  {
    if ar != [] {
      ReadMembers(ar[1..], names);
      if ar[0].Live() {
        ReadFirst(ar[0], MembersText(ar[1..]), names);
        ReadBackCons(ar[0], Living(ar[1..]));
        PrependEmptyLog(ReadBack(ar[0]), ReadBackAll(Living(ar[1..])));
      } else {
        assert MembersText(ar) == MembersText(ar[1..]);
      }
    }
  }

  lemma ReadBackCons(m: Member, ar: seq<Member>)
    ensures ReadBackAll([m] + ar) == [ReadBack(m)] + ReadBackAll(ar)
  {
  }

  lemma PrependEmptyLog(m: Member, members: seq<Member>)
    ensures Prepend([m], [], Parsed(true, members, [])) == Parsed(true, [m] + members, [])
  {
  }

  lemma ReadFirst(m: Member, rest: string, names: string)
    requires Writable(m)
    ensures Sections(MemberText(m) + rest, names) == Prepend([ReadBack(m)], [], Sections(rest, names))
  {
    var text := MemberText(m);
    ReadMember(m, rest, names);
    MemberTextLength(m);
    assert (text + rest)[|text|..] == rest;
    SectionsStep(text + rest, names, ReadBack(m), |text|);
  }

  /** Reading back any archive the writer can write, exactly: the living members in order, each
      as `ReadBack` says, and no complaint. An archive without living members is refused. */
  lemma ParseUnparse(ar: seq<Member>)
    requires AllWritable(ar)
    ensures ParseText(UnparseText(ar)) ==
            if Living(ar) == [] then Parsed(false, [], [NotAnArchive])
            else Parsed(true, ReadBackAll(Living(ar)), [])
  {
    var t := UnparseText(ar);
    assert t[..8] == MAGIC && t[8..] == MembersText(ar);
    ReadMembers(ar, "");
    MembersTextEmpty(ar);
  }

  lemma {:induction false} MembersTextEmpty(ar: seq<Member>)
    requires AllWritable(ar)
    ensures MembersText(ar) == "" <==> Living(ar) == []
  {
    if ar != [] {
      MembersTextEmpty(ar[1..]);
      if ar[0].Live() {
        MemberTextLength(ar[0]);
      }
    }
  }

  /** A member survives the round trip unchanged. */
  predicate Faithful(m: Member) {
    && m.date >= 0
    && '/' !in m.name
    && ('\0' !in m.name || NeedsLongName(m.name))
  }

  lemma ReadBackFaithful(m: Member)
    requires INT_MIN <= m.date <= INT_MAX
    ensures ReadBack(m) == m <==> Faithful(m)
  {
    var kept := Kept(m.name);
    if '/' in m.name {
      assert |kept| < |m.name|;
    } else {
      assert kept == m.name;
      if '\0' in m.name {
        assert |kept[..IndexOf(kept, '\0', 0)]| < |m.name|;
      }
    }
  }

  /** The round trip, as an if-and-only-if: `parse(unparse(ar))` succeeds with exactly the
      living members of `ar` when there is one and each is faithful, and never otherwise. */
  lemma RoundTrip(ar: seq<Member>)
    requires AllWritable(ar)
    ensures ParseText(UnparseText(ar)) == Parsed(true, Living(ar), [])
       <==> Living(ar) != [] && forall m :: m in Living(ar) ==> Faithful(m)
  {
    ParseUnparse(ar);
    LivingWritable(ar);
    var l := Living(ar);
    forall i | 0 <= i < |l|
      ensures ReadBackAll(l)[i] == l[i] <==> Faithful(l[i])
    {
      assert l[i] in l;
      ReadBackFaithful(l[i]);
    }
    if forall m :: m in l ==> Faithful(m) {
      assert ReadBackAll(l) == l;
    } else {
      var m :| m in l && !Faithful(m);
      var i :| 0 <= i < |l| && l[i] == m;
      assert ReadBackAll(l)[i] != l[i];
    }
  }

  lemma {:induction false} LivingWritable(ar: seq<Member>)
    requires AllWritable(ar)
    ensures forall m :: m in Living(ar) ==> Writable(m)
  {
    if ar != [] {
      LivingWritable(ar[1..]);
    }
  }

  // ---------------------------------------------------------------- names in a long-name section

  /** The body of a long-name section as GNU `ar` writes it: each name ends with a slash and a
      newline. */
  function NameTable(names: seq<string>): string {
    if names == [] then "" else names[0] + ("/\n" + NameTable(names[1..]))
  }

  function NameOffset(names: seq<string>, k: nat): nat
    requires k <= |names|
  {
    |NameTable(names[..k])|
  }

  lemma {:induction false} NameInTable(names: seq<string>, k: nat)
    requires k < |names|
    ensures var o, n := NameOffset(names, k), |names[k]|;
            var table := NameTable(names);
            o + n < |table| && table[o..o + n] == names[k] && table[o + n] == '/'
    decreases k
  {
    var table := NameTable(names);
    if k == 0 {
      assert names[..0] == [];
      assert table[0..|names[0]|] == names[0];
    } else {
      NameInTable(names[1..], k - 1);
      assert names[..k][1..] == names[1..][..k - 1];
      var more, skip := NameTable(names[1..]), |names[0]| + 2;
      assert table[skip..] == more;
      var o, n := NameOffset(names[1..], k - 1), |names[k]|;
      assert table[skip + o..skip + o + n] == more[o..o + n] && table[skip + o + n] == more[o + n];
    }
  }

  predicate Plain(name: string) {
    forall i :: 0 <= i < |name| ==> name[i] != '/' && !IsSpace(name[i])
  }

  lemma NameEndAt(t: string, i: nat, name: string)
    requires i + |name| < |t| && t[i..i + |name|] == name && t[i + |name|] == '/' && Plain(name)
    ensures NameEnd(t, i) == i + |name|
  {
    forall k | i <= k < i + |name| ensures t[k] != '/' && !IsSpace(t[k]) {
      assert t[k] == name[k - i];
    }
  }

  /** A header that refers to a name by its offset in the long-name section is read as that name. */
  lemma ReadTableName(names: seq<string>, k: nat)
    requires k < |names| && Plain(names[k]) && |NameTable(names)| <= INT_MAX
    ensures var h := "/" + Pad(Print(NameOffset(names, k), 10), 15);
            |h| == 16 && ReadName(h, NameTable(names)) == NameField(names[k], 0, [])
  {
    var o, table := NameOffset(names, k), NameTable(names);
    NameInTable(names, k);
    NameEndAt(table, o, names[k]);
    PrintFits(o, 10, 10);
    ReadPadded(o, 10, 15, LongNameField);
    var h := "/" + Pad(Print(o, 10), 15);
    assert h[1..] == Pad(Print(o, 10), 15) && IsDigit(h[1..][0], 10);
  }

  /** A long-name section is read whole, whatever stands in the fields that are not used; a second
      one is reported and replaces the first. */
  lemma ReadNameSection(table: string, filler: string, rest: string, names: string)
    requires |table| <= INT_MAX && |filler| == 46 && IsSpace(filler[0])
    ensures var t := "//" + filler + Pad(Print(|table|, 10), 10) + "`\n" + table + rest;
            && |t| >= HEADER
            && ReadSection(t, names) ==
               LongNames(table, if names != "" then [TwoLongNameSections] else [], HEADER + Even(|table|))
  {
    PrintFits(|table|, 10, 10);
    ReadPadded(|table|, 10, 10, SizeField);
    var size := Pad(Print(|table|, 10), 10);
    NameSectionSlices(filler, size, table, rest);
  }

  lemma NameSectionSlices(filler: string, size: string, table: string, rest: string)
    requires |filler| == 46 && |size| == 10
    ensures var t := "//" + filler + size + "`\n" + table + rest;
            && |t| == HEADER + |table| + |rest| && t[0] == '/' && t[1] == '/' && t[2] == filler[0]
            && t[48..58] == size && t[58] == '`' && t[59] == '\n' && t[HEADER..HEADER + |table|] == table
  {
  }
}
