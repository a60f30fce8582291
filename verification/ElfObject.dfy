/**
 * What the scanners' verdict means: a writer of object files that it reads back, the exact
 * condition for accepting a file, and what a build with overflow checks changes.
 */
module ElfObject {
  import opened Bytes
  import opened ElfScan
  import opened Wrappers

  // ---------------------------------------------------------------------------------------------
  // Writing an object file
  // ---------------------------------------------------------------------------------------------

  function Le16(n: half): (b: seq<byte>)
    ensures |b| == 2
  {
    [n % 0x100, n / 0x100]
  }

  function Le32(n: nat): (b: seq<byte>)
    ensures |b| == 4
  {
    [n % 0x100, n / 0x100 % 0x100, n / 0x1_0000 % 0x100, n / 0x100_0000 % 0x100]
  }

  function Le64(n: word): (b: seq<byte>)
    ensures |b| == 8
  {
    Le32(n % 0x1_0000_0000) + Le32(n / 0x1_0000_0000)
  }

  function Zeros(n: nat): (b: seq<byte>)
    ensures |b| == n
  {
    seq(n, _ => 0)
  }

  /** One entry of the section table: name, type, flags, address, offset, size, and the rest. */
  function EntryBytes(h: RawHeader): (b: seq<byte>)
    ensures |b| == 64
  {
    Le32(h.name) + Le32(h.kind) + Zeros(8) + Le64(h.addr) + Le64(h.off) + Le64(h.size) + Zeros(24)
  }

  function FileHeader(t: TableHeader): (b: seq<byte>)
    ensures |b| == 64
  {
    [0x7F, 0x45, 0x4C, 0x46, 2, 1] + Zeros(34) + Le64(t.off) + Zeros(10) + Le16(t.entry) + Le16(t.count) + Le16(t.names)
  }

  function NameTable(name: seq<byte>): (t: seq<byte>)
    ensures |t| == |name| + 9
  {
    name + [0] + Ascii("license") + [0]
  }

  datatype Parts = Parts(name: seq<byte>, insns: seq<byte>, license: seq<byte>) {
    /** What the file format can hold and the loader takes: a program section, a text license. */
    predicate Valid() {
      && RoleOf(name).Code? && 0 !in name && Utf8(name) && |name| < 0x1_0000
      && insns != [] && |insns| % 8 == 0 && |insns| <= MAX_PROGRAM
      && license != [] && license[|license| - 1] != 0 && Utf8(license) && |license| < 0x1_0000_0000
    }

    function Table(): nat {
      64 + |insns| + |license| + |NameTable(name)|
    }

    function NamesHeader(): RawHeader
      requires Valid()
    {
      RawHeader(0, 3, 0, 64 + |insns| + |license|, |NameTable(name)|)
    }

    function ProgramHeader(): RawHeader
      requires Valid()
    {
      RawHeader(0, 1, 0, 64, |insns|)
    }

    function LicenseHeader(): RawHeader
      requires Valid()
    {
      RawHeader(|name| + 1, 1, 0, 64 + |insns|, |license|)
    }

    /** The layout: file header, program, license, section names, section table. */
    function Bytes(): (b: seq<byte>)
      requires Valid()
      ensures |b| == Table() + 192
    {
      FileHeader(TableHeader(Table(), 64, 3, 0)) + insns + license + NameTable(name)
      + EntryBytes(NamesHeader()) + EntryBytes(ProgramHeader()) + EntryBytes(LicenseHeader())
    }
  }

  // ---------------------------------------------------------------------------------------------
  // Reading it back
  // ---------------------------------------------------------------------------------------------

  lemma Le32RoundTrip(n: nat)
    requires n < 0x1_0000_0000
    ensures U32(Le32(n)) == n
  {
  }

  lemma Le64RoundTrip(n: word)
    ensures U32(Le64(n)[..4]) + 0x1_0000_0000 * U32(Le64(n)[4..]) == n
  {
    var low, high := n % 0x1_0000_0000, n / 0x1_0000_0000;
    Le32RoundTrip(low);
    Le32RoundTrip(high);
    assert Le64(n)[..4] == Le32(low) && Le64(n)[4..] == Le32(high);
  }

  lemma ReadsU64(data: seq<byte>, at: word, n: word, checked: bool)
    requires at + 8 <= |data| < WORD && data[at..at + 8] == Le64(n)
    ensures ReadU64(data, at, checked) == Value(n)
  {
    Le64RoundTrip(n);
  }

  lemma ReadsU32(data: seq<byte>, at: word, n: nat, checked: bool)
    requires n < 0x1_0000_0000
    requires at + 4 <= |data| < WORD && data[at..at + 4] == Le32(n)
    ensures ReadU32(data, at, checked) == Value(n)
  {
    Le32RoundTrip(n);
  }

  lemma ReadsU16(data: seq<byte>, at: word, n: half, checked: bool)
    requires at + 2 <= |data| < WORD && data[at..at + 2] == Le16(n)
    ensures ReadU16(data, at, checked) == Value(n)
  {
  }

  lemma EntryFields(h: RawHeader)
    ensures var b := EntryBytes(h);
      && b[0..4] == Le32(h.name) && b[4..8] == Le32(h.kind) && b[16..24] == Le64(h.addr)
      && b[24..32] == Le64(h.off) && b[32..40] == Le64(h.size)
  {
  }

  lemma Inside(data: seq<byte>, at: nat, b: seq<byte>, from: nat, to: nat)
    requires at + |b| <= |data| && data[at..at + |b|] == b && from <= to <= |b|
    ensures data[at + from..at + to] == b[from..to]
  {
    forall k | 0 <= k < to - from ensures data[at + from..at + to][k] == b[from..to][k] {
      assert data[at..at + |b|][from + k] == data[at + from + k];
    }
  }

  /** An entry written at `at` is read back field by field. */
  lemma HeaderReads(data: seq<byte>, at: word, h: RawHeader, checked: bool)
    requires h.name < 0x1_0000_0000 && h.kind < 0x1_0000_0000
    requires at + 64 <= |data| < WORD && data[at..at + 64] == EntryBytes(h)
    ensures HeaderAt(data, at, checked) == Value(h)
  {
    hide EntryBytes, ReadU64, ReadU32, Le32, Le64;
    EntryFields(h);
    var b := EntryBytes(h);
    Inside(data, at, b, 0, 4);
    Inside(data, at, b, 4, 8);
    Inside(data, at, b, 16, 24);
    Inside(data, at, b, 24, 32);
    Inside(data, at, b, 32, 40);
    ReadsU32(data, at, h.name, checked);
    ReadsU32(data, at + 4, h.kind, checked);
    ReadsU64(data, at + 16, h.addr, checked);
    ReadsU64(data, at + 24, h.off, checked);
    ReadsU64(data, at + 32, h.size, checked);
  }

  lemma FileHeaderFields(t: TableHeader)
    ensures var b := FileHeader(t);
      && b[0..4] == [0x7F, 0x45, 0x4C, 0x46] && b[4] == 2 && b[5] == 1
      && b[40..48] == Le64(t.off) && b[58..60] == Le16(t.entry)
      && b[60..62] == Le16(t.count) && b[62..64] == Le16(t.names)
  {
  }

  lemma Locates(data: seq<byte>, t: TableHeader)
    requires 64 <= |data| < WORD && data[..64] == FileHeader(t) && t.off != 0 && t.count != 0
    ensures Locate(data) == Value(t)
  {
    hide FileHeader, ReadU64, ReadU16, Le64, Le16;
    FileHeaderFields(t);
    var b := FileHeader(t);
    assert data[0..0 + |b|] == b;
    assert data[4] == b[4] && data[5] == b[5];
    Inside(data, 0, b, 0, 4);
    Inside(data, 0, b, 40, 48);
    Inside(data, 0, b, 58, 60);
    Inside(data, 0, b, 60, 62);
    Inside(data, 0, b, 62, 64);
    ReadsU64(data, 40, t.off, true);
    ReadsU16(data, 58, t.entry, true);
    ReadsU16(data, 60, t.count, true);
    ReadsU16(data, 62, t.names, true);
  }

  lemma {:induction false} StopsAtNul(a: seq<byte>, rest: seq<byte>)
    requires 0 !in a
    ensures UpToNul(a + [0] + rest) == a
  {
    var b := a + [0] + rest;
    if a != [] {
      assert b[0] == a[0] && a[0] in a;
      assert b[1..] == a[1..] + [0] + rest;
      StopsAtNul(a[1..], rest);
      assert [a[0]] + a[1..] == a;
    }
  }

  lemma {:induction false} AsciiIsUtf8(b: seq<byte>)
    requires forall i | 0 <= i < |b| :: b[i] < 128
    ensures Utf8(b)
  {
    if b != [] {
      AsciiIsUtf8(b[1..]);
    }
  }

  lemma FirstName(name: seq<byte>)
    requires 0 !in name && Utf8(name)
    ensures NameAt(NameTable(name), 0) == Value(name)
  {
    hide Utf8, UpToNul;
    assert NameTable(name)[0..] == name + [0] + (Ascii("license") + [0]);
    StopsAtNul(name, Ascii("license") + [0]);
  }

  lemma SecondName(name: seq<byte>)
    requires |name| < 0x1_0000
    ensures NameAt(NameTable(name), |name| + 1) == Value(Ascii("license"))
  {
    hide Utf8, UpToNul;
    var license := Ascii("license");
    assert NameTable(name)[|name| + 1..] == license + [0] + [];
    assert 0 !in license;
    StopsAtNul(license, []);
    AsciiIsUtf8(license);
  }

  lemma NoTrim(b: seq<byte>)
    requires b != [] && b[|b| - 1] != 0
    ensures TrimNuls(b) == b
  {
  }

  /** The pieces of a written object are where its headers say. */
  lemma Layout(p: Parts)
    requires p.Valid()
    ensures var b := p.Bytes(); var n := |p.insns|; var l := |p.license|; var t := p.Table();
      && b[..64] == FileHeader(TableHeader(t, 64, 3, 0))
      && b[64..64 + n] == p.insns
      && b[64 + n..64 + n + l] == p.license
      && b[64 + n + l..t] == NameTable(p.name)
      && b[t..t + 64] == EntryBytes(p.NamesHeader())
      && b[t + 64..t + 128] == EntryBytes(p.ProgramHeader())
      && b[t + 128..t + 192] == EntryBytes(p.LicenseHeader())
  {
    hide FileHeader, EntryBytes, NameTable, RoleOf, Utf8, Parts.NamesHeader, Parts.ProgramHeader, Parts.LicenseHeader;
  }

  /** Names are the first section, so the string table is read through entry 0. */
  lemma NamesFound(p: Parts, checked: bool)
    requires p.Valid()
    ensures
      var t := TableHeader(p.Table(), 64, 3, 0);
      SectionData(p.Bytes(), t, 0, checked) == Value(NameTable(p.name))
  {
    hide ReadU64, EntryBytes, NameTable, FileHeader, RoleOf, Le64;
    var data, t := p.Bytes(), p.Table();
    Layout(p);
    var h := p.NamesHeader();
    EntryFields(h);
    Inside(data, t, EntryBytes(h), 24, 32);
    Inside(data, t, EntryBytes(h), 32, 40);
    ReadsU64(data, t + 24, h.off, checked);
    ReadsU64(data, t + 32, h.size, checked);
    NamesSlice(data, TableHeader(t, 64, 3, 0), h.off, h.size, checked);
  }

  lemma NamesSlice(data: seq<byte>, t: TableHeader, off: word, size: word, checked: bool)
    requires t.off + 40 < WORD && off + size <= |data| < WORD
    requires ReadU64(data, t.off + 24, checked) == Value(off) && ReadU64(data, t.off + 32, checked) == Value(size)
    ensures SectionData(data, t, 0, checked) == Value(data[off..off + size])
  {
    hide ReadU64;
    assert EntryOffset(0, t.entry) == 0;
  }

  lemma EntriesFound(p: Parts, checked: bool)
    requires p.Valid()
    ensures
      var t := TableHeader(p.Table(), 64, 3, 0);
      && EntryAt(p.Bytes(), t, NameTable(p.name), 0, checked) == Value(Skip)
      && EntryAt(p.Bytes(), t, NameTable(p.name), 1, checked) == Value(Use(Section(RoleOf(p.name), 64, |p.insns|)))
      && EntryAt(p.Bytes(), t, NameTable(p.name), 2, checked)
         == Value(Use(Section(License, 64 + |p.insns|, |p.license|)))
  {
    hide HeaderAt, EntryBytes, NameTable, NameAt, FileHeader, IsBpfProgSection, InferProgType, Utf8;
    var data, t := p.Bytes(), p.Table();
    Layout(p);
    HeaderReads(data, t, p.NamesHeader(), checked);
    HeaderReads(data, t + 64, p.ProgramHeader(), checked);
    HeaderReads(data, t + 128, p.LicenseHeader(), checked);
    FirstName(p.name);
    SecondName(p.name);
    assert EntryOffset(0, 64) == 0 && EntryOffset(1, 64) == 64 && EntryOffset(2, 64) == 128;
  }

  lemma SectionsFound(p: Parts, checked: bool)
    requires p.Valid()
    ensures
      var t := TableHeader(p.Table(), 64, 3, 0);
      Sections(p.Bytes(), t, NameTable(p.name), 0, checked)
      == Value([Section(RoleOf(p.name), 64, |p.insns|), Section(License, 64 + |p.insns|, |p.license|)])
  {
    hide EntryAt, Sections, NameTable, RoleOf, Utf8, Parts.Bytes;
    EntriesFound(p, checked);
    ThreeEntries(p.Bytes(), TableHeader(p.Table(), 64, 3, 0), NameTable(p.name), checked,
                 Section(RoleOf(p.name), 64, |p.insns|), Section(License, 64 + |p.insns|, |p.license|));
  }

  lemma ThreeEntries(
    data: seq<byte>, t: TableHeader, names: seq<byte>, checked: bool, first: Section, second: Section)
    requires t.count == 3
    requires EntryAt(data, t, names, 0, checked) == Value(Skip)
    requires EntryAt(data, t, names, 1, checked) == Value(Use(first))
    requires EntryAt(data, t, names, 2, checked) == Value(Use(second))
    ensures Sections(data, t, names, 0, checked) == Value([first, second])
  {
    hide EntryAt;
    ListsUse(data, t, names, 2, checked, second);
    ListsUse(data, t, names, 1, checked, first);
    assert [second] + [] == [second] && [first] + [second] == [first, second];
  }

  lemma ListsUse(data: seq<byte>, t: TableHeader, names: seq<byte>, i: nat, checked: bool, s: Section)
    requires i < t.count && EntryAt(data, t, names, i, checked) == Value(Use(s))
    ensures Sections(data, t, names, i, checked) == Prepend([s], Sections(data, t, names, i + 1, checked))
  {
    hide EntryAt;
  }

  lemma LicenseReads(p: Parts, program: Section, license: Section)
    requires p.Valid() && license == Section(License, 64 + |p.insns|, |p.license|)
    ensures LicenseOf([program, license], p.Bytes()) == p.license
  {
    hide NameTable, RoleOf, Utf8, TrimNuls, EntryBytes, FileHeader;
    Layout(p);
    NoTrim(p.license);
    assert [program, license][1] == license;
  }

  lemma NothingOverflows(ss: seq<Section>, data: seq<byte>)
    requires forall k | 0 <= k < |ss| :: InFile(ss[k], data)
    ensures !EndOverflows(ss, data)
  {
  }

  lemma Picks(p: Parts, checked: bool)
    requires p.Valid()
    ensures
      Pick([Section(RoleOf(p.name), 64, |p.insns|), Section(License, 64 + |p.insns|, |p.license|)], p.Bytes(), checked)
      == Value(Loaded(p.insns, p.license, RoleOf(p.name).hint))
  {
    hide NameTable, RoleOf, Utf8, Chosen, TrimNuls, EntryBytes, FileHeader, LicenseOf, EndOverflows;
    Layout(p);
    var program, license := Section(RoleOf(p.name), 64, |p.insns|), Section(License, 64 + |p.insns|, |p.license|);
    ChosenIs([program, license], p.Bytes(), 0);
    LicenseReads(p, program, license);
    NothingOverflows([program, license], p.Bytes());
  }

  /** Whatever program and license are written to an object file, the scanners read back. */
  lemma ObjectRoundTrip(p: Parts, checked: bool)
    requires p.Valid()
    ensures Verdict(p.Bytes(), checked) == Value(Loaded(p.insns, p.license, InferProgType(p.name)))
  {
    hide Locate, SectionData, Sections, Pick, NameTable, FileHeader, EntryBytes, IsBpfProgSection, InferProgType, Utf8;
    Layout(p);
    Locates(p.Bytes(), TableHeader(p.Table(), 64, 3, 0));
    NamesFound(p, checked);
    SectionsFound(p, checked);
    Picks(p, checked);
  }

  // ---------------------------------------------------------------------------------------------
  // When a file is accepted
  // ---------------------------------------------------------------------------------------------

  /** The sections a scan sees, for a file whose header and name table are in order. */
  function Listed(data: seq<byte>, checked: bool): Outcome<seq<Section>> {
    var t :- Locate(data);
    var names :- SectionData(data, t, t.names, checked);
    Sections(data, t, names, 0, checked)
  }

  /** Section `k` is the first candidate in the file, and a whole number of instructions within the limit. */
  predicate Fits(ss: seq<Section>, data: seq<byte>, k: nat) {
    Holds(ss, data, k) && ss[k].size % 8 == 0 && 0 < ss[k].size <= MAX_PROGRAM
  }

  /** The verdict on a file with the sections `ss`. */
  function Judge(ss: seq<Section>, data: seq<byte>, checked: bool): Outcome<Loaded> {
    var loaded :- Pick(ss, data, checked);
    var _ :- SizeCheck(loaded.insns);
    Value(loaded)
  }

  lemma JudgeAccepts(ss: seq<Section>, data: seq<byte>, checked: bool, k: nat)
    requires Fits(ss, data, k) && !(checked && EndOverflows(ss, data))
    ensures Judge(ss, data, checked) == Value(Loaded(Contents(ss[k], data), LicenseOf(ss, data), ss[k].role.hint))
  {
    hide EndOverflows, LicenseOf, Chosen;
    ChosenIs(ss, data, k);
  }

  lemma JudgeNeeds(ss: seq<Section>, data: seq<byte>, checked: bool)
    requires Judge(ss, data, checked).Value?
    ensures !(checked && EndOverflows(ss, data)) && Fits(ss, data, Chosen(ss, data))
  {
    hide EndOverflows, LicenseOf;
  }

  /**
   * A file is accepted exactly when its sections can be listed without a panic and the first
   * candidate section in the file is a whole number of instructions within the limit.
   */
  lemma AcceptedExactlyWhen(data: seq<byte>, checked: bool)
    ensures Verdict(data, checked).Value? <==>
      && Listed(data, checked).Value?
      && !(checked && EndOverflows(Listed(data, checked).value, data))
      && exists k :: Fits(Listed(data, checked).value, data, k)
  {
    hide Verdict, Listed, Judge, Fits, EndOverflows, Chosen;
    VerdictFromList(data, checked);
    var listed := Listed(data, checked);
    if listed.Value? {
      if Judge(listed.value, data, checked).Value? {
        JudgeNeeds(listed.value, data, checked);
      }
      forall k: nat | Fits(listed.value, data, k) && !(checked && EndOverflows(listed.value, data))
        ensures Judge(listed.value, data, checked).Value?
      {
        JudgeAccepts(listed.value, data, checked, k);
      }
    }
  }

  /** An accepted file's program is the first candidate section in it, and its license the last license section's. */
  lemma AcceptedProgram(data: seq<byte>, checked: bool, k: nat)
    requires Verdict(data, checked).Value? && Listed(data, checked).Value? && Holds(Listed(data, checked).value, data, k)
    ensures
      var ss := Listed(data, checked).value;
      Verdict(data, checked).value == Loaded(Contents(ss[k], data), LicenseOf(ss, data), ss[k].role.hint)
  {
    hide Verdict, Listed, Judge, EndOverflows, LicenseOf, Chosen;
    VerdictFromList(data, checked);
    var ss := Listed(data, checked).value;
    JudgeNeeds(ss, data, checked);
    ChosenIs(ss, data, k);
    JudgeAccepts(ss, data, checked, k);
  }

  lemma VerdictFromList(data: seq<byte>, checked: bool)
    ensures Verdict(data, checked) ==
      var ss :- Listed(data, checked);
      Judge(ss, data, checked)
  {
    hide Locate, SectionData, Sections, Pick, SizeCheck;
  }

  lemma UsedIsNotEmpty(data: seq<byte>, t: TableHeader, names: seq<byte>, i: half, checked: bool, s: Section)
    requires EntryAt(data, t, names, i, checked) == Value(Use(s))
    ensures s.size > 0
  {
    hide HeaderAt, NameAt, RoleOf, Plus, EntryOffset;
  }

  predicate NoneEmpty(ss: seq<Section>) {
    forall k | 0 <= k < |ss| :: ss[k].size > 0
  }

  lemma {:induction false} ListedAreNotEmpty(
    data: seq<byte>, t: TableHeader, names: seq<byte>, i: nat, checked: bool)
    requires i <= t.count
    ensures Sections(data, t, names, i, checked).Value? ==> NoneEmpty(Sections(data, t, names, i, checked).value)
    decreases t.count - i
  {
    hide EntryAt;
    if i < t.count {
      ListedAreNotEmpty(data, t, names, i + 1, checked);
      match EntryAt(data, t, names, i, checked)
      case Value(Use(s)) => UsedIsNotEmpty(data, t, names, i, checked, s);
      case _ =>
    }
  }

  /** The check for an empty program can never fire: an empty section is skipped before. */
  lemma EmptyProgramIsNeverReported(data: seq<byte>, checked: bool)
    ensures Verdict(data, checked) != Rejected(EmptyProgram)
  {
    hide Locate, SectionData, Sections, EndOverflows, LicenseOf, Chosen;
    FaultsBefore(data);
    var t := Locate(data);
    if t.Value? {
      var names := SectionData(data, t.value, t.value.names, checked);
      NamesFault(data, t.value, t.value.names, checked);
      if names.Value? {
        ListedAreNotEmpty(data, t.value, names.value, 0, checked);
        SectionsNeverReject(data, t.value, names.value, 0, checked);
      }
    }
  }

  lemma FaultsBefore(data: seq<byte>)
    ensures Locate(data) != Rejected(EmptyProgram)
  {
    hide Get, U32;
  }

  lemma NamesFault(data: seq<byte>, t: TableHeader, index: half, checked: bool)
    ensures SectionData(data, t, index, checked) != Rejected(EmptyProgram)
  {
    hide U32;
  }

  // ---------------------------------------------------------------------------------------------
  // What overflow checks change
  // ---------------------------------------------------------------------------------------------

  /** The checked outcome is a panic, or the same as the unchecked one. */
  ghost predicate OnlyPanics<T>(withChecks: Outcome<T>, without: Outcome<T>) {
    withChecks.Panicked? || withChecks == without
  }

  lemma HeaderChecks(data: seq<byte>, at: word)
    ensures OnlyPanics(HeaderAt(data, at, true), HeaderAt(data, at, false))
  {
    hide Get, U32;
  }

  lemma EntryChecks(data: seq<byte>, t: TableHeader, names: seq<byte>, i: half)
    ensures OnlyPanics(EntryAt(data, t, names, i, true), EntryAt(data, t, names, i, false))
  {
    hide HeaderAt, NameAt, RoleOf;
    var at := Plus(t.off, EntryOffset(i, t.entry), false);
    HeaderChecks(data, at.Extract());
  }

  lemma {:induction false} SectionsChecks(data: seq<byte>, t: TableHeader, names: seq<byte>, i: nat)
    requires i <= t.count
    ensures OnlyPanics(Sections(data, t, names, i, true), Sections(data, t, names, i, false))
    decreases t.count - i
  {
    hide EntryAt;
    if i < t.count {
      EntryChecks(data, t, names, i);
      SectionsChecks(data, t, names, i + 1);
    }
  }

  lemma NamesChecks(data: seq<byte>, t: TableHeader, index: half)
    ensures OnlyPanics(SectionData(data, t, index, true), SectionData(data, t, index, false))
  {
    hide U32;
  }

  /** Building with overflow checks turns some verdicts into panics and changes nothing else. */
  lemma ChecksOnlyAddPanics(data: seq<byte>)
    ensures Verdict(data, true).Panicked? || Verdict(data, true) == Verdict(data, false)
  {
    hide Locate, SectionData, Sections, EndOverflows, LicenseOf, Chosen, Contents;
    var t := Locate(data);
    if t.Value? {
      NamesChecks(data, t.value, t.value.names);
      var names := SectionData(data, t.value, t.value.names, true);
      if names.Value? {
        SectionsChecks(data, t.value, names.value, 0);
      }
    }
  }

  // ---------------------------------------------------------------------------------------------
  // What each rejection means
  // ---------------------------------------------------------------------------------------------

  predicate ZeroAt(data: seq<byte>, at: nat, count: nat) {
    at + count <= |data| ==> forall i | at <= i < at + count :: data[i] == 0
  }

  lemma Reads8(data: seq<byte>, at: nat)
    requires at + 8 < WORD
    ensures ReadU64(data, at, true).Value?
    ensures ReadU64(data, at, true) == Value(0) <==> ZeroAt(data, at, 8)
  {
    if at + 8 <= |data| {
      var b := data[at..at + 8];
      assert forall i | 0 <= i < 8 :: b[i] == data[at + i];
      Zero4(b[..4]);
      Zero4(b[4..]);
      assert forall i | at <= i < at + 8 :: data[i] == b[i - at];
    }
  }

  lemma Zero4(b: seq<byte>)
    requires |b| == 4
    ensures U32(b) == 0 <==> b[0] == 0 && b[1] == 0 && b[2] == 0 && b[3] == 0
  {
  }

  lemma Reads2(data: seq<byte>, at: nat)
    requires at + 2 < WORD
    ensures ReadU16(data, at, true).Value?
    ensures ReadU16(data, at, true) == Value(0) <==> ZeroAt(data, at, 2)
  {
    if at + 2 <= |data| {
      var b := data[at..at + 2];
      assert b[0] == data[at] && b[1] == data[at + 1];
    }
  }

  /** The five rejections that the file header alone decides, each on its bytes. */
  lemma HeaderFaultsExactly(data: seq<byte>)
    ensures Locate(data) == Rejected(TooSmall) <==> |data| < 16
    ensures |data| >= 16 ==>
              var magic := data[0] == 0x7F && data[1] == 0x45 && data[2] == 0x4C && data[3] == 0x46;
              && (Locate(data) == Rejected(NotElf) <==> !magic)
              && (Locate(data) == Rejected(Not64Bit) <==> magic && data[4] != 2)
              && (Locate(data) == Rejected(NotLittleEndian) <==> magic && data[4] == 2 && data[5] != 1)
              && (Locate(data) == Rejected(NoSectionHeaders) <==>
                    magic && data[4] == 2 && data[5] == 1 && (ZeroAt(data, 40, 8) || ZeroAt(data, 60, 2)))
  {
    Reads8(data, 40);
    Reads2(data, 58);
    Reads2(data, 60);
    Reads2(data, 62);
    if |data| >= 16 {
      assert data[0..4] == [data[0], data[1], data[2], data[3]];
    }
    hide ReadU64, ReadU16;
  }

  lemma JudgeOn(ss: seq<Section>, data: seq<byte>, checked: bool, k: nat)
    requires Holds(ss, data, k) && !(checked && EndOverflows(ss, data)) && ss[k].size > 0
    ensures var v := Judge(ss, data, checked);
            && (v == Rejected(RaggedProgram) <==> ss[k].size % 8 != 0)
            && (v == Rejected(OversizedProgram) <==> ss[k].size % 8 == 0 && ss[k].size > 4194304)
            && (v.Value? <==> ss[k].size % 8 == 0 && ss[k].size <= 4194304)
            && v != Rejected(NoProgram)
  {
    ChosenIs(ss, data, k);
    hide EndOverflows, LicenseOf, Chosen;
    assert |Contents(ss[k], data)| == ss[k].size;
  }

  lemma JudgeNone(ss: seq<Section>, data: seq<byte>, checked: bool)
    requires !(checked && EndOverflows(ss, data))
    requires forall k | 0 <= k < |ss| :: !(ss[k].role.Code? && InFile(ss[k], data))
    ensures Judge(ss, data, checked) == Rejected(NoProgram)
  {
    ChosenIs(ss, data, |ss|);
    hide EndOverflows, LicenseOf, Chosen;
  }

  /** The verdict on a file whose sections can be listed and taken: without a candidate in the file
      there is no program; the first candidate is refused if it is not a whole number of 8-byte
      instructions, then if it is over 4 MiB. */
  lemma ProgramFaultsExactly(data: seq<byte>, checked: bool)
    requires Listed(data, checked).Value? && !(checked && EndOverflows(Listed(data, checked).value, data))
    ensures var ss, v := Listed(data, checked).value, Verdict(data, checked);
            if forall k | 0 <= k < |ss| :: !(ss[k].role.Code? && InFile(ss[k], data)) then v == Rejected(NoProgram)
            else exists k: nat | Holds(ss, data, k) ::
              && (v == Rejected(RaggedProgram) <==> ss[k].size % 8 != 0)
              && (v == Rejected(OversizedProgram) <==> ss[k].size % 8 == 0 && ss[k].size > 4194304)
              && (v.Value? <==> ss[k].size % 8 == 0 && ss[k].size <= 4194304)
              && v != Rejected(NoProgram)
  {
    VerdictFromList(data, checked);
    var ss := Listed(data, checked).value;
    SectionsOfListed(data, checked);
    hide Verdict, Listed, Judge, EndOverflows;
    if forall k | 0 <= k < |ss| :: !(ss[k].role.Code? && InFile(ss[k], data)) {
      JudgeNone(ss, data, checked);
    } else {
      var k := Chosen(ss, data);
      hide Chosen;
      JudgeOn(ss, data, checked, k);
    }
  }

  lemma SectionsOfListed(data: seq<byte>, checked: bool)
    requires Listed(data, checked).Value?
    ensures NoneEmpty(Listed(data, checked).value)
  {
    hide Locate, SectionData, Sections;
    var t := Locate(data).value;
    var names := SectionData(data, t, t.names, checked).value;
    ListedAreNotEmpty(data, t, names, 0, checked);
  }

  /** A table entry that lies in the file is used exactly when its bytes say PROGBITS, address zero,
      and an offset and a size other than zero; it is skipped otherwise. */
  lemma EntryUsedExactly(data: seq<byte>, t: TableHeader, names: seq<byte>, i: half, checked: bool)
    requires t.entry >= 64 && t.off + i * t.entry + t.entry <= |data| < WORD
    ensures var at := t.off + i * t.entry;
            var e := EntryAt(data, t, names, i, checked);
            && (e == Value(Skip) <==>
                  !(data[at + 4] == 1 && data[at + 5] == 0 && data[at + 6] == 0 && data[at + 7] == 0
                    && ZeroAt(data, at + 16, 8) && !ZeroAt(data, at + 24, 8) && !ZeroAt(data, at + 32, 8)))
            && e != Value(End)
  {
    var at := t.off + i * t.entry;
    EntryOffsetFits(i, t.entry);
    HeaderBytes(data, at, checked);
    hide HeaderAt, NameAt, RoleOf, ZeroAt;
  }

  lemma HeaderBytes(data: seq<byte>, at: nat, checked: bool)
    requires at + 64 <= |data| < WORD
    ensures var h := HeaderAt(data, at, checked);
            && h.Value?
            && (h.value.kind == 1 <==> data[at + 4] == 1 && data[at + 5] == 0 && data[at + 6] == 0 && data[at + 7] == 0)
            && (h.value.addr == 0 <==> ZeroAt(data, at + 16, 8))
            && (h.value.off == 0 <==> ZeroAt(data, at + 24, 8))
            && (h.value.size == 0 <==> ZeroAt(data, at + 32, 8))
  {
    Reads8(data, at + 16);
    Reads8(data, at + 24);
    Reads8(data, at + 32);
    Unchecked8(data, at + 16, checked);
    Unchecked8(data, at + 24, checked);
    Unchecked8(data, at + 32, checked);
    Reads4(data, at, checked);
    Reads4(data, at + 4, checked);
    OneIs(data[at + 4..at + 8]);
    hide ReadU64, ReadU32, ZeroAt, U32;
  }

  lemma Unchecked8(data: seq<byte>, at: nat, checked: bool)
    requires at + 8 < WORD
    ensures ReadU64(data, at, checked) == ReadU64(data, at, true)
  {
  }

  lemma Reads4(data: seq<byte>, at: nat, checked: bool)
    requires at + 4 <= |data| < WORD
    ensures ReadU32(data, at, checked) == Value(U32(data[at..at + 4]))
  {
  }

  lemma OneIs(b: seq<byte>)
    requires |b| == 4
    ensures U32(b) == 1 <==> b[0] == 1 && b[1] == 0 && b[2] == 0 && b[3] == 0
  {
  }

  lemma PrefixInAscii(prefix: string, name: string)
    requires prefix <= name
    ensures Ascii(prefix) <= Ascii(name)
  {
  }

  /** What the section names of common programs make of a section: the license, traffic control,
      tracepoints and probes. */
  lemma KnownLicense()
    ensures RoleOf(Ascii("license")) == License
  {
  }

  lemma KnownTrafficControl()
    ensures RoleOf(Ascii("tc/ingress")) == RoleOf(Ascii("classifier")) == RoleOf(Ascii("action")) == Code(SchedCls)
  {
    PrefixInAscii("tc", "tc/ingress");
    assert Ascii("tc/ingress")[0] != Ascii("license")[0];
    assert Ascii("classifier")[0] != Ascii("license")[0] && Ascii("action")[0] != Ascii("license")[0];
  }

  lemma KnownTracepoint()
    ensures RoleOf(Ascii("tracepoint/syscalls")) == Code(Tracepoint)
  {
    PrefixInAscii("tracepoint/", "tracepoint/syscalls");
    var name := Ascii("tracepoint/syscalls");
    assert name[0] != Ascii("license")[0] && name[1] != Ascii("tc")[1];
    assert name[0] != Ascii("classifier")[0] && name[0] != Ascii("action")[0];
  }

  lemma KnownProbes()
    ensures RoleOf(Ascii("kprobe/do_open")) == RoleOf(Ascii("kretprobe/do_open")) == Code(Kprobe)
  {
    PrefixInAscii("kprobe/", "kprobe/do_open");
    PrefixInAscii("kretprobe/", "kretprobe/do_open");
    ProbeName(Ascii("kprobe/do_open"));
    ProbeName(Ascii("kretprobe/do_open"));
  }

  lemma NoHint(name: seq<byte>)
    requires name != [] && name[0] !in {0x61, 0x63, 0x6B, 0x74}
    ensures InferProgType(name) == Unspecified
  {
    assert Ascii("tc")[0] == 0x74 && Ascii("tracepoint/")[0] == 0x74 && Ascii("tracepoint")[0] == 0x74;
    assert Ascii("classifier")[0] == 0x63 && Ascii("action")[0] == 0x61;
    assert Ascii("kprobe/")[0] == 0x6B && Ascii("kretprobe/")[0] == 0x6B && Ascii("kprobe")[0] == 0x6B;
  }

  /** Programs without a hint: XDP, message and socket programs, raw tracepoints, plain text. */
  lemma KnownWithoutHint()
    ensures RoleOf(Ascii("xdp_drop")) == RoleOf(Ascii("sk_msg")) == RoleOf(Ascii("sockops")) == Code(Unspecified)
    ensures RoleOf(Ascii("raw_tracepoint")) == RoleOf(Ascii(".text")) == Code(Unspecified)
  {
    PrefixInAscii("xdp", "xdp_drop");
    NoHint(Ascii("xdp_drop"));
    NoHint(Ascii("sk_msg"));
    NoHint(Ascii("sockops"));
    NoHint(Ascii("raw_tracepoint"));
    NoHint(Ascii(".text"));
    var l := Ascii("license")[0];
    assert Ascii("xdp_drop")[0] != l && Ascii("sk_msg")[0] != l && Ascii("sockops")[0] != l;
    assert Ascii("raw_tracepoint")[0] != l && Ascii(".text")[0] != l;
    hide InferProgType;
  }

  /** A name that starts as no program's does is passed over, such as "maps" and "version". */
  lemma OthersIgnored(name: seq<byte>)
    requires name == [] || name[0] !in {0x2E, 0x61, 0x63, 0x6B, 0x6C, 0x72, 0x73, 0x74, 0x78}
    ensures RoleOf(name) == Ignored
  {
    assert Ascii("license")[0] == 0x6C && Ascii("classifier")[0] == 0x63 && Ascii(".text")[0] == 0x2E;
    assert Ascii("action")[0] == 0x61 && Ascii("xdp")[0] == 0x78 && Ascii("kprobe")[0] == 0x6B;
    assert Ascii("kretprobe")[0] == 0x6B && Ascii("tracepoint")[0] == 0x74 && Ascii("raw_tracepoint")[0] == 0x72;
    assert Ascii("sockops")[0] == 0x73 && Ascii("cgroup/connect4")[0] == 0x63 && Ascii("cgroup/connect6")[0] == 0x63;
    assert Ascii("tc")[0] == 0x74 && Ascii("tracepoint/")[0] == 0x74 && Ascii("kprobe/")[0] == 0x6B;
    assert Ascii("kretprobe/")[0] == 0x6B && Ascii("cgroup/")[0] == 0x63 && Ascii("sk_msg")[0] == 0x73;
  }

  lemma ProbeName(name: seq<byte>)
    requires name != [] && name[0] == 0x6B
    ensures name != Ascii("license") && name != Ascii("classifier") && name != Ascii("action") && name != Ascii("tracepoint")
    ensures !(Ascii("tc") <= name) && !(Ascii("tracepoint/") <= name)
  {
    assert Ascii("license")[0] == 0x6C && Ascii("classifier")[0] == 0x63 && Ascii("action")[0] == 0x61;
    assert Ascii("tc")[0] == 0x74 && Ascii("tracepoint/")[0] == 0x74 && Ascii("tracepoint")[0] == 0x74;
  }

  lemma {:induction false} NoLicense(ss: seq<Section>, data: seq<byte>)
    requires forall k | 0 <= k < |ss| :: !ss[k].role.License?
    ensures LicenseOf(ss, data) == [0x47, 0x50, 0x4C]
  {
    hide LicenseText;
    if ss == [] {
      assert Ascii("GPL") == [0x47, 0x50, 0x4C];
    } else {
      NoLicense(ss[..|ss| - 1], data);
    }
  }

  /** The license is the text of the last license section; when there is none it is "GPL". */
  lemma {:induction false} LicenseIsLast(ss: seq<Section>, data: seq<byte>, k: nat)
    requires k <= |ss| && (k < |ss| ==> ss[k].role.License?)
    requires forall j | (if k < |ss| then k + 1 else 0) <= j < |ss| :: !ss[j].role.License?
    ensures LicenseOf(ss, data) == if k < |ss| then LicenseText(ss[k], data) else [0x47, 0x50, 0x4C]
    decreases |ss|
  {
    hide LicenseText;
    if k == |ss| {
      NoLicense(ss, data);
    } else if k < |ss| - 1 {
      LicenseIsLast(ss[..|ss| - 1], data, k);
    }
  }

  /** The text of a license section: its bytes without trailing NULs if they are UTF-8, "GPL" if they
      are not, and nothing if they are not all in the file. */
  lemma LicenseTextIs(s: Section, data: seq<byte>)
    ensures !InFile(s, data) ==> LicenseText(s, data) == []
    ensures InFile(s, data) && !Utf8(data[s.off..s.off + s.size]) ==> LicenseText(s, data) == [0x47, 0x50, 0x4C]
    ensures InFile(s, data) && Utf8(data[s.off..s.off + s.size]) ==>
              var text := LicenseText(s, data);
              && text <= data[s.off..s.off + s.size] && (text != [] ==> text[|text| - 1] != 0)
              && forall i | s.off + |text| <= i < s.off + s.size :: data[i] == 0
  {
    assert Ascii("GPL") == [0x47, 0x50, 0x4C];
    if InFile(s, data) && Utf8(Contents(s, data)) {
      var b, text := Contents(s, data), LicenseText(s, data);
      assert text == TrimNuls(b);
      forall i | s.off + |text| <= i < s.off + s.size ensures data[i] == 0 {
        assert data[i] == b[i - s.off];
      }
    }
  }
}
