/**
 * The two ELF-64 scanners that pull a BPF program out of an object file: the host's, and the one
 * the guest daemon carries. Both are methods over the same input and both are proved equal to one
 * specification, `Verdict`, which says which section is chosen without scanning for it.
 *
 * Addresses are 64-bit words. `checked` says whether the binary was built with overflow checks: an
 * addition past 2^64 then panics, and wraps otherwise.
 */
module ElfScan {
  import opened Bytes
  import opened Wrappers

  const WORD := 0x1_0000_0000_0000_0000
  const MAX_PROGRAM := 4 * 1024 * 1024

  type word = x: int | 0 <= x < 0x1_0000_0000_0000_0000
  type half = x: int | 0 <= x < 0x1_0000

  datatype Fault =
    | TooSmall | NotElf | Not64Bit | NotLittleEndian | NoSectionHeaders | NamesOutOfBounds
    | NoProgram | EmptyProgram | RaggedProgram | OversizedProgram

  datatype Outcome<+T> = Value(value: T) | Rejected(fault: Fault) | Panicked {
    predicate IsFailure() {
      !Value?
    }

    function PropagateFailure<U>(): Outcome<U>
      requires IsFailure()
    {
      if Rejected? then Rejected(fault) else Panicked
    }

    function Extract(): T
      requires Value?
    {
      value
    }
  }

  datatype ProgramType = Unspecified | SchedCls | Tracepoint | Kprobe

  datatype Loaded = Loaded(insns: seq<byte>, license: seq<byte>, hint: ProgramType)

  datatype Guest = Guest(insns: seq<byte>, license: seq<byte>)

  /** A scanner's variables between two entries of the table. */
  datatype Progress = Progress(prog: Option<seq<byte>>, license: seq<byte>, hint: ProgramType)

  /** A section that may hold a program or a license: PROGBITS, address 0, non-empty. */
  datatype Section = Section(role: Role, off: word, size: word)

  /** What a section's name makes of it. */
  datatype Role = License | Code(hint: ProgramType) | Ignored

  datatype RawHeader = RawHeader(name: word, kind: word, addr: word, off: word, size: word)

  datatype TableHeader = TableHeader(off: word, entry: half, count: half, names: half)

  // ---------------------------------------------------------------------------------------------
  // Words and slices
  // ---------------------------------------------------------------------------------------------

  function Plus(a: word, b: word, checked: bool): Outcome<word> {
    if a + b < WORD then Value(a + b) else if checked then Panicked else Value(a + b - WORD)
  }

  /** The range lookup of the standard library: no slice for a backward or overlong range. */
  function Get(data: seq<byte>, from: word, to: word): (r: Option<seq<byte>>)
    ensures r.Some? ==> |r.value| == to - from
  {
    if from <= to <= |data| then Some(data[from..to]) else None
  }

  function U32(b: seq<byte>): word
    requires |b| == 4
  {
    b[0] as int + 0x100 * b[1] as int + 0x1_0000 * b[2] as int + 0x100_0000 * b[3] as int
  }

  function ReadU16(data: seq<byte>, off: word, checked: bool): Outcome<half> {
    var end :- Plus(off, 2, checked);
    Value(match Get(data, off, end) case Some(b) => b[0] as int + 0x100 * b[1] as int case None => 0)
  }

  function ReadU32(data: seq<byte>, off: word, checked: bool): Outcome<word> {
    var end :- Plus(off, 4, checked);
    Value(match Get(data, off, end) case Some(b) => U32(b) case None => 0)
  }

  function ReadU64(data: seq<byte>, off: word, checked: bool): Outcome<word> {
    var end :- Plus(off, 8, checked);
    Value(match Get(data, off, end) case Some(b) => U32(b[..4]) + 0x1_0000_0000 * U32(b[4..]) case None => 0)
  }

  /** Where entry `i` of the section table starts, relative to the table. */
  function EntryOffset(i: half, entry: half): word {
    EntryOffsetFits(i, entry);
    i * entry
  }

  lemma EntryOffsetFits(i: half, entry: half)
    ensures 0 <= i * entry < 0x1_0000_0000
  {
    MulMonotone(i, 0xFFFF, entry);
  }

  // ---------------------------------------------------------------------------------------------
  // Text
  // ---------------------------------------------------------------------------------------------

  function Ascii(s: string): (b: seq<byte>)
    ensures |b| == |s|
    ensures forall i | 0 <= i < |s| :: b[i] == if s[i] < 128 as char then s[i] as int else 0
  {
    seq(|s|, i requires 0 <= i < |s| => if s[i] < 128 as char then s[i] as int else 0)
  }

  predicate Tail(b: byte) {
    0x80 <= b <= 0xBF
  }

  /** Well-formed UTF-8: the byte ranges of section 4 of RFC 3629. */
  predicate Utf8(b: seq<byte>) {
    if |b| == 0 then true
    else if b[0] <= 0x7F then Utf8(b[1..])
    else if 0xC2 <= b[0] <= 0xDF then |b| >= 2 && Tail(b[1]) && Utf8(b[2..])
    else if 0xE0 <= b[0] <= 0xEF then
      && |b| >= 3
      && (if b[0] == 0xE0 then 0xA0 else 0x80) <= b[1] <= (if b[0] == 0xED then 0x9F else 0xBF)
      && Tail(b[2])
      && Utf8(b[3..])
    else
      && 0xF0 <= b[0] <= 0xF4
      && |b| >= 4
      && (if b[0] == 0xF0 then 0x90 else 0x80) <= b[1] <= (if b[0] == 0xF4 then 0x8F else 0xBF)
      && Tail(b[2])
      && Tail(b[3])
      && Utf8(b[4..])
  }

  function UpToNul(b: seq<byte>): (r: seq<byte>)
    ensures r <= b && 0 !in r
    ensures |r| < |b| ==> b[|r|] == 0
  {
    if b == [] || b[0] == 0 then [] else [b[0]] + UpToNul(b[1..])
  }

  function TrimNuls(b: seq<byte>): (r: seq<byte>)
    ensures r <= b && forall i | |r| <= i < |b| :: b[i] == 0
    ensures r != [] ==> r[|r| - 1] != 0
  {
    if b == [] || b[|b| - 1] != 0 then b else TrimNuls(b[..|b| - 1])
  }

  /** A name of the string table; an index past its end is a slice out of range. */
  function NameAt(names: seq<byte>, index: word): Outcome<seq<byte>> {
    if index > |names| then Panicked
    else var text := UpToNul(names[index..]); Value(if Utf8(text) then text else [])
  }

  /** The host's list of program section names. */
  predicate IsBpfProgSection(name: seq<byte>) {
    || name == Ascii("classifier") || name == Ascii(".text") || name == Ascii("action")
    || name == Ascii("xdp") || name == Ascii("kprobe") || name == Ascii("kretprobe")
    || name == Ascii("tracepoint") || name == Ascii("raw_tracepoint") || name == Ascii("sockops")
    || name == Ascii("cgroup/connect4") || name == Ascii("cgroup/connect6")
    || Ascii("tc") <= name || Ascii("tracepoint/") <= name || Ascii("kprobe/") <= name
    || Ascii("kretprobe/") <= name || Ascii("xdp") <= name || Ascii("cgroup/") <= name
    || Ascii("sk_msg") <= name || Ascii("sockops") <= name
  }

  /** The guest's list, written without the names that its prefixes already cover. */
  predicate IsBpfSection(name: seq<byte>) {
    || name == Ascii(".text") || name == Ascii("classifier") || name == Ascii("action")
    || name == Ascii("xdp") || name == Ascii("kprobe") || name == Ascii("kretprobe")
    || name == Ascii("tracepoint") || name == Ascii("raw_tracepoint")
    || Ascii("tc") <= name || Ascii("tracepoint/") <= name || Ascii("kprobe/") <= name
    || Ascii("kretprobe/") <= name || Ascii("xdp") <= name || Ascii("cgroup/") <= name
    || Ascii("sk_msg") <= name || Ascii("sockops") <= name
  }

  lemma NameListsAgree(name: seq<byte>)
    ensures IsBpfProgSection(name) <==> IsBpfSection(name)
  {
    assert Ascii("cgroup/") <= Ascii("cgroup/connect4");
    assert Ascii("cgroup/") <= Ascii("cgroup/connect6");
  }

  function InferProgType(name: seq<byte>): ProgramType {
    if Ascii("tc") <= name || name == Ascii("classifier") || name == Ascii("action") then SchedCls
    else if Ascii("tracepoint/") <= name || name == Ascii("tracepoint") then Tracepoint
    else if Ascii("kprobe/") <= name || Ascii("kretprobe/") <= name || name == Ascii("kprobe") then Kprobe
    else Unspecified
  }

  // ---------------------------------------------------------------------------------------------
  // What a scan means
  // ---------------------------------------------------------------------------------------------

  function HeaderAt(data: seq<byte>, at: word, checked: bool): Outcome<RawHeader> {
    var name :- ReadU32(data, at, checked);
    var kindAt :- Plus(at, 4, checked);
    var kind :- ReadU32(data, kindAt, checked);
    var addrAt :- Plus(at, 16, checked);
    var addr :- ReadU64(data, addrAt, checked);
    var offAt :- Plus(at, 24, checked);
    var off :- ReadU64(data, offAt, checked);
    var sizeAt :- Plus(at, 32, checked);
    var size :- ReadU64(data, sizeAt, checked);
    Value(RawHeader(name, kind, addr, off, size))
  }

  predicate Loadable(h: RawHeader) {
    h.kind == 1 && h.addr == 0 && h.off != 0 && h.size != 0
  }

  /** The section table's place, from the file header. */
  function Locate(data: seq<byte>): Outcome<TableHeader> {
    if |data| < 16 then Rejected(TooSmall)
    else if data[0..4] != [0x7F, 0x45, 0x4C, 0x46] then Rejected(NotElf)
    else if data[4] != 2 then Rejected(Not64Bit)
    else if data[5] != 1 then Rejected(NotLittleEndian)
    else
      var off :- ReadU64(data, 40, true);
      var entry :- ReadU16(data, 58, true);
      var count :- ReadU16(data, 60, true);
      var names :- ReadU16(data, 62, true);
      if off == 0 || count == 0 then Rejected(NoSectionHeaders)
      else Value(TableHeader(off, entry, count, names))
  }

  /** The bytes of section `index`, or an error when they are not all in the file. */
  function SectionData(data: seq<byte>, t: TableHeader, index: half, checked: bool): Outcome<seq<byte>> {
    var at :- Plus(t.off, EntryOffset(index, t.entry), checked);
    var offAt :- Plus(at, 24, checked);
    var off :- ReadU64(data, offAt, checked);
    var sizeAt :- Plus(at, 32, checked);
    var size :- ReadU64(data, sizeAt, checked);
    var end :- Plus(off, size, checked);
    match Get(data, off, end)
    case Some(b) => Value(b)
    case None => Rejected(NamesOutOfBounds)
  }

  datatype Entry = End | Skip | Use(section: Section)

  /** Entry `i` of the section table: past the end of the file, of no interest, or a section to use. */
  function EntryAt(data: seq<byte>, t: TableHeader, names: seq<byte>, i: half, checked: bool): Outcome<Entry> {
    var at :- Plus(t.off, EntryOffset(i, t.entry), checked);
    var end :- Plus(at, t.entry, checked);
    if end > |data| then Value(End)
    else
      var h :- HeaderAt(data, at, checked);
      if !Loadable(h) then Value(Skip)
      else
        var name :- NameAt(names, h.name);
        Value(Use(Section(RoleOf(name), h.off, h.size)))
  }

  /** The loadable sections from entry `i` on, up to the first entry that leaves the file. */
  function Sections(data: seq<byte>, t: TableHeader, names: seq<byte>, i: nat, checked: bool): Outcome<seq<Section>>
    requires i <= t.count
    decreases t.count - i
  {
    if i == t.count then Value([])
    else
      match EntryAt(data, t, names, i, checked)
      case Value(End) => Value([])
      case Value(Skip) => Sections(data, t, names, i + 1, checked)
      case Value(Use(s)) => var rest :- Sections(data, t, names, i + 1, checked); Value([s] + rest)
      case Rejected(fault) => Rejected(fault)
      case Panicked => Panicked
  }

  function RoleOf(name: seq<byte>): Role {
    if name == Ascii("license") then License
    else if IsBpfProgSection(name) then Code(InferProgType(name))
    else Ignored
  }

  predicate Overflows(s: Section) {
    s.off + s.size >= WORD
  }

  predicate InFile(s: Section, data: seq<byte>) {
    !Overflows(s) && s.off + s.size <= |data|
  }

  function Contents(s: Section, data: seq<byte>): (b: seq<byte>)
    requires InFile(s, data)
    ensures |b| == s.size
  {
    data[s.off..s.off + s.size]
  }

  /** Entry `k` holds the program: the first candidate whose bytes are all in the file. */
  predicate Holds(ss: seq<Section>, data: seq<byte>, k: nat) {
    && k < |ss|
    && ss[k].role.Code? && InFile(ss[k], data)
    && forall j | 0 <= j < k :: !(ss[j].role.Code? && InFile(ss[j], data))
  }

  function Chosen(ss: seq<Section>, data: seq<byte>): (k: nat)
    ensures k <= |ss|
    ensures k < |ss| ==> Holds(ss, data, k)
    ensures k == |ss| ==> forall j | 0 <= j < |ss| :: !(ss[j].role.Code? && InFile(ss[j], data))
  {
    if ss == [] then 0
    else if ss[0].role.Code? && InFile(ss[0], data) then 0
    else
      var rest := Chosen(ss[1..], data);
      assert forall j | 0 < j < |ss| :: ss[j] == ss[1..][j - 1];
      1 + rest
  }

  /** An end that both scanners compute does not fit a word: a license, or a candidate before the chosen one. */
  predicate EndOverflows(ss: seq<Section>, data: seq<byte>) {
    exists k | 0 <= k < |ss| ::
      Overflows(ss[k]) && (ss[k].role.License? || (ss[k].role.Code? && k < Chosen(ss, data)))
  }

  function DecodeLicense(text: seq<byte>): seq<byte> {
    if Utf8(text) then TrimNuls(text) else Ascii("GPL")
  }

  function LicenseText(s: Section, data: seq<byte>): seq<byte> {
    DecodeLicense(if InFile(s, data) then Contents(s, data) else [])
  }

  /** The last license section's text. */
  function LicenseOf(ss: seq<Section>, data: seq<byte>): seq<byte> {
    if ss == [] then Ascii("GPL")
    else if ss[|ss| - 1].role.License? then LicenseText(ss[|ss| - 1], data)
    else LicenseOf(ss[..|ss| - 1], data)
  }

  function SizeCheck(insns: seq<byte>): Outcome<()> {
    if insns == [] then Rejected(EmptyProgram)
    else if |insns| % 8 != 0 then Rejected(RaggedProgram)
    else if |insns| > MAX_PROGRAM then Rejected(OversizedProgram)
    else Value(())
  }

  /** The program and the license that a table of sections names. */
  function Pick(ss: seq<Section>, data: seq<byte>, checked: bool): Outcome<Loaded> {
    var k := Chosen(ss, data);
    if checked && EndOverflows(ss, data) then Panicked
    else if k == |ss| then Rejected(NoProgram)
    else Value(Loaded(Contents(ss[k], data), LicenseOf(ss, data), ss[k].role.hint))
  }

  /** What the host makes of a file. */
  function Verdict(data: seq<byte>, checked: bool): Outcome<Loaded> {
    var t :- Locate(data);
    var names :- SectionData(data, t, t.names, checked);
    var ss :- Sections(data, t, names, 0, checked);
    var loaded :- Pick(ss, data, checked);
    var _ :- SizeCheck(loaded.insns);
    Value(loaded)
  }

  function WithoutHint(r: Outcome<Loaded>): Outcome<Guest> {
    var l :- r;
    Value(Guest(l.insns, l.license))
  }

  // ---------------------------------------------------------------------------------------------
  // The scan, one section further
  // ---------------------------------------------------------------------------------------------

  lemma ChosenIs(ss: seq<Section>, data: seq<byte>, k: nat)
    requires k <= |ss|
    requires k < |ss| ==> Holds(ss, data, k)
    requires k == |ss| ==> forall j | 0 <= j < |ss| :: !(ss[j].role.Code? && InFile(ss[j], data))
    ensures Chosen(ss, data) == k
  {
    var c := Chosen(ss, data);
    assert c < |ss| ==> ss[c].role.Code? && InFile(ss[c], data);
    assert k < |ss| ==> ss[k].role.Code? && InFile(ss[k], data);
  }

  lemma ChosenSnoc(ss: seq<Section>, s: Section, data: seq<byte>)
    ensures Chosen(ss + [s], data) ==
      if Chosen(ss, data) < |ss| then Chosen(ss, data)
      else if s.role.Code? && InFile(s, data) then |ss| else |ss| + 1
  {
    var k := Chosen(ss, data);
    var all := ss + [s];
    assert forall j | 0 <= j < |ss| :: all[j] == ss[j];
    if k < |ss| {
      ChosenIs(all, data, k);
    } else if s.role.Code? && InFile(s, data) {
      ChosenIs(all, data, |ss|);
    } else {
      ChosenIs(all, data, |ss| + 1);
    }
  }

  /** Whether the new section's end makes both scanners panic in a build with overflow checks. */
  predicate EndMatters(ss: seq<Section>, s: Section, data: seq<byte>) {
    Overflows(s) && (s.role.License? || (s.role.Code? && Chosen(ss, data) == |ss|))
  }

  lemma EndOverflowsSnoc(ss: seq<Section>, s: Section, data: seq<byte>)
    ensures EndOverflows(ss + [s], data) <==> EndOverflows(ss, data) || EndMatters(ss, s, data)
  {
    var all := ss + [s];
    ChosenSnoc(ss, s, data);
    assert forall j | 0 <= j < |ss| :: all[j] == ss[j];
    if EndMatters(ss, s, data) {
      assert all[|ss|] == s;
    }
    if EndOverflows(ss, data) {
      var k :| 0 <= k < |ss| && Overflows(ss[k]) && (ss[k].role.License? || (ss[k].role.Code? && k < Chosen(ss, data)));
      assert Overflows(all[k]);
    }
  }

  const START := Progress(None, Ascii("GPL"), Unspecified)

  /** One turn of the loop on a section to use. */
  function Take(p: Progress, s: Section, data: seq<byte>, checked: bool): Outcome<Progress> {
    match s.role
    case License =>
      var end :- Plus(s.off, s.size, checked);
      var text := match Get(data, s.off, end) case Some(b) => b case None => [];
      Value(p.(license := DecodeLicense(text)))
    case Code(hint) =>
      if p.prog.Some? then Value(p)
      else
        var end :- Plus(s.off, s.size, checked);
        Value(p.(prog := Get(data, s.off, end), hint := hint))
    case Ignored =>
      Value(p)
  }

  function TakeAll(ss: seq<Section>, data: seq<byte>, checked: bool): Outcome<Progress> {
    if ss == [] then Value(START)
    else
      var p :- TakeAll(ss[..|ss| - 1], data, checked);
      Take(p, ss[|ss| - 1], data, checked)
  }

  /** The rest of the loop, from entry `i`. */
  function Scan(p: Progress, data: seq<byte>, t: TableHeader, names: seq<byte>, i: nat, checked: bool): Outcome<Progress>
    requires i <= t.count
    decreases t.count - i
  {
    if i == t.count then Value(p)
    else
      match EntryAt(data, t, names, i, checked)
      case Value(End) => Value(p)
      case Value(Skip) => Scan(p, data, t, names, i + 1, checked)
      case Value(Use(s)) => var q :- Take(p, s, data, checked); Scan(q, data, t, names, i + 1, checked)
      case Rejected(fault) => Rejected(fault)
      case Panicked => Panicked
  }

  /** The scanner's variables after `ss`, said without the scan. */
  ghost predicate Agrees(p: Progress, ss: seq<Section>, data: seq<byte>) {
    var k := Chosen(ss, data);
    && p.prog == (if k < |ss| then Some(Contents(ss[k], data)) else None)
    && p.license == LicenseOf(ss, data)
    && (k < |ss| ==> p.hint == ss[k].role.hint)
  }

  lemma TakeLicense(p: Progress, s: Section, data: seq<byte>, checked: bool)
    requires s.role.License?
    ensures Take(p, s, data, checked) ==
      if checked && Overflows(s) then Panicked else Value(p.(license := LicenseText(s, data)))
  {
    hide DecodeLicense;
  }

  lemma TakeCode(p: Progress, s: Section, data: seq<byte>, checked: bool)
    requires s.role.Code? && p.prog.None?
    ensures Take(p, s, data, checked) ==
      if checked && Overflows(s) then Panicked
      else Value(p.(prog := if InFile(s, data) then Some(Contents(s, data)) else None, hint := s.role.hint))
  {
  }

  lemma AgreesSnoc(p: Progress, ss: seq<Section>, s: Section, data: seq<byte>)
    requires Agrees(p, ss, data)
    ensures s.role.License? ==> Agrees(p.(license := LicenseText(s, data)), ss + [s], data)
    ensures s.role.Ignored? || (s.role.Code? && p.prog.Some?) ==> Agrees(p, ss + [s], data)
    ensures s.role.Code? && p.prog.None? ==>
      Agrees(p.(prog := if InFile(s, data) then Some(Contents(s, data)) else None, hint := s.role.hint), ss + [s], data)
  {
    ChosenSnoc(ss, s, data);
    assert (ss + [s])[..|ss|] == ss;
  }

  lemma TakeAgrees(p: Progress, ss: seq<Section>, s: Section, data: seq<byte>, checked: bool)
    requires Agrees(p, ss, data)
    ensures Take(p, s, data, checked).Panicked? <==> checked && EndMatters(ss, s, data)
    ensures Take(p, s, data, checked).Value? ==> Agrees(Take(p, s, data, checked).value, ss + [s], data)
    ensures !Take(p, s, data, checked).Rejected?
  {
    AgreesSnoc(p, ss, s, data);
    match s.role
    case License => TakeLicense(p, s, data, checked);
    case Code(_) => if p.prog.None? { TakeCode(p, s, data, checked); }
    case Ignored =>
  }

  /** The scan picks the first candidate in the file and the last license, and panics just when the ends say so. */
  lemma {:induction false} TakeAllMeans(ss: seq<Section>, data: seq<byte>, checked: bool)
    ensures !TakeAll(ss, data, checked).Rejected?
    ensures TakeAll(ss, data, checked).Panicked? <==> checked && EndOverflows(ss, data)
    ensures TakeAll(ss, data, checked).Value? ==> Agrees(TakeAll(ss, data, checked).value, ss, data)
  {
    if ss != [] {
      var init, s := ss[..|ss| - 1], ss[|ss| - 1];
      TakeAllMeans(init, data, checked);
      assert ss == init + [s];
      EndOverflowsSnoc(init, s, data);
      if TakeAll(init, data, checked).Value? {
        TakeAgrees(TakeAll(init, data, checked).value, init, s, data, checked);
      }
    }
  }

  lemma {:induction false} PanicStays(ss: seq<Section>, more: seq<Section>, data: seq<byte>, checked: bool)
    requires TakeAll(ss, data, checked).Panicked?
    ensures TakeAll(ss + more, data, checked).Panicked?
    decreases |more|
  {
    if more == [] {
      assert ss + more == ss;
    } else {
      var init := more[..|more| - 1];
      PanicStays(ss, init, data, checked);
      assert (ss + more)[..|ss + more| - 1] == ss + init;
    }
  }

  lemma TakeAllSnoc(ss: seq<Section>, s: Section, data: seq<byte>, checked: bool)
    requires TakeAll(ss, data, checked).Value?
    ensures TakeAll(ss + [s], data, checked) == Take(TakeAll(ss, data, checked).value, s, data, checked)
  {
    assert (ss + [s])[..|ss|] == ss;
  }

  function Prepend(done: seq<Section>, rest: Outcome<seq<Section>>): Outcome<seq<Section>> {
    var r :- rest;
    Value(done + r)
  }

  function TakeListed(ss: Outcome<seq<Section>>, data: seq<byte>, checked: bool): Outcome<Progress> {
    var listed :- ss;
    TakeAll(listed, data, checked)
  }

  lemma SectionsNeverReject(data: seq<byte>, t: TableHeader, names: seq<byte>, i: nat, checked: bool)
    requires i <= t.count
    ensures !Sections(data, t, names, i, checked).Rejected?
    decreases t.count - i
  {
  }

  /** Listing one more section moves it from the rest to the sections already taken. */
  lemma ListedFirst(done: seq<Section>, s: Section, rest: Outcome<seq<Section>>)
    ensures Prepend(done, Prepend([s], rest)) == Prepend(done + [s], rest)
  {
    if rest.Value? {
      assert done + ([s] + rest.value) == (done + [s]) + rest.value;
    }
  }

  lemma PanicIsFinal(done: seq<Section>, rest: Outcome<seq<Section>>, data: seq<byte>, checked: bool)
    requires TakeAll(done, data, checked).Panicked? && !rest.Rejected?
    ensures TakeListed(Prepend(done, rest), data, checked).Panicked?
  {
    if rest.Value? {
      PanicStays(done, rest.value, data, checked);
    }
  }

  lemma ScanUse(
    done: seq<Section>, s: Section, data: seq<byte>, t: TableHeader, names: seq<byte>, i: nat, checked: bool)
    requires i < t.count && TakeAll(done, data, checked).Value?
    requires EntryAt(data, t, names, i, checked) == Value(Use(s))
    ensures Sections(data, t, names, i, checked) == Prepend([s], Sections(data, t, names, i + 1, checked))
    ensures
      var q := TakeAll(done + [s], data, checked);
      && !q.Rejected?
      && Scan(TakeAll(done, data, checked).value, data, t, names, i, checked)
         == if q.Value? then Scan(q.value, data, t, names, i + 1, checked) else Panicked
  {
    TakeAllSnoc(done, s, data, checked);
    TakeAllMeans(done + [s], data, checked);
  }

  /** Scanning entry by entry is listing the sections first and taking them one by one. */
  lemma {:induction false} ScanIsTakeAll(
    done: seq<Section>, data: seq<byte>, t: TableHeader, names: seq<byte>, i: nat, checked: bool)
    requires i <= t.count && TakeAll(done, data, checked).Value?
    ensures Scan(TakeAll(done, data, checked).value, data, t, names, i, checked) ==
      TakeListed(Prepend(done, Sections(data, t, names, i, checked)), data, checked)
    decreases t.count - i
  {
    hide EntryAt, Take, TakeAll;
    assert done + [] == done;
    if i < t.count {
      match EntryAt(data, t, names, i, checked)
      case Value(Skip) =>
        ScanIsTakeAll(done, data, t, names, i + 1, checked);
      case Value(Use(s)) =>
        var rest := Sections(data, t, names, i + 1, checked);
        ScanUse(done, s, data, t, names, i, checked);
        ListedFirst(done, s, rest);
        if TakeAll(done + [s], data, checked).Value? {
          ScanIsTakeAll(done + [s], data, t, names, i + 1, checked);
        } else {
          SectionsNeverReject(data, t, names, i + 1, checked);
          PanicIsFinal(done + [s], rest, data, checked);
        }
      case _ =>
    }
  }

  // ---------------------------------------------------------------------------------------------
  // The two scanners
  // ---------------------------------------------------------------------------------------------

  /** Where the scan of a whole table ends up. */
  function Outcomes(p: Outcome<Progress>): Outcome<Loaded> {
    var q :- p;
    match q.prog
    case None => Rejected(NoProgram)
    case Some(insns) => Value(Loaded(insns, q.license, q.hint))
  }

  lemma ScanIsPick(data: seq<byte>, t: TableHeader, names: seq<byte>, checked: bool)
    ensures Outcomes(Scan(START, data, t, names, 0, checked)) ==
      var ss :- Sections(data, t, names, 0, checked);
      Pick(ss, data, checked)
  {
    hide EntryAt, Take;
    var ss := Sections(data, t, names, 0, checked);
    ScanIsTakeAll([], data, t, names, 0, checked);
    SectionsNeverReject(data, t, names, 0, checked);
    if ss.Value? {
      assert [] + ss.value == ss.value;
      TakeAllMeans(ss.value, data, checked);
    }
  }

  /** The host's loop body once a section's name is known. */
  method UseSection(data: seq<byte>, name: seq<byte>, off: word, size: word, p: Progress, checked: bool)
    returns (r: Outcome<Progress>)
    ensures r == Take(p, Section(RoleOf(name), off, size), data, checked)
  {
    hide DecodeLicense, IsBpfProgSection, InferProgType, Ascii;
    var q := p;
    if name == Ascii("license") {
      var stop :- Plus(off, size, checked);
      var text := match Get(data, off, stop) case Some(b) => b case None => [];
      q := q.(license := DecodeLicense(text));
    } else if p.prog.None? && IsBpfProgSection(name) {
      var stop :- Plus(off, size, checked);
      q := q.(prog := Get(data, off, stop));
      q := q.(hint := InferProgType(name));
    }
    return Value(q);
  }

  /** The host's loop over the section table. */
  method ScanTable(data: seq<byte>, t: TableHeader, names: seq<byte>, checked: bool) returns (r: Outcome<Progress>)
    ensures r == Scan(START, data, t, names, 0, checked)
  {
    hide Take, RoleOf, NameAt, HeaderAt, Plus, EntryOffset;
    var p := START;
    var i: nat := 0;
    while i < t.count
      invariant 0 <= i <= t.count
      invariant Scan(START, data, t, names, 0, checked) == Scan(p, data, t, names, i, checked)
    {
      var at :- Plus(t.off, EntryOffset(i, t.entry), checked);
      var end :- Plus(at, t.entry, checked);
      if end > |data| {
        break;
      }
      var h :- HeaderAt(data, at, checked);
      i := i + 1;
      if h.kind != 1 {
        continue;
      }
      if h.addr != 0 || h.off == 0 || h.size == 0 {
        continue;
      }
      var name :- NameAt(names, h.name);
      p :- UseSection(data, name, h.off, h.size, p, checked);
    }
    return Value(p);
  }

  lemma FixedReads(data: seq<byte>, checked: bool)
    ensures ReadU64(data, 40, checked) == ReadU64(data, 40, true)
    ensures ReadU16(data, 58, checked) == ReadU16(data, 58, true)
    ensures ReadU16(data, 60, checked) == ReadU16(data, 60, true)
    ensures ReadU16(data, 62, checked) == ReadU16(data, 62, true)
  {
  }

  /** The verdict through the scan instead of the list of sections. */
  lemma VerdictByScan(data: seq<byte>, checked: bool)
    ensures Verdict(data, checked) ==
      var t :- Locate(data);
      var names :- SectionData(data, t, t.names, checked);
      var loaded :- Outcomes(Scan(START, data, t, names, 0, checked));
      var _ :- SizeCheck(loaded.insns);
      Value(loaded)
  {
    hide Locate, SectionData, Scan, Sections, Pick, Outcomes, SizeCheck;
    var t := Locate(data);
    if t.Value? {
      var names := SectionData(data, t.value, t.value.names, checked);
      if names.Value? {
        ScanIsPick(data, t.value, names.value, checked);
      }
    }
  }

  /** The host's scanner. */
  method LoadBpfObjectFile(data: seq<byte>, checked: bool) returns (r: Outcome<Loaded>)
    ensures r == Verdict(data, checked)
  {
    hide ReadU64, ReadU16, SectionData, Scan, Verdict;
    FixedReads(data, checked);
    VerdictByScan(data, checked);
    if |data| < 16 {
      return Rejected(TooSmall);
    }
    if data[0..4] != [0x7F, 0x45, 0x4C, 0x46] {
      return Rejected(NotElf);
    }
    var is64bit, isLe := data[4] == 2, data[5] == 1;
    if !is64bit {
      return Rejected(Not64Bit);
    }
    if !isLe {
      return Rejected(NotLittleEndian);
    }
    var shoff :- ReadU64(data, 40, checked);
    var shentsize :- ReadU16(data, 58, checked);
    var shnum :- ReadU16(data, 60, checked);
    var shstrndx :- ReadU16(data, 62, checked);
    if shoff == 0 || shnum == 0 {
      return Rejected(NoSectionHeaders);
    }
    var t := TableHeader(shoff, shentsize, shnum, shstrndx);
    var names :- SectionData(data, t, shstrndx, checked);
    var p :- ScanTable(data, t, names, checked);
    if p.prog.None? {
      return Rejected(NoProgram);
    }
    var insns := p.prog.value;
    if insns == [] {
      return Rejected(EmptyProgram);
    }
    if |insns| % 8 != 0 {
      return Rejected(RaggedProgram);
    }
    if |insns| > MAX_PROGRAM {
      return Rejected(OversizedProgram);
    }
    return Value(Loaded(insns, p.license, p.hint));
  }

  function Bare(p: Outcome<Progress>): Outcome<(Option<seq<byte>>, seq<byte>)> {
    var q :- p;
    Value((q.prog, q.license))
  }

  /** The guest's loop body once a section's name is known; `p` is the host's state at the same point. */
  method UseGuestSection(
    data: seq<byte>, name: seq<byte>, off: word, size: word, prog: Option<seq<byte>>, license: seq<byte>,
    checked: bool, ghost p: Progress)
    returns (r: Outcome<(Option<seq<byte>>, seq<byte>)>)
    requires p.prog == prog && p.license == license
    ensures r == Bare(Take(p, Section(RoleOf(name), off, size), data, checked))
  {
    hide DecodeLicense, IsBpfProgSection, IsBpfSection, InferProgType, Ascii;
    NameListsAgree(name);
    if name == Ascii("license") {
      var stop :- Plus(off, size, checked);
      var sec := match Get(data, off, stop) case Some(b) => b case None => [];
      return Value((prog, DecodeLicense(sec)));
    } else if prog.None? && IsBpfSection(name) {
      var stop :- Plus(off, size, checked);
      return Value((Get(data, off, stop), license));
    }
    return Value((prog, license));
  }

  /** The guest's loop over the section table. */
  method ScanGuestTable(data: seq<byte>, t: TableHeader, names: seq<byte>, checked: bool)
    returns (r: Outcome<(Option<seq<byte>>, seq<byte>)>)
    ensures r == Bare(Scan(START, data, t, names, 0, checked))
  {
    hide Take, RoleOf, NameAt, HeaderAt, Plus, EntryOffset;
    var prog: Option<seq<byte>> := None;
    var license := Ascii("GPL");
    ghost var p := START;
    for i := 0 to t.count
      invariant Scan(START, data, t, names, 0, checked) == Scan(p, data, t, names, i, checked)
      invariant p.prog == prog && p.license == license
    {
      var at :- Plus(t.off, EntryOffset(i, t.entry), checked);
      var end :- Plus(at, t.entry, checked);
      if end > |data| {
        break;
      }
      var h :- HeaderAt(data, at, checked);
      if h.kind != 1 || h.addr != 0 || h.off == 0 || h.size == 0 {
        continue;
      }
      var name :- NameAt(names, h.name);
      var taken :- UseGuestSection(data, name, h.off, h.size, prog, license, checked, p);
      p := Take(p, Section(RoleOf(name), h.off, h.size), data, checked).Extract();
      prog, license := taken.0, taken.1;
    }
    return Value((prog, license));
  }

  /** The guest's scanner. */
  method LoadBpfBytesFromElf(data: seq<byte>, checked: bool) returns (r: Outcome<Guest>)
    ensures r ==
      var t :- Locate(data);
      var names :- SectionData(data, t, t.names, checked);
      var loaded :- Outcomes(Scan(START, data, t, names, 0, checked));
      Value(Guest(loaded.insns, loaded.license))
  {
    hide ReadU64, ReadU16, SectionData, Scan;
    FixedReads(data, checked);
    if |data| < 16 {
      return Rejected(TooSmall);
    }
    if data[0..4] != [0x7F, 0x45, 0x4C, 0x46] {
      return Rejected(NotElf);
    }
    if data[4] != 2 {
      return Rejected(Not64Bit);
    }
    if data[5] != 1 {
      return Rejected(NotLittleEndian);
    }
    var shoff :- ReadU64(data, 40, checked);
    var shentsize :- ReadU16(data, 58, checked);
    var shnum :- ReadU16(data, 60, checked);
    var shstrndx :- ReadU16(data, 62, checked);
    if shoff == 0 || shnum == 0 {
      return Rejected(NoSectionHeaders);
    }
    var t := TableHeader(shoff, shentsize, shnum, shstrndx);
    var names :- SectionData(data, t, shstrndx, checked);
    var found :- ScanGuestTable(data, t, names, checked);
    if found.0.None? {
      return Rejected(NoProgram);
    }
    return Value(Guest(found.0.value, found.1));
  }

  /** The guest's loader up to the system call: scan, then the checks on the size. */
  method LoadGuestBpfProg(data: seq<byte>, checked: bool) returns (r: Outcome<Guest>)
    ensures r == WithoutHint(Verdict(data, checked))
  {
    hide Locate, SectionData, Scan, Outcomes, Verdict;
    VerdictByScan(data, checked);
    var g :- LoadBpfBytesFromElf(data, checked);
    if g.insns == [] {
      return Rejected(EmptyProgram);
    }
    if |g.insns| % 8 != 0 {
      return Rejected(RaggedProgram);
    }
    if |g.insns| > MAX_PROGRAM {
      return Rejected(OversizedProgram);
    }
    return Value(g);
  }
}
