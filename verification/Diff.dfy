/** `fastenv diff`: classify every entry of the upper tree as added, modified or deleted. */
module Diff {
  import opened Wrappers
  import opened Orders
  import opened Bytes
  import opened Workspace
  import opened Overlay
  import Registry

  datatype ChangeType = Added | Modified | Deleted
  datatype Record = Record(path: Path, change: ChangeType)

  /** ".wh." in bytes. */
  const MARKER: Name := [0x2e, 0x77, 0x68, 0x2e]

  predicate Marked(name: Name) { MARKER <= name }

  /** The entry lies strictly below a directory whose name starts with ".wh.". */
  ghost predicate Hidden(p: Path) {
    exists i | 0 <= i < |p| - 1 :: Marked(p[i])
  }

  ghost function Classify(lower: Folder, e: Entry): ChangeType
    requires e.path != []
  {
    if e.item.WhiteoutItem? || Marked(e.path[|e.path| - 1]) then Deleted
    else if Lookup(lower, e.path).Some? then Modified
    else Added
  }

  /** The records for a list of archive members. */
  ghost function DiffOf(lower: Folder, es: seq<Entry>): seq<Record> {
    if es == [] then []
    else (if es[0].path == [] || Hidden(es[0].path) then []
          else [Record(es[0].path, Classify(lower, es[0]))]) + DiffOf(lower, es[1..])
  }

  lemma {:induction false} DiffOfConcat(lower: Folder, a: seq<Entry>, b: seq<Entry>)
    ensures DiffOf(lower, a + b) == DiffOf(lower, a) + DiffOf(lower, b)
  {
    if a == [] {
      assert a + b == b;
    } else {
      assert (a + b)[1..] == a[1..] + b;
      DiffOfConcat(lower, a[1..], b);
    }
  }

  lemma {:induction false} DiffOfHidden(lower: Folder, es: seq<Entry>)
    requires forall e | e in es :: Hidden(e.path)
    ensures DiffOf(lower, es) == []
  {
    if es != [] {
      DiffOfHidden(lower, es[1..]);
    }
  }

  /** Each member below no ".wh." directory has its record, and there are no others. */
  lemma {:induction false} DiffOfHas(lower: Folder, es: seq<Entry>, r: Record)
    ensures r in DiffOf(lower, es) <==>
            exists e :: e in es && e.path != [] && !Hidden(e.path) && r == Record(e.path, Classify(lower, e))
  {
    if es != [] {
      DiffOfHas(lower, es[1..], r);
      assert es == [es[0]] + es[1..];
    }
  }

  ghost predicate PathsIncrease(rs: seq<Record>) {
    forall i, j | 0 <= i < j < |rs| :: PathLess(rs[i].path, rs[j].path)
  }

  lemma {:induction false} DiffOfIncreases(lower: Folder, es: seq<Entry>)
    requires forall i, j | 0 <= i < j < |es| :: EntryLess(es[i], es[j])
    ensures PathsIncrease(DiffOf(lower, es))
  {
    hide PathLess;
    if es != [] {
      var rest := es[1..];
      assert forall i | 0 <= i < |rest| :: rest[i] == es[i + 1];
      DiffOfIncreases(lower, rest);
      forall r | r in DiffOf(lower, rest) ensures PathLess(es[0].path, r.path) {
        DiffOfHas(lower, rest, r);
        var e :| e in rest && r.path == e.path;
        var i :| 0 <= i < |rest| && rest[i] == e;
        assert EntryLess(es[0], es[i + 1]);
      }
      var tail := DiffOf(lower, rest);
      assert forall i | 0 <= i < |tail| :: tail[i] in tail;
    }
  }

  /** The records come in path order, one for each path. */
  lemma RecordsInOrder(lower: Folder, upper: Folder)
    ensures PathsIncrease(DiffOf(lower, Walk(upper)))
  {
    WalkIncreasing(upper);
    DiffOfIncreases(lower, Walk(upper));
  }

  class DiffOutput {
    var records: seq<Record>

    constructor ()
      ensures records == []
    {
      records := [];
    }

    method Emit(r: Record)
      modifies this
      ensures records == old(records) + [r]
    {
      records := records + [r];
    }
  }

  ghost predicate Unmarked(at: Path) {
    forall i | 0 <= i < |at| :: !Marked(at[i])
  }

  /** The records of the entries `names` of a directory that sits at `at`. */
  ghost function DiffNames(lower: Folder, at: Path, dir: Folder, names: seq<Name>): seq<Record>
    requires forall n :: n in names ==> n in dir
  {
    DiffOf(lower, Relocate(at, WalkNames(dir, names)))
  }

  ghost function DiffDir(lower: Folder, at: Path, dir: Folder): (r: seq<Record>)
    ensures r == DiffNames(lower, at, dir, SortedNames(dir.Keys))
  {
    DiffOf(lower, Relocate(at, Walk(dir)))
  }

  /** The records of one entry and of what is walked below it. */
  ghost function DiffEntry(lower: Folder, at: Path, name: Name, n: Node): seq<Record> {
    [Record(at + [name], Classify(lower, Entry(at + [name], ItemOf(n))))]
    + if n.Dir? && !Marked(name) then DiffDir(lower, at + [name], n.entries) else []
  }

  /** Walk `dir`, which sits at `at` below the upper root, recursing into directories
      whose names do not start with ".wh.". */
  method WalkUpper(dir: Folder, at: Path, lower: Folder, out: DiffOutput)
    requires Unmarked(at)
    modifies out
    ensures out.records == old(out.records) + DiffDir(lower, at, dir)
    decreases Dir(dir), 0
  {
    hide DiffNames, DiffDir, DiffEntry, SortedNames, Marked;
    var names := ReadDirSorted(dir);
    ghost var start := out.records;
    assert names[0..] == names;
    for i := 0 to |names|
      invariant out.records + DiffNames(lower, at, dir, names[i..]) == start + DiffDir(lower, at, dir)
    {
      DiffStep(lower, at, dir, names, i);
      ghost var before := out.records;
      ReportEntry(names[i], dir[names[i]], at, lower, out);
      Regroup(before, DiffEntry(lower, at, names[i], dir[names[i]]), [], DiffNames(lower, at, dir, names[i + 1..]));
    }
    assert names[|names|..] == [];
    NoNames(lower, at, dir);
  }

  method ReportEntry(name: Name, node: Node, at: Path, lower: Folder, out: DiffOutput)
    requires Unmarked(at)
    modifies out
    ensures out.records == old(out.records) + DiffEntry(lower, at, name, node)
    decreases node, 1
  {
    hide DiffDir, Classify, Lookup;
    var rel := at + [name];
    ClassifyAt(lower, at, name, node);
    var change := if node.Whiteout? || Marked(name) then Deleted
                  else if Lookup(lower, rel).Some? then Modified
                  else Added;
    out.Emit(Record(rel, change));
    if node.Dir? && !Marked(name) {
      WalkUpper(node.entries, rel, lower, out);
    }
  }

  lemma NoNames(lower: Folder, at: Path, dir: Folder)
    ensures DiffNames(lower, at, dir, []) == []
  {
  }

  lemma ClassifyAt(lower: Folder, at: Path, name: Name, n: Node)
    ensures Classify(lower, Entry(at + [name], ItemOf(n))) ==
      if n.Whiteout? || Marked(name) then Deleted
      else if Lookup(lower, at + [name]).Some? then Modified
      else Added
  {
  }

  lemma DiffStep(lower: Folder, at: Path, dir: Folder, names: seq<Name>, i: nat)
    requires Unmarked(at)
    requires forall n :: n in names ==> n in dir
    requires i < |names|
    ensures DiffNames(lower, at, dir, names[i..])
         == DiffEntry(lower, at, names[i], dir[names[i]]) + DiffNames(lower, at, dir, names[i + 1..])
  {
    WalkStep(dir, names, i, at);
    DiffOfConcat(lower, Relocate(at, WalkNode(names[i], dir[names[i]])), Relocate(at, WalkNames(dir, names[i + 1..])));
    DiffNode(lower, at, names[i], dir[names[i]]);
  }

  lemma DiffNode(lower: Folder, at: Path, name: Name, n: Node)
    requires Unmarked(at)
    ensures DiffOf(lower, Relocate(at, WalkNode(name, n)))
         == [Record(at + [name], Classify(lower, Entry(at + [name], ItemOf(n))))]
            + if n.Dir? && !Marked(name) then DiffOf(lower, Relocate(at + [name], Walk(n.entries))) else []
  {
    RelocateNode(at, name, n);
    var rel := at + [name];
    var head := [Entry(rel, ItemOf(n))];
    assert !Hidden(rel) by {
      forall i | 0 <= i < |rel| - 1 ensures !Marked(rel[i]) {
        assert rel[i] == at[i];
      }
    }
    assert DiffOf(lower, head) == [Record(rel, Classify(lower, head[0]))] by {
      assert head[1..] == [];
      assert DiffOf(lower, []) == [];
    }
    if n.Dir? {
      var below := Relocate(rel, Walk(n.entries));
      DiffOfConcat(lower, head, below);
      if Marked(name) {
        forall e | e in below ensures Hidden(e.path) {
          var i :| 0 <= i < |below| && below[i] == e;
          WalkLists(n.entries, Walk(n.entries)[i]);
          assert e.path[|at|] == name;
        }
        DiffOfHidden(lower, below);
      }
    }
  }

  datatype DiffError = UnknownFork(key: Registry.Key) | NoBase(key: Registry.Key) | Unreadable

  function TreeAt(trees: map<Registry.Place, Folder>, p: Registry.Place): Folder {
    if p in trees then trees[p] else map[]
  }

  /** The whole command: the fork and then its base are looked up, and there is nothing to report
      when the upper directory was never created. */
  method DiffFork(registry: Registry.RegistryHandle, key: Registry.Key, trees: map<Registry.Place, Folder>,
                  forkLook: Registry.Look, baseLook: Registry.Look)
    returns (r: Result<seq<Record>, DiffError>)
    ensures var doc := Registry.DocOf(registry.file);
            if forkLook.Unreadable? || (forkLook.Sees? && !Registry.Parses(registry.file)) then r == Err(Unreadable)
            else if forkLook.Missed? || key !in doc.forks then r == Err(UnknownFork(key))
            else
              var fork := doc.forks[key];
              if !baseLook.Sees? || fork.baseKey !in doc.bases then r == Err(NoBase(fork.baseKey))
              else if fork.upperPath !in trees then r == Ok([])
              else r == Ok(DiffOf(TreeAt(trees, doc.bases[fork.baseKey].lowerPath), Walk(trees[fork.upperPath])))
  {
    var fork := registry.GetFork(key, forkLook);
    if fork.Err? {
      return Err(if fork.error == Registry.Io then Unreadable else UnknownFork(key));
    }
    var base := registry.GetBase(fork.value.baseKey, baseLook);
    if base.Err? {
      return Err(NoBase(fork.value.baseKey));
    }
    if fork.value.upperPath !in trees {
      return Ok([]);
    }
    var out := new DiffOutput();
    var upper := trees[fork.value.upperPath];
    var lower := TreeAt(trees, base.value.lowerPath);
    WalkUpper(upper, [], lower, out);
    RelocateNowhere(Walk(upper));
    assert out.records == DiffOf(lower, Relocate([], Walk(upper)));
    return Ok(out.records);
  }

  // ---------------------------------------------------------------------
  // What the records mean for the merged view
  // ---------------------------------------------------------------------

  lemma {:induction false} OutermostMarked(p: Path, n: nat) returns (i: nat)
    requires n < |p| && Marked(p[n])
    ensures i <= n && Marked(p[i]) && forall j | 0 <= j < i :: !Marked(p[j])
    decreases n
  {
    i := n;
    if j: nat :| j < n && Marked(p[j]) {
      i := OutermostMarked(p, j);
    }
  }

  lemma RecordedAtOrAbove(lower: Folder, upper: Folder, q: Path) returns (r: Record)
    requires Lookup(upper, q).Some?
    ensures r in DiffOf(lower, Walk(upper)) && r.path <= q && r.path != []
  {
    var p := q;
    if Hidden(q) {
      var n :| 0 <= n < |q| - 1 && Marked(q[n]);
      var i := OutermostMarked(q, n);
      p := q[..i + 1];
      AncestorsExist(upper, q, p);
    }
    assert !Hidden(p);
    var e := Entry(p, ItemOf(Lookup(upper, p).value));
    WalkLists(upper, e);
    r := Record(p, Classify(lower, e));
    DiffOfHas(lower, Walk(upper), r);
  }

  /** The layers below a fork: the lower tree of its base, which diff looks paths up in, and below
      that the cache trees of the base, which it does not. */
  ghost function Below(lower: Folder, caches: seq<Folder>): seq<Folder> {
    [lower] + caches
  }

  /** What the fork shows before anything is written, and with an upper tree. */
  ghost function StartView(lower: Folder, caches: seq<Folder>, p: Path): Option<Item> {
    ViewStack(Below(lower, caches), p)
  }

  ghost function ForkView(lower: Folder, caches: seq<Folder>, upper: Folder, p: Path): Option<Item> {
    ViewStack([upper] + Below(lower, caches), p)
  }

  lemma StartViewIs(lower: Folder, caches: seq<Folder>, p: Path)
    ensures StartView(lower, caches, p) ==
            match Lookup(lower, p)
            case Some(Whiteout) => None
            case Some(n) => Some(ItemOf(n))
            case None => if Masked(lower, p) then None else ViewStack(caches, p)
    ensures ForkView(lower, caches, map[], p) == StartView(lower, caches, p)
  {
    EmptyShowsNothing(p);
    assert ([lower] + caches)[1..] == caches;
    assert ([map[]] + Below(lower, caches))[1..] == Below(lower, caches);
    forall k | 0 < k < |p| ensures Lookup(map[], p[..k]).None? {
      EmptyShowsNothing(p[..k]);
    }
  }

  lemma ForkViewIs(lower: Folder, caches: seq<Folder>, upper: Folder, p: Path)
    ensures ForkView(lower, caches, upper, p) ==
            match Lookup(upper, p)
            case Some(Whiteout) => None
            case Some(n) => Some(ItemOf(n))
            case None => if Masked(upper, p) then None else StartView(lower, caches, p)
  {
    assert ([upper] + Below(lower, caches))[1..] == Below(lower, caches);
  }

  /** Wherever the fork shows something other than it did at first, the diff reports that path or
      one of its ancestors, whatever cache trees the base has. */
  lemma EveryChangeIsReported(lower: Folder, caches: seq<Folder>, upper: Folder, p: Path)
    requires ForkView(lower, caches, upper, p) != StartView(lower, caches, p)
    ensures exists r :: r in DiffOf(lower, Walk(upper)) && r.path <= p
  {
    ForkViewIs(lower, caches, upper, p);
    var q := p;
    if Lookup(upper, p).None? {
      var k :| 0 < k < |p| && Lookup(upper, p[..k]).Some? && !Lookup(upper, p[..k]).value.Dir?;
      q := p[..k];
    }
    var r := RecordedAtOrAbove(lower, upper, q);
    assert r.path <= p;
  }

  /** What a record says, in terms of what the fork showed at first and what it shows now. The
      path was absent at first, as "added" says, exactly when no cache tree shows it through the
      base; it was there, as "modified" says, exactly when the base does not delete it; and it is
      gone, as "deleted" says, exactly when the upper node is a 0:0 one. */
  lemma RecordsAndTheView(lower: Folder, caches: seq<Folder>, upper: Folder, r: Record)
    requires r in DiffOf(lower, Walk(upper))
    ensures r.change == Added ==>
              && (StartView(lower, caches, r.path).None? <==> Masked(lower, r.path) || ViewStack(caches, r.path).None?)
              && ForkView(lower, caches, upper, r.path).Some?
    ensures r.change == Modified ==>
              && (StartView(lower, caches, r.path).Some? <==> Lookup(lower, r.path) != Some(Whiteout))
              && ForkView(lower, caches, upper, r.path).Some?
    ensures r.change == Deleted ==>
              (ForkView(lower, caches, upper, r.path).None? <==> Lookup(upper, r.path) == Some(Whiteout))
    ensures r.path != [] && (r.change == Deleted <==>
              Lookup(upper, r.path) == Some(Whiteout) || Marked(r.path[|r.path| - 1]))
  {
    DiffOfHas(lower, Walk(upper), r);
    var e :| e in Walk(upper) && e.path != [] && !Hidden(e.path) && r == Record(e.path, Classify(lower, e));
    WalkLists(upper, e);
    StartViewIs(lower, caches, r.path);
    ForkViewIs(lower, caches, upper, r.path);
    hide Walk, DiffOf, StartView, ForkView, Lookup, Masked;
  }

  /** A file that a cache tree shows: the fork has it from the start with nothing reported, and
      overwriting it is reported as adding it. */
  lemma CacheFilesLookAdded(lower: Folder, caches: seq<Folder>, p: Path, upper: Folder, content: seq<byte>)
    requires p != [] && Lookup(lower, p).None? && !Masked(lower, p) && ViewStack(caches, p).Some?
    requires Lookup(upper, p) == Some(File(content)) && !Hidden(p) && !Marked(p[|p| - 1])
    ensures ForkView(lower, caches, map[], p).Some? && ItemAt(lower, p).None? && DiffOf(lower, Walk(map[])) == []
    ensures StartView(lower, caches, p).Some? && Record(p, Added) in DiffOf(lower, Walk(upper))
  {
    StartViewIs(lower, caches, p);
    var e := Entry(p, FileItem(content));
    WalkLists(upper, e);
    DiffOfHas(lower, Walk(upper), Record(p, Added));
    assert Walk(map[]) == [];
  }

  /** The names that count as markers start with ".wh.", spelled in bytes. */
  lemma MarkerIs(name: Name)
    ensures Marked(name) <==>
            |name| >= 4 && name[0] == 0x2e && name[1] == 0x77 && name[2] == 0x68 && name[3] == 0x2e
  {
    assert |MARKER| == 4;
    if |name| >= 4 && name[0] == 0x2e && name[1] == 0x77 && name[2] == 0x68 && name[3] == 0x2e {
      assert name[..4] == MARKER;
    }
  }

  /** A regular file named ".wh.x" is reported deleted and is still in the merged view. */
  lemma MarkerFileStaysVisible()
    ensures var name := [0x2e, 0x77, 0x68, 0x2e, 0x78];
            var upper: Folder := map[name := File([])];
            && DiffOf(map[], Walk(upper)) == [Record([name], Deleted)]
            && ForkView(map[], [], upper, [name]) == Some(FileItem([]))
  {
    var name: Name := [0x2e, 0x77, 0x68, 0x2e, 0x78];
    MarkerIs(name);
    var upper: Folder := map[name := File([])];
    assert upper.Keys - {name} == {};
    assert SortedNames(upper.Keys) == [name];
    var e := Entry([name], FileItem([]));
    assert WalkNames(upper, [name]) == WalkNode(name, upper[name]) + WalkNames(upper, []);
    assert Walk(upper) == [e];
    assert [e][1..] == [];
    assert DiffOf(map[], []) == [];
    assert !Hidden([name]);
    ForkViewIs(map[], [], upper, [name]);
  }
}
