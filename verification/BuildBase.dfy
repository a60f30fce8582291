/** `fastenv build-base`: collect every entry, sort by relative path, archive, unpack, register. */
module BuildBase {
  import opened Wrappers
  import opened Orders
  import opened Workspace
  import opened Overlay

  /** A collected pair: the path relative to the source root and the node it names. */
  datatype Found = Found(rel: Path, node: Node)

  predicate FoundLeq(a: Found, b: Found) { !PathLess(b.rel, a.rel) }

  lemma FoundLeqTransitive(a: Found, b: Found, c: Found)
    requires FoundLeq(a, b) && FoundLeq(b, c)
    ensures FoundLeq(a, c)
  {
    PathLessTotal(a.rel, b.rel);
    PathLessTotal(b.rel, c.rel);
    if PathLess(c.rel, a.rel) && a.rel != b.rel {
      PathLessTransitive(c.rel, a.rel, b.rel);
    }
  }

  lemma FoundOrder()
    ensures TotalPreorder(FoundLeq)
  {
    forall a, b ensures FoundLeq(a, b) || FoundLeq(b, a) {
      PathLessTotal(a.rel, b.rel);
    }
    forall a, b, c | FoundLeq(a, b) && FoundLeq(b, c) ensures FoundLeq(a, c) {
      FoundLeqTransitive(a, b, c);
    }
  }

  ghost predicate FoundUnder(dir: Folder, at: Path, x: Found) {
    at < x.rel && Lookup(dir, x.rel[|at|..]) == Some(x.node)
  }

  predicate DistinctPaths(xs: seq<Found>) {
    forall i, j | 0 <= i < j < |xs| :: xs[i].rel != xs[j].rel
  }

  /** Collect all entries below `current`, directories included, in enumeration order. */
  method CollectEntries(current: Folder, at: Path) returns (result: seq<Found>)
    ensures forall x :: x in result <==> FoundUnder(current, at, x)
    ensures DistinctPaths(result)
    decreases Dir(current)
  {
    result := [];
    var names := ReadDir(current);
    for i := 0 to |names|
      invariant forall x :: x in result <==> FoundUnder(current, at, x) && x.rel[|at|] in names[..i]
      invariant DistinctPaths(result)
    {
      var name := names[i];
      var rel := at + [name];
      var here := [Found(rel, current[name])];
      var below: seq<Found> := [];
      if current[name].Dir? {
        below := CollectEntries(current[name].entries, rel);
      }
      forall x ensures x in here + below <==> FoundUnder(current, at, x) && x.rel[|at|] == name {
        BelowName(current, at, name, x);
        assert x in here + below <==> x in here || x in below;
      }
      assert names[..i + 1] == names[..i] + [name];
      forall j, k | 0 <= j < |result| && 0 <= k < |here + below| ensures result[j].rel != (here + below)[k].rel {
        assert result[j] in result && (here + below)[k] in here + below;
      }
      forall k | 0 <= k < |below| ensures below[k].rel != rel {
        assert below[k] in below;
      }
      result := result + (here + below);
    }
  }

  lemma BelowName(dir: Folder, at: Path, name: Name, x: Found)
    requires name in dir
    ensures FoundUnder(dir, at, x) && x.rel[|at|] == name <==>
            || x == Found(at + [name], dir[name])
            || (dir[name].Dir? && FoundUnder(dir[name].entries, at + [name], x))
  {
    if at < x.rel && x.rel[|at|] == name {
      var p := x.rel[|at|..];
      assert x.rel == at + p && p[0] == name;
      if |p| == 1 {
        assert p == [name];
      } else {
        assert at + [name] < x.rel;
        assert x.rel[|at + [name]|..] == p[1..];
      }
    }
    if at + [name] < x.rel {
      assert at < x.rel && x.rel[|at|] == name;
    }
  }

  /** Opening a 0:0 character device for reading fails, and with it the build. */
  ghost predicate Archivable(f: Folder) {
    forall p :: Lookup(f, p) != Some(Whiteout)
  }

  /** The source tree as a member list: collect, sort by path, append. */
  method BuildTar(dir: Folder) returns (r: Result<seq<Entry>, Path>)
    ensures r.Ok? <==> Archivable(dir)
    ensures r.Ok? ==> r.value == Walk(dir)
    ensures r.Err? ==> Lookup(dir, r.error) == Some(Whiteout)
  {
    hide Walk, PathLess, NameLess;
    var collected := CollectEntries(dir, []);
    FoundOrder();
    var entries := SortBy(collected, FoundLeq);
    SortedCollection(dir, collected, entries);
    var tar: seq<Entry> := [];
    for i := 0 to |entries|
      invariant |tar| == i
      invariant forall k | 0 <= k < i :: tar[k] == Entry(entries[k].rel, ItemOf(entries[k].node))
      invariant forall k | 0 <= k < i :: !entries[k].node.Whiteout?
    {
      match entries[i].node {
        case Dir(_) => tar := tar + [Entry(entries[i].rel, DirItem)];
        case File(content) => tar := tar + [Entry(entries[i].rel, FileItem(content))];
        case Whiteout =>
          assert entries[i] in entries;
          return Err(entries[i].rel);
      }
    }
    assert tar == EntriesOf(entries);
    CollectionIsWalk(dir, entries);
    forall p ensures Lookup(dir, p) != Some(Whiteout) {
      assert Found(p, Whiteout) !in entries;
    }
    return Ok(tar);
  }

  ghost function EntriesOf(xs: seq<Found>): (es: seq<Entry>)
    ensures |es| == |xs| && forall i | 0 <= i < |xs| :: es[i] == Entry(xs[i].rel, ItemOf(xs[i].node))
  {
    seq(|xs|, i requires 0 <= i < |xs| => Entry(xs[i].rel, ItemOf(xs[i].node)))
  }

  ghost predicate PathSorted(xs: seq<Found>) {
    forall i, j | 0 <= i < j < |xs| :: PathLess(xs[i].rel, xs[j].rel)
  }

  lemma SortedCollection(dir: Folder, collected: seq<Found>, entries: seq<Found>)
    requires forall x :: x in collected <==> FoundUnder(dir, [], x)
    requires DistinctPaths(collected)
    requires multiset(entries) == multiset(collected)
    requires Increasing(FoundLeq, entries)
    ensures forall x :: x in entries <==> Lookup(dir, x.rel) == Some(x.node)
    ensures PathSorted(entries)
  {
    forall x ensures x in entries <==> Lookup(dir, x.rel) == Some(x.node) {
      assert x in entries <==> x in multiset(entries);
      assert x in collected <==> x in multiset(collected);
      assert x.rel[0..] == x.rel;
    }
    NoDuplicatesIsMultisetProperty(collected, entries);
    forall i, j | 0 <= i < j < |entries| ensures PathLess(entries[i].rel, entries[j].rel) {
      assert FoundLeq(entries[i], entries[j]);
      assert entries[i] in entries && entries[j] in entries;
      PathLessTotal(entries[i].rel, entries[j].rel);
    }
  }

  /** Whatever order the directories were enumerated in, the sorted collection is the
      sorted pre-order walk. */
  lemma CollectionIsWalk(dir: Folder, entries: seq<Found>)
    requires forall x :: x in entries <==> Lookup(dir, x.rel) == Some(x.node)
    requires PathSorted(entries)
    ensures EntriesOf(entries) == Walk(dir)
  {
    var es := EntriesOf(entries);
    forall e ensures e in es <==> e in Walk(dir) {
      WalkLists(dir, e);
      if Has(dir, e) {
        var x := Found(e.path, Lookup(dir, e.path).value);
        assert x in entries;
        var i :| 0 <= i < |entries| && entries[i] == x;
        assert es[i] == e;
      }
      if e in es {
        var i :| 0 <= i < |es| && es[i] == e;
        assert entries[i] in entries;
      }
    }
    forall i, j | 0 <= i < j < |es| ensures EntryLess(es[i], es[j]) {
      assert PathLess(entries[i].rel, entries[j].rel);
    }
    WalkIncreasing(dir);
    EntryOrder();
    SameElementsSameSequence(EntryLess, es, Walk(dir));
  }

  // ---------------------------------------------------------------------
  // Unpacking
  // ---------------------------------------------------------------------

  function FilesOf(members: seq<Entry>): seq<Entry> {
    if members == [] then []
    else FilesOf(members[..|members| - 1]) + if members[|members| - 1].item.DirItem? then [] else [members[|members| - 1]]
  }

  /** The directory members, last one first. */
  function DirsOf(members: seq<Entry>): seq<Entry> {
    if members == [] then []
    else (if members[|members| - 1].item.DirItem? then [members[|members| - 1]] else []) + DirsOf(members[..|members| - 1])
  }

  /** The order in which an archive is unpacked: what is not a directory as it comes, then the
      directories. */
  function UnpackOrder(members: seq<Entry>): seq<Entry> {
    FilesOf(members) + DirsOf(members)
  }

  method Arrange(members: seq<Entry>) returns (order: seq<Entry>)
    ensures order == UnpackOrder(members)
  {
    var files: seq<Entry>, directories: seq<Entry> := [], [];
    for i := 0 to |members|
      invariant files == FilesOf(members[..i]) && directories == DirsOf(members[..i])
    {
      assert members[..i + 1][..i] == members[..i];
      if members[i].item.DirItem? {
        directories := [members[i]] + directories;
      } else {
        files := files + [members[i]];
      }
    }
    assert members[..|members|] == members;
    return files + directories;
  }

  lemma {:induction false} OrderHasAll(members: seq<Entry>, e: Entry)
    ensures e in UnpackOrder(members) <==> e in members
    decreases |members|
  {
    if members != [] {
      var init, last := members[..|members| - 1], members[|members| - 1];
      OrderHasAll(init, e);
      assert members == init + [last];
    }
  }

  lemma OrderListsAll(u: Folder)
    ensures ListsAll(UnpackOrder(Walk(u)), u)
  {
    forall e ensures e in UnpackOrder(Walk(u)) <==> Has(u, e) {
      OrderHasAll(Walk(u), e);
      WalkLists(u, e);
    }
  }

  lemma {:induction false} FilesInOrder(es: seq<Entry>)
    requires forall i, j | 0 <= i < j < |es| :: EntryLess(es[i], es[j])
    ensures forall i | 0 <= i < |FilesOf(es)| :: !FilesOf(es)[i].item.DirItem? && FilesOf(es)[i] in es
    ensures forall i, j | 0 <= i < j < |FilesOf(es)| :: EntryLess(FilesOf(es)[i], FilesOf(es)[j])
  {
    hide EntryLess;
    if es != [] {
      var init, last := es[..|es| - 1], es[|es| - 1];
      FilesInOrder(init);
      forall e | e in init ensures EntryLess(e, last) {
        var i :| 0 <= i < |init| && init[i] == e;
        assert EntryLess(es[i], es[|es| - 1]);
      }
    }
  }

  lemma {:induction false} DirsInReverse(es: seq<Entry>)
    requires forall i, j | 0 <= i < j < |es| :: EntryLess(es[i], es[j])
    ensures forall i | 0 <= i < |DirsOf(es)| :: DirsOf(es)[i].item.DirItem? && DirsOf(es)[i] in es
    ensures forall i, j | 0 <= i < j < |DirsOf(es)| :: EntryLess(DirsOf(es)[j], DirsOf(es)[i])
  {
    hide EntryLess;
    if es != [] {
      var init, last := es[..|es| - 1], es[|es| - 1];
      DirsInReverse(init);
      forall e | e in init ensures EntryLess(e, last) {
        var i :| 0 <= i < |init| && init[i] == e;
        assert EntryLess(es[i], es[|es| - 1]);
      }
    }
  }

  /** A sorted archive is unpacked files first, in path order, then directories, the deepest and
      latest first. */
  lemma UnpackedFilesFirst(u: Folder, i: nat, j: nat)
    requires i < j < |UnpackOrder(Walk(u))|
    ensures var a, b := UnpackOrder(Walk(u))[i], UnpackOrder(Walk(u))[j];
            && (a.item.DirItem? ==> b.item.DirItem? && PathLess(b.path, a.path))
            && (!a.item.DirItem? && !b.item.DirItem? ==> PathLess(a.path, b.path))
  {
    WalkIncreasing(u);
    FilesInOrder(Walk(u));
    DirsInReverse(Walk(u));
    var n := |FilesOf(Walk(u))|;
    hide FilesOf, DirsOf, Walk, PathLess;
    assert j >= n ==> UnpackOrder(Walk(u))[j] == DirsOf(Walk(u))[j - n];
    if i >= n {
      assert EntryLess(DirsOf(Walk(u))[j - n], DirsOf(Walk(u))[i - n]);
    } else if j < n {
      assert EntryLess(FilesOf(Walk(u))[i], FilesOf(Walk(u))[j]);
    }
  }

  /** Nothing on the way clashes, and no disk operation fails before the end. */
  ghost predicate GoesWhole(members: seq<Entry>, into: Folder, stop: Option<nat>) {
    Unpacked(UnpackOrder(members), into).Some? && (stop.Some? ==> stop.value >= |UnpackOrder(members)|)
  }

  lemma {:induction false} ClashIsFinal(es: seq<Entry>, n: nat, t: Folder, out: Folder)
    requires n < |es| && Unpacked(es[..n], t) == Some(out) && Clashes(out, es[n].path, es[n].item)
    ensures Unpacked(es, t).None?
    decreases n
  {
    if n > 0 {
      assert es[..n][1..] == es[1..][..n - 1] && es[..n][0] == es[0];
      ClashIsFinal(es[1..], n - 1, Put(Verbatim, t, es[0].path, es[0].item), out);
    }
  }

  /** Unpack the members into `into`, in the archive's order, until one clashes with what is
      there or, if `stop` says so, a disk operation fails. `done` is how many were unpacked. */
  method Unpack(members: seq<Entry>, into: Folder, stop: Option<nat>) returns (out: Folder, done: nat, ok: bool)
    ensures done <= |UnpackOrder(members)|
    ensures Unpacked(UnpackOrder(members)[..done], into) == Some(out)
    ensures ok <==> done == |UnpackOrder(members)|
    ensures ok ==> Unpacked(UnpackOrder(members), into) == Some(out)
    ensures !ok ==> stop == Some(done)
                    || Clashes(out, UnpackOrder(members)[done].path, UnpackOrder(members)[done].item)
    ensures ok <==> GoesWhole(members, into, stop)
  {
    var order := Arrange(members);
    out, done := into, 0;
    assert order[..|order|] == order;
    while done < |order|
      invariant 0 <= done <= |order|
      invariant stop.Some? && stop.value < |order| ==> done <= stop.value
      invariant Unpacked(order[..done], into) == Some(out)
    {
      if stop == Some(done) || Clashes(out, order[done].path, order[done].item) {
        if Clashes(out, order[done].path, order[done].item) {
          ClashIsFinal(order, done, into, out);
        }
        return out, done, false;
      }
      UnpackedSnoc(order[..done], order[done], into);
      assert order[..done + 1] == order[..done] + [order[done]];
      out := Put(Verbatim, out, order[done].path, order[done].item);
      done := done + 1;
    }
    return out, done, true;
  }

  lemma {:induction false} UnpackedSnoc(es: seq<Entry>, e: Entry, t: Folder)
    requires Unpacked(es, t).Some?
    ensures Unpacked(es + [e], t) ==
      if Clashes(Unpacked(es, t).value, e.path, e.item) then None
      else Some(Put(Verbatim, Unpacked(es, t).value, e.path, e.item))
    decreases |es|
  {
    if es == [] {
      assert [e][1..] == [];
    } else {
      assert (es + [e])[1..] == es[1..] + [e];
      UnpackedSnoc(es[1..], e, Put(Verbatim, t, es[0].path, es[0].item));
    }
  }

  // ---------------------------------------------------------------------
  // The pipeline
  // ---------------------------------------------------------------------

  /** "cache", "npm", "pip" and "cargo" in bytes. */
  const CACHE: Name := [0x63, 0x61, 0x63, 0x68, 0x65]
  const KNOWN_CACHES: seq<Name> := [[0x6e, 0x70, 0x6d], [0x70, 0x69, 0x70], [0x63, 0x61, 0x72, 0x67, 0x6f]]

  predicate HasCache(source: Folder, name: Name) {
    Lookup(source, [CACHE, name]).Some? && Lookup(source, [CACHE, name]).value.Dir?
  }

  function CacheOf(source: Folder, name: Name): Folder
    requires HasCache(source, name)
  {
    Lookup(source, [CACHE, name]).value.entries
  }

  /** The known caches that the source tree has, in the order they are known. */
  function CachesOf(source: Folder, known: seq<Name>): seq<Name> {
    if known == [] then []
    else CachesOf(source, known[..|known| - 1])
         + if HasCache(source, known[|known| - 1]) then [known[|known| - 1]] else []
  }

  /** Where a run of the pipeline fails for a reason outside it, if it does: before the lower
      tree is touched, part way through unpacking it, part way through unpacking a cache, or
      after that. */
  datatype Fault = NoFault | BeforeUnpack | Unpacking(done: nat) | UnpackingCache(name: Name, done: nat) | AfterUnpack

  /** Where the disk fails while one cache is unpacked. */
  function CacheStop(fault: Fault, name: Name): Option<nat> {
    if fault.UnpackingCache? && fault.name == name then Some(fault.done) else None
  }

  /** Extracting does npm, pip and cargo in this order, each exactly if the source has a directory
      of that name in its directory "cache". */
  lemma CachesAre(source: Folder)
    ensures var cache := [0x63, 0x61, 0x63, 0x68, 0x65];
            var npm, pip, cargo := [0x6e, 0x70, 0x6d], [0x70, 0x69, 0x70], [0x63, 0x61, 0x72, 0x67, 0x6f];
            CachesOf(source, KNOWN_CACHES) ==
              (if IsDirAt(source, [cache, npm]) then [npm] else [])
              + (if IsDirAt(source, [cache, pip]) then [pip] else [])
              + (if IsDirAt(source, [cache, cargo]) then [cargo] else [])
  {
    hide Lookup;
    var all := KNOWN_CACHES;
    assert all[..2] == [all[0], all[1]] && [all[0], all[1]][..1] == [all[0]];
    NoCaches(source);
    assert [all[0]][..0] == all[..0];
    assert CachesOf(source, all[..0]) == [];
    assert CachesOf(source, [all[0]]) == if HasCache(source, all[0]) then [all[0]] else [];
  }

  predicate IsDirAt(f: Folder, p: Path) {
    Lookup(f, p).Some? && Lookup(f, p).value.Dir?
  }

  type Key = string

  class BaseStore {
    var registered: map<Key, seq<Name>>   // with the caches on record
    var lower: map<Key, Folder>
    var caches: map<(Key, Name), Folder>

    constructor ()
      ensures registered == map[] && lower == map[] && caches == map[]
    {
      registered, lower, caches := map[], map[], map[];
    }

    function LowerOf(key: Key): Folder
      reads this`lower
    {
      if key in lower then lower[key] else map[]
    }

    function CacheAt(key: Key, name: Name): Folder
      reads this`caches
    {
      if (key, name) in caches then caches[(key, name)] else map[]
    }

    /** Extract the known caches of the source, each into its own directory. */
    method ExtractCaches(source: Folder, key: Key, fault: Fault) returns (names: seq<Name>, ok: bool)
      requires Archivable(source)
      modifies `caches
      ensures forall k, n | k != key :: CacheAt(k, n) == old(CacheAt(k, n))
      ensures forall n | n !in KNOWN_CACHES || !HasCache(source, n) :: CacheAt(key, n) == old(CacheAt(key, n))
      ensures ok ==> names == CachesOf(source, KNOWN_CACHES)
      ensures ok ==> forall n | n in KNOWN_CACHES && HasCache(source, n) ::
                Unpacked(UnpackOrder(Walk(CacheOf(source, n))), old(CacheAt(key, n))) == Some(CacheAt(key, n))
      ensures ok <==> forall n | n in KNOWN_CACHES && HasCache(source, n) ::
                GoesWhole(Walk(CacheOf(source, n)), old(CacheAt(key, n)), CacheStop(fault, n))
    {
      hide Unpacked, UnpackOrder, Walk, Archivable, HasCache, Clashes, CacheOf, CachesOf, Lookup, GoesWhole;
      names := [];
      NoCaches(source);
      for i := 0 to |KNOWN_CACHES|
        invariant names == CachesOf(source, KNOWN_CACHES[..i])
        invariant forall k, n | k != key :: CacheAt(k, n) == old(CacheAt(k, n))
        invariant forall n | n !in KNOWN_CACHES[..i] || !HasCache(source, n) :: CacheAt(key, n) == old(CacheAt(key, n))
        invariant forall n | n in KNOWN_CACHES[..i] && HasCache(source, n) ::
                    Unpacked(UnpackOrder(Walk(CacheOf(source, n))), old(CacheAt(key, n))) == Some(CacheAt(key, n))
                    && GoesWhole(Walk(CacheOf(source, n)), old(CacheAt(key, n)), CacheStop(fault, n))
      {
        var name := KNOWN_CACHES[i];
        CacheStep(source, i);
        if HasCache(source, name) {
          var tar := BuildTar(CacheOf(source, name));
          CacheArchivable(source, name);
          var out, done, whole := Unpack(tar.value, CacheAt(key, name), CacheStop(fault, name));
          caches := caches[(key, name) := out];
          if !whole {
            return names, false;
          }
          names := names + [name];
        }
      }
      assert KNOWN_CACHES[..|KNOWN_CACHES|] == KNOWN_CACHES;
      ok := true;
    }

    /** Build and register a base. A key that is already registered is left alone. */
    method Build(source: Folder, key: Key, fault: Fault) returns (ok: bool)
      modifies this
      ensures old(key in registered) ==>
                ok && registered == old(registered) && lower == old(lower) && caches == old(caches)
      ensures registered == if ok && old(key !in registered)
                            then old(registered)[key := CachesOf(source, KNOWN_CACHES)] else old(registered)
      ensures forall k | k != key :: LowerOf(k) == old(LowerOf(k))
      ensures forall k, n | k != key :: CacheAt(k, n) == old(CacheAt(k, n))
      ensures old(key !in registered) && ok ==>
                && Archivable(source)
                && Unpacked(UnpackOrder(Walk(source)), old(LowerOf(key))) == Some(LowerOf(key))
                && forall n | n in KNOWN_CACHES && HasCache(source, n) ::
                     Unpacked(UnpackOrder(Walk(CacheOf(source, n))), old(CacheAt(key, n))) == Some(CacheAt(key, n))
      ensures old(key !in registered) ==>
                (ok <==>
                  && Archivable(source) && !fault.BeforeUnpack? && !fault.AfterUnpack?
                  && GoesWhole(Walk(source), old(LowerOf(key)), if fault.Unpacking? then Some(fault.done) else None)
                  && forall n | n in KNOWN_CACHES && HasCache(source, n) ::
                       GoesWhole(Walk(CacheOf(source, n)), old(CacheAt(key, n)), CacheStop(fault, n)))
      ensures old(key !in registered) && !ok ==>
                exists n: nat | n <= |UnpackOrder(Walk(source))| ::
                  Unpacked(UnpackOrder(Walk(source))[..n], old(LowerOf(key))) == Some(LowerOf(key))
    {
      hide UnpackOrder, Walk, Archivable, HasCache, Clashes, CachesOf, GoesWhole, CacheOf;
      if key in registered {
        return true;
      }
      assert Unpacked(UnpackOrder(Walk(source))[..0], LowerOf(key)) == Some(LowerOf(key));
      hide Unpacked;
      var tar := BuildTar(source);
      if tar.Err? || fault.BeforeUnpack? {
        return false;
      }
      var stop := if fault.Unpacking? then Some(fault.done) else None;
      var out, done, whole := Unpack(tar.value, LowerOf(key), stop);
      lower := lower[key := out];
      if !whole {
        return false;
      }
      assert UnpackOrder(Walk(source))[..done] == UnpackOrder(Walk(source));
      var names, extracted := ExtractCaches(source, key, fault);
      if !extracted || fault.AfterUnpack? {
        return false;
      }
      registered := registered[key := names];
      return true;
    }
  }

  lemma CacheStep(source: Folder, i: nat)
    requires i < |KNOWN_CACHES|
    ensures KNOWN_CACHES[..i + 1] == KNOWN_CACHES[..i] + [KNOWN_CACHES[i]]
    ensures KNOWN_CACHES[i] !in KNOWN_CACHES[..i]
    ensures CachesOf(source, KNOWN_CACHES[..i + 1])
            == CachesOf(source, KNOWN_CACHES[..i]) + if HasCache(source, KNOWN_CACHES[i]) then [KNOWN_CACHES[i]] else []
  {
    assert KNOWN_CACHES[0][0] != KNOWN_CACHES[1][0] && KNOWN_CACHES[0][0] != KNOWN_CACHES[2][0];
    assert KNOWN_CACHES[1][0] != KNOWN_CACHES[2][0];
    assert KNOWN_CACHES[..i + 1][..i] == KNOWN_CACHES[..i];
  }

  lemma NoCaches(source: Folder)
    ensures CachesOf(source, []) == []
  {
  }

  lemma CacheArchivable(source: Folder, name: Name)
    requires Archivable(source) && HasCache(source, name)
    ensures Archivable(CacheOf(source, name))
  {
    assert [CACHE, name][1..] == [name];
    forall p ensures Lookup(CacheOf(source, name), p) != Some(Whiteout) {
      var q := [CACHE] + ([name] + p);
      assert q[1..] == [name] + p && ([name] + p)[1..] == p;
      var path := [CACHE, name];
      assert path[0] == CACHE && path[1..] == [name];
      var top := source[CACHE].entries;
      assert Lookup(source, path) == Lookup(top, [name]);
      assert top[name] == Dir(CacheOf(source, name));
      if p != [] {
        assert Lookup(top, [name] + p) == Lookup(CacheOf(source, name), p);
        assert Lookup(source, q) == Lookup(top, [name] + p);
      }
    }
  }

  // ---------------------------------------------------------------------
  // Failed builds and retries
  // ---------------------------------------------------------------------

  /** What is left after attempts that each unpacked some members of the source, in any order. */
  ghost function AfterAttempts(attempts: seq<seq<Entry>>, left: Folder): Folder {
    if attempts == [] then left
    else AfterAttempts(attempts[1..], Replay(Verbatim, attempts[0], left))
  }

  lemma AttemptStaysWithin(es: seq<Entry>, left: Folder, source: Folder)
    requires PartOf(left, source) && forall e | e in es :: Has(source, e)
    ensures PartOf(Replay(Verbatim, es, left), source)
  {
    UnpackAdds(es, left, source);
    UnpackedIsReplay(es, left);
    var r := Replay(Verbatim, es, left);
    forall p | Lookup(r, p).Some?
      ensures Lookup(source, p).Some? && SameKind(Lookup(r, p).value, Lookup(source, p).value)
    {
      if Covered(es, p) {
        KindOfItem(r, source, p);
      } else {
        KindOfItem(r, left, p);
      }
    }
  }

  /** However many attempts on one source failed part way, whichever members they unpacked and
      in whatever order, the attempt that goes through leaves exactly the source tree. */
  lemma {:induction false} RetriedBuildIsExact(
    source: Folder, attempts: seq<seq<Entry>>, last: seq<Entry>, left: Folder)
    requires PartOf(left, source) && ListsAll(last, source)
    requires forall i, e | 0 <= i < |attempts| && e in attempts[i] :: Has(source, e)
    ensures Unpacked(last, AfterAttempts(attempts, left)) == Some(source)
    decreases |attempts|
  {
    if attempts == [] {
      UnpackOverLeftovers(last, left, source);
    } else {
      assert forall e | e in attempts[0] :: Has(source, e);
      AttemptStaysWithin(attempts[0], left, source);
      forall i, e | 0 <= i < |attempts[1..]| && e in attempts[1..][i] ensures Has(source, e) {
        assert e in attempts[i + 1];
      }
      RetriedBuildIsExact(source, attempts[1..], last, Replay(Verbatim, attempts[0], left));
    }
  }

  /** A first build leaves the source tree itself, empty directories included. */
  lemma FirstBuildIsExact(source: Folder)
    ensures Unpacked(UnpackOrder(Walk(source)), map[]) == Some(source)
  {
    OrderListsAll(source);
    forall p ensures Lookup(map[], p).None? {
      EmptyShowsNothing(p);
    }
    UnpackOverLeftovers(UnpackOrder(Walk(source)), map[], source);
  }
}
