/** `fastenv export-patch`: the recursive, directory-by-directory sorted archive of an upper tree. */
module ExportPatch {
  import opened Wrappers
  import opened Orders
  import opened Workspace
  import opened Overlay

  /** The archive under construction: the members appended so far. */
  class TarBuilder {
    var members: seq<Entry>

    constructor ()
      ensures members == []
    {
      members := [];
    }

    method Append(path: Path, item: Item)
      modifies this
      ensures members == old(members) + [Entry(path, item)]
    {
      members := members + [Entry(path, item)];
    }
  }

  /** The bytes of a path with its slashes. */
  function Length(p: Path): nat {
    if p == [] then 0 else if |p| == 1 then |p[0]| else |p[0]| + 1 + Length(p[1..])
  }

  /** Only a regular file may have a path that does not fit into the name field of a header. */
  predicate Fits(e: Entry) {
    e.item.FileItem? || Length(e.path) <= 100
  }

  /** The members before the first one that does not fit. */
  function Fitting(es: seq<Entry>): seq<Entry> {
    if es == [] || !Fits(es[0]) then [] else [es[0]] + Fitting(es[1..])
  }

  ghost predicate AllFit(es: seq<Entry>) {
    Fitting(es) == es
  }

  /** The fitting members are the longest prefix in which every member fits. */
  lemma {:induction false} FittingIsLongest(es: seq<Entry>)
    ensures Fitting(es) <= es && forall e | e in Fitting(es) :: Fits(e)
    ensures !AllFit(es) ==> |Fitting(es)| < |es| && !Fits(es[|Fitting(es)|])
    ensures AllFit(es) <==> forall e | e in es :: Fits(e)
  {
    if es != [] {
      FittingIsLongest(es[1..]);
      assert es == [es[0]] + es[1..];
    }
  }

  lemma {:induction false} FittingConcat(a: seq<Entry>, b: seq<Entry>)
    ensures Fitting(a + b) == if AllFit(a) then a + Fitting(b) else Fitting(a)
    ensures AllFit(a + b) <==> AllFit(a) && AllFit(b)
  {
    if a == [] {
      assert a + b == b;
    } else {
      assert (a + b)[1..] == a[1..] + b;
      FittingConcat(a[1..], b);
    }
  }

  /** The members for one entry: its own and those below it. */
  ghost function EntryMembers(at: Path, name: Name, n: Node): seq<Entry> {
    [Entry(at + [name], ItemOf(n))] + if n.Dir? then Relocate(at + [name], Walk(n.entries)) else []
  }

  /** The members for the entries from the i-th name on. */
  ghost function MembersFrom(dir: Folder, names: seq<Name>, i: nat, at: Path): seq<Entry>
    requires i <= |names| && forall n :: n in names ==> n in dir
  {
    Relocate(at, WalkNames(dir, names[i..]))
  }

  lemma NextMembers(dir: Folder, names: seq<Name>, i: nat, at: Path)
    requires i < |names| && forall n :: n in names ==> n in dir
    ensures var entry, rest := EntryMembers(at, names[i], dir[names[i]]), MembersFrom(dir, names, i + 1, at);
            var all := MembersFrom(dir, names, i, at);
            && Fitting(all) == (if AllFit(entry) then entry + Fitting(rest) else Fitting(entry))
            && (AllFit(all) <==> AllFit(entry) && AllFit(rest))
  {
    WalkStep(dir, names, i, at);
    RelocateNode(at, names[i], dir[names[i]]);
    FittingConcat(EntryMembers(at, names[i], dir[names[i]]), MembersFrom(dir, names, i + 1, at));
  }

  lemma LastMembers(dir: Folder, names: seq<Name>, at: Path)
    requires forall n :: n in names ==> n in dir
    ensures MembersFrom(dir, names, |names|, at) == []
  {
    assert WalkNames(dir, names[|names|..]) == [];
  }

  lemma AllMembers(dir: Folder, at: Path)
    ensures MembersFrom(dir, SortedNames(dir.Keys), 0, at) == Relocate(at, Walk(dir))
  {
    assert SortedNames(dir.Keys)[0..] == SortedNames(dir.Keys);
  }

  /** Append everything under `dir`, which sits at `at` below the upper root, up to the first
      directory or whiteout whose path does not fit. */
  method AppendDirRecursive(archive: TarBuilder, dir: Folder, at: Path) returns (ok: bool)
    modifies archive
    ensures archive.members == old(archive.members) + Fitting(Relocate(at, Walk(dir)))
    ensures ok <==> AllFit(Relocate(at, Walk(dir)))
    decreases Dir(dir), 0
  {
    hide SortedNames, Fits, Length, Fitting, AllFit, EntryMembers, MembersFrom, Walk, Relocate;
    var names := ReadDirSorted(dir);
    AllMembers(dir, at);
    ghost var start, all := archive.members, MembersFrom(dir, names, 0, at);
    for i := 0 to |names|
      invariant archive.members + Fitting(MembersFrom(dir, names, i, at)) == start + Fitting(all)
      invariant AllFit(MembersFrom(dir, names, i, at)) <==> AllFit(all)
    {
      NextMembers(dir, names, i, at);
      ghost var before := archive.members;
      ok := AppendEntry(archive, names[i], dir[names[i]], at);
      if !ok {
        return;
      }
      Regroup(before, EntryMembers(at, names[i], dir[names[i]]), [], Fitting(MembersFrom(dir, names, i + 1, at)));
    }
    LastMembers(dir, names, at);
    NothingFits();
    return true;
  }

  lemma NothingFits()
    ensures Fitting([]) == [] && AllFit([])
  {
  }

  lemma EntryFits(at: Path, name: Name, n: Node)
    ensures var head := Entry(at + [name], ItemOf(n));
            var below := if n.Dir? then Relocate(at + [name], Walk(n.entries)) else [];
            var all := EntryMembers(at, name, n);
            && Fitting(all) == (if Fits(head) then [head] + Fitting(below) else [])
            && (AllFit(all) <==> Fits(head) && AllFit(below))
            && (AllFit(all) ==> Fitting(all) == all)
  {
    var head := Entry(at + [name], ItemOf(n));
    assert [head][1..] == [];
    assert Fitting([head]) == if Fits(head) then [head] else [];
    FittingConcat([head], if n.Dir? then Relocate(at + [name], Walk(n.entries)) else []);
  }

  /** Append the member for one entry and, for a directory, recurse. */
  method AppendEntry(archive: TarBuilder, name: Name, node: Node, at: Path) returns (ok: bool)
    modifies archive
    ensures archive.members == old(archive.members) + Fitting(EntryMembers(at, name, node))
    ensures ok <==> AllFit(EntryMembers(at, name, node))
    ensures ok ==> archive.members == old(archive.members) + EntryMembers(at, name, node)
    decreases node, 1
  {
    hide Fitting, AllFit, EntryMembers, Walk, Relocate;
    EntryFits(at, name, node);
    NothingFits();
    if !node.File? && Length(at + [name]) > 100 {
      return false;
    }
    archive.Append(at + [name], ItemOf(node));
    ok := true;
    if node.Dir? {
      ok := AppendDirRecursive(archive, node.entries, at + [name]);
    }
  }

  /** The archive of an upper directory; one that was never created gives an empty archive. */
  method AppendUpperToTar(upper: Option<Folder>) returns (ok: bool, members: seq<Entry>)
    ensures var walk := if upper.Some? then Walk(upper.value) else [];
            members == Fitting(walk) && (ok <==> forall e | e in walk :: Fits(e))
  {
    var archive := new TarBuilder();
    ok := true;
    if upper.Some? {
      ok := AppendDirRecursive(archive, upper.value, []);
      RelocateNowhere(Walk(upper.value));
      FittingIsLongest(Walk(upper.value));
    }
    return ok, archive.members;
  }

  /** The export succeeds exactly when no directory and no whiteout has too long a path. The
      exported patch, replayed on the layers the fork is mounted over, is the merged view of the
      fork, and it can be read back into the upper tree it came from. */
  method ExportPatch(lowers: seq<Folder>, upper: Option<Folder>) returns (ok: bool, members: seq<Entry>)
    ensures var u := if upper.Some? then upper.value else map[];
            && (ok <==> forall p | Lookup(u, p).Some? && !Lookup(u, p).value.File? :: Length(p) <= 100)
            && (ok ==>
                  && Replay(Delta, members, MergeAll(lowers)) == MergeAll([u] + lowers)
                  && (forall p :: ItemAt(Replay(Delta, members, MergeAll(lowers)), p) == ViewStack([u] + lowers, p))
                  && Replay(Verbatim, members, map[]) == u)
  {
    ok, members := AppendUpperToTar(upper);
    ghost var u: Folder := if upper.Some? then upper.value else map[];
    assert Walk(map[]) == [];
    FitsEverywhere(u);
    FittingIsLongest(Walk(u));
    if ok {
      assert members == Walk(u);
      ReplayIsMerge(Delta, MergeAll(lowers), u);
      UnpackRebuilds(u);
      assert ([u] + lowers)[1..] == lowers;
      forall p ensures ItemAt(Replay(Delta, members, MergeAll(lowers)), p) == ViewStack([u] + lowers, p) {
        StackIsMerge([u] + lowers, p);
      }
    }
  }

  lemma FitsEverywhere(u: Folder)
    ensures (forall e | e in Walk(u) :: Fits(e)) <==>
            (forall p | Lookup(u, p).Some? && !Lookup(u, p).value.File? :: Length(p) <= 100)
  {
    hide Walk, Length;
    if forall e | e in Walk(u) :: Fits(e) {
      forall p | Lookup(u, p).Some? && !Lookup(u, p).value.File? ensures Length(p) <= 100 {
        var e := Entry(p, ItemOf(Lookup(u, p).value));
        WalkLists(u, e);
        assert Fits(e);
      }
    } else {
      var e :| e in Walk(u) && !Fits(e);
      WalkLists(u, e);
      assert Lookup(u, e.path).Some? && !Lookup(u, e.path).value.File? && !(Length(e.path) <= 100);
    }
  }
}
