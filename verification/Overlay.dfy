/** What an archive does when it is unpacked: replay of its members, the overlayfs
    merge of an upper over a lower tree, and the theorem that they coincide. */
module Overlay {
  import opened Wrappers
  import opened Workspace

  /** `Verbatim` unpacks 0:0 nodes as nodes, as `tar` does; `Delta` reads them as
      deletions, as overlayfs does. */
  datatype Mode = Verbatim | Delta

  function SubFolder(t: Folder, name: Name): Folder {
    if name in t && t[name].Dir? then t[name].entries else map[]
  }

  /** Unpack one member: ensure a directory, replace by a file, make or honour a whiteout. */
  function Put(mode: Mode, t: Folder, path: Path, item: Item): Folder
    decreases |path|
  {
    if path == [] then t
    else if |path| == 1 then
      match item
      case FileItem(c) => t[path[0] := File(c)]
      case DirItem => t[path[0] := Dir(SubFolder(t, path[0]))]
      case WhiteoutItem => if mode.Delta? then t - {path[0]} else t[path[0] := Whiteout]
    else t[path[0] := Dir(Put(mode, SubFolder(t, path[0]), path[1..], item))]
  }

  function Replay(mode: Mode, es: seq<Entry>, t: Folder): Folder
    decreases |es|
  {
    if es == [] then t else Replay(mode, es[1..], Put(mode, t, es[0].path, es[0].item))
  }

  /** What overlayfs shows under one name of an upper directory over `t`. */
  ghost function MergedNode(mode: Mode, t: Folder, name: Name, n: Node): Option<Node>
    decreases n, 2
  {
    match n
    case File(_) => Some(n)
    case Whiteout => if mode.Delta? then None else Some(n)
    case Dir(g) => Some(Dir(Merge(mode, SubFolder(t, name), g)))
  }

  ghost function MergedAt(mode: Mode, t: Folder, u: Folder, name: Name): Option<Node>
    decreases Dir(u), 0
  {
    if name in u then MergedNode(mode, t, name, u[name])
    else if name in t then Some(t[name]) else None
  }

  /** The overlay view of upper `u` over lower `t`, name by name. */
  ghost function Merge(mode: Mode, t: Folder, u: Folder): Folder
    decreases Dir(u), 1
  {
    map name | name in t.Keys + u.Keys && MergedAt(mode, t, u, name).Some? :: MergedAt(mode, t, u, name).value
  }

  ghost function At(f: Folder, name: Name): Option<Node> {
    if name in f then Some(f[name]) else None
  }

  lemma SameAtSameFolder(a: Folder, b: Folder)
    requires forall k :: At(a, k) == At(b, k)
    ensures a == b
  {
    forall k ensures k in a <==> k in b {
      assert At(a, k) == At(b, k);
    }
    forall k | k in a ensures a[k] == b[k] {
      assert At(a, k) == At(b, k);
    }
  }

  lemma MergeAt(mode: Mode, t: Folder, u: Folder, name: Name)
    ensures At(Merge(mode, t, u), name) == MergedAt(mode, t, u, name)
  {}

  // ---------------------------------------------------------------------
  // Replay of a walk is the merge
  // ---------------------------------------------------------------------

  lemma {:induction false} ReplayConcat(mode: Mode, a: seq<Entry>, b: seq<Entry>, t: Folder)
    ensures Replay(mode, a + b, t) == Replay(mode, b, Replay(mode, a, t))
    decreases |a|
  {
    if a == [] {
      assert a + b == b;
    } else {
      assert (a + b)[1..] == a[1..] + b;
      ReplayConcat(mode, a[1..], b, Put(mode, t, a[0].path, a[0].item));
    }
  }

  lemma {:induction false} ReplayBelow(mode: Mode, name: Name, es: seq<Entry>, t: Folder)
    requires forall e | e in es :: e.path != []
    requires name in t && t[name].Dir?
    ensures Replay(mode, Relocate([name], es), t) == t[name := Dir(Replay(mode, es, t[name].entries))]
    decreases |es|
  {
    var moved := Relocate([name], es);
    if es == [] {
      assert t[name := t[name]] == t;
    } else {
      var t' := Put(mode, t, moved[0].path, moved[0].item);
      assert moved[0].path[1..] == es[0].path;
      assert t' == t[name := Dir(Put(mode, t[name].entries, es[0].path, es[0].item))];
      assert moved[1..] == Relocate([name], es[1..]);
      ReplayBelow(mode, name, es[1..], t');
    }
  }

  lemma {:induction false} ReplayNode(mode: Mode, t: Folder, name: Name, n: Node)
    ensures forall k :: At(Replay(mode, WalkNode(name, n), t), k)
                     == if k == name then MergedNode(mode, t, name, n) else At(t, k)
    decreases n, 2
  {
    var head := [Entry([name], ItemOf(n))];
    var t' := Put(mode, t, [name], ItemOf(n));
    assert head[1..] == [];
    assert Replay(mode, head, t) == t';
    match n
    case File(_) =>
      assert WalkNode(name, n) == head;
    case Whiteout =>
      assert WalkNode(name, n) == head;
    case Dir(g) =>
      ReplayConcat(mode, head, Relocate([name], Walk(g)), t);
      forall e | e in Walk(g) ensures e.path != [] {
        WalkLists(g, e);
      }
      ReplayBelow(mode, name, Walk(g), t');
      ReplayIsMerge(mode, SubFolder(t, name), g);
  }

  lemma {:induction false} ReplayNames(mode: Mode, t: Folder, u: Folder, names: seq<Name>)
    requires forall n :: n in names ==> n in u
    requires forall i, j | 0 <= i < j < |names| :: names[i] != names[j]
    ensures forall k :: At(Replay(mode, WalkNames(u, names), t), k)
                     == if k in names then MergedAt(mode, t, u, k) else At(t, k)
    decreases Dir(u), 0, |names|
  {
    if names != [] {
      var first := WalkNode(names[0], u[names[0]]);
      var t' := Replay(mode, first, t);
      ReplayConcat(mode, first, WalkNames(u, names[1..]), t);
      ReplayNode(mode, t, names[0], u[names[0]]);
      ReplayNames(mode, t', u, names[1..]);
      forall k | k in names[1..] ensures MergedAt(mode, t', u, k) == MergedAt(mode, t, u, k) {
        assert At(t', k) == At(t, k);
        assert SubFolder(t', k) == SubFolder(t, k);
      }
    }
  }

  /** Replaying the walk of `u` onto `t`, member by member, is the overlay merge. */
  lemma {:induction false} ReplayIsMerge(mode: Mode, t: Folder, u: Folder)
    ensures Replay(mode, Walk(u), t) == Merge(mode, t, u)
    decreases Dir(u), 1
  {
    var names := SortedNames(u.Keys);
    SortedNamesListing(u);
    ReplayNames(mode, t, u, names);
    var r := Replay(mode, WalkNames(u, names), t);
    forall k ensures At(r, k) == At(Merge(mode, t, u), k) {
      MergeAt(mode, t, u, k);
    }
    SameAtSameFolder(r, Merge(mode, t, u));
  }

  // ---------------------------------------------------------------------
  // The merge, path by path
  // ---------------------------------------------------------------------

  function ItemAt(f: Folder, p: Path): Option<Item> {
    match Lookup(f, p)
    case None => None
    case Some(n) => Some(ItemOf(n))
  }

  /** Some proper ancestor of `p` is a file or a whiteout in the upper tree. */
  ghost predicate Masked(u: Folder, p: Path) {
    exists k | 0 < k < |p| :: Lookup(u, p[..k]).Some? && !Lookup(u, p[..k]).value.Dir?
  }

  /** The overlay rule for a single path: the upper tree decides where it has the
      path, hides everything below its own non-directories, and otherwise the lower
      tree shows through. */
  ghost function View(mode: Mode, t: Folder, u: Folder, p: Path): Option<Item> {
    match Lookup(u, p)
    case Some(Whiteout) => if mode.Delta? then None else Some(WhiteoutItem)
    case Some(n) => Some(ItemOf(n))
    case None => if Masked(u, p) then None else ItemAt(t, p)
  }

  lemma {:induction false} MaskedBelow(u: Folder, p: Path)
    requires |p| > 1
    ensures Masked(u, p) <==> p[0] in u && (u[p[0]].Dir? ==> Masked(u[p[0]].entries, p[1..]))
  {
    if p[0] in u && !u[p[0]].Dir? {
      assert p[..1] == [p[0]];
      assert Lookup(u, p[..1]) == Some(u[p[0]]);
    }
    forall k | 1 < k < |p| ensures p[..k][1..] == p[1..][..k - 1] {}
    if Masked(u, p) {
      var k :| 0 < k < |p| && Lookup(u, p[..k]).Some? && !Lookup(u, p[..k]).value.Dir?;
      if p[0] in u && u[p[0]].Dir? {
        assert k > 1;
        assert Lookup(u[p[0]].entries, p[1..][..k - 1]) == Lookup(u, p[..k]);
      }
    }
    if p[0] in u && u[p[0]].Dir? && Masked(u[p[0]].entries, p[1..]) {
      var g := u[p[0]].entries;
      var k :| 0 < k < |p[1..]| && Lookup(g, p[1..][..k]).Some? && !Lookup(g, p[1..][..k]).value.Dir?;
      assert p[..k + 1][1..] == p[1..][..k];
      assert Lookup(u, p[..k + 1]) == Lookup(g, p[1..][..k]);
    }
  }

  lemma {:induction false} MergeView(mode: Mode, t: Folder, u: Folder, p: Path)
    ensures ItemAt(Merge(mode, t, u), p) == View(mode, t, u, p)
    decreases |p|
  {
    if p != [] {
      var m := Merge(mode, t, u);
      MergeAt(mode, t, u, p[0]);
      if |p| > 1 {
        MaskedBelow(u, p);
        if p[0] in u && u[p[0]].Dir? {
          var s, g := SubFolder(t, p[0]), u[p[0]].entries;
          MergeView(mode, s, g, p[1..]);
          assert Lookup(m, p) == Lookup(Merge(mode, s, g), p[1..]);
          assert Lookup(u, p) == Lookup(g, p[1..]);
          assert Lookup(t, p) == Lookup(s, p[1..]);
        } else {
          assert Lookup(u, p) == None;
          assert p[0] !in u ==> Lookup(m, p) == Lookup(t, p);
        }
      }
    }
  }

  /** The exported layer carries the full delta: replayed on the lower tree it shows,
      at every path, exactly what the overlay of the upper over the lower shows. */
  lemma ReplayShowsOverlay(mode: Mode, t: Folder, u: Folder, p: Path)
    ensures ItemAt(Replay(mode, Walk(u), t), p) == View(mode, t, u, p)
  {
    ReplayIsMerge(mode, t, u);
    MergeView(mode, t, u, p);
  }

  // ---------------------------------------------------------------------
  // Any number of layers
  // ---------------------------------------------------------------------

  /** What an overlay of several layers, the top one first, shows at a path: the first layer that
      has the path or hides what is below decides. */
  ghost function ViewStack(layers: seq<Folder>, p: Path): Option<Item> {
    if layers == [] then None
    else match Lookup(layers[0], p)
      case Some(Whiteout) => None
      case Some(n) => Some(ItemOf(n))
      case None => if Masked(layers[0], p) then None else ViewStack(layers[1..], p)
  }

  /** The layers merged two at a time, from the lowest up. */
  ghost function MergeAll(layers: seq<Folder>): Folder {
    if layers == [] then map[] else Merge(Delta, MergeAll(layers[1..]), layers[0])
  }

  /** An overlay of any number of layers is the overlay of its top layer over the merge of the
      others. */
  lemma {:induction false} StackIsMerge(layers: seq<Folder>, p: Path)
    ensures ItemAt(MergeAll(layers), p) == ViewStack(layers, p)
  {
    if layers == [] {
      EmptyShowsNothing(p);
    } else {
      MergeView(Delta, MergeAll(layers[1..]), layers[0], p);
      StackIsMerge(layers[1..], p);
    }
  }

  // ---------------------------------------------------------------------
  // Round trips
  // ---------------------------------------------------------------------

  lemma SameItemsSameTree(a: Folder, b: Folder)
    requires forall p :: ItemAt(a, p) == ItemAt(b, p)
    ensures a == b
  {
    forall e ensures Has(a, e) <==> Has(b, e) {
      assert ItemAt(a, e.path) == ItemAt(b, e.path);
    }
    SameLookupsSameTree(a, b);
  }

  lemma {:induction false} EmptyShowsNothing(p: Path)
    ensures Lookup(map[], p) == None
  {}

  /** Unpacking into an empty directory rebuilds the tree, empty directories and
      whiteout nodes included. */
  lemma UnpackRebuilds(u: Folder)
    ensures Replay(Verbatim, Walk(u), map[]) == u
  {
    var r := Replay(Verbatim, Walk(u), map[]);
    forall p ensures ItemAt(r, p) == ItemAt(u, p) {
      ReplayShowsOverlay(Verbatim, map[], u, p);
      EmptyShowsNothing(p);
    }
    SameItemsSameTree(r, u);
  }

  /** The member list determines the tree. */
  lemma ArchiveDeterminesTree(a: Folder, b: Folder)
    requires Walk(a) == Walk(b)
    ensures a == b
  {
    UnpackRebuilds(a);
    UnpackRebuilds(b);
  }

  // ---------------------------------------------------------------------
  // Unpacking over what is already there, in any order
  // ---------------------------------------------------------------------

  predicate SameKind(a: Node, b: Node) { a.Dir? == b.Dir? }

  /** Unpacking the member fails: there is a directory where a file belongs, or something else
      where a directory does. */
  predicate Clashes(t: Folder, path: Path, item: Item)
    decreases |path|
  {
    path != [] && path[0] in t &&
    if |path| == 1 then t[path[0]].Dir? != item.DirItem?
    else !t[path[0]].Dir? || Clashes(t[path[0]].entries, path[1..], item)
  }

  /** Unpack the members in the order given, or fail at the first clash. */
  function Unpacked(es: seq<Entry>, t: Folder): Option<Folder>
    decreases |es|
  {
    if es == [] then Some(t)
    else if Clashes(t, es[0].path, es[0].item) then None
    else Unpacked(es[1..], Put(Verbatim, t, es[0].path, es[0].item))
  }

  lemma {:induction false} UnpackedIsReplay(es: seq<Entry>, t: Folder)
    requires Unpacked(es, t).Some?
    ensures Unpacked(es, t).value == Replay(Verbatim, es, t)
    decreases |es|
  {
    if es != [] {
      UnpackedIsReplay(es[1..], Put(Verbatim, t, es[0].path, es[0].item));
    }
  }

  /** Where both trees have a path, they have the same kind of node there. */
  ghost predicate Compatible(t: Folder, u: Folder) {
    forall p | Lookup(t, p).Some? && Lookup(u, p).Some? :: SameKind(Lookup(t, p).value, Lookup(u, p).value)
  }

  lemma CompatibleBelow(t: Folder, u: Folder, name: Name)
    requires Compatible(t, u) && name in u && u[name].Dir?
    ensures name in t ==> t[name].Dir?
    ensures Compatible(SubFolder(t, name), u[name].entries)
  {
    assert Lookup(t, [name]) == (if name in t then Some(t[name]) else None) && Lookup(u, [name]) == Some(u[name]);
    var s, g := SubFolder(t, name), u[name].entries;
    forall p | Lookup(s, p).Some? && Lookup(g, p).Some? ensures SameKind(Lookup(s, p).value, Lookup(g, p).value) {
      var q := [name] + p;
      assert q[1..] == p;
      assert Lookup(t, q) == Lookup(s, p) && Lookup(u, q) == Lookup(g, p);
    }
  }

  /** Unpacking a member of `u` over a compatible tree adds the member and its ancestors, and
      changes nothing else. */
  lemma {:induction false} PutAdds(t: Folder, u: Folder, e: Entry, p: Path)
    requires Compatible(t, u) && Has(u, e)
    ensures !Clashes(t, e.path, e.item)
    ensures ItemAt(Put(Verbatim, t, e.path, e.item), p) == if p != [] && p <= e.path then ItemAt(u, p) else ItemAt(t, p)
    decreases |e.path|
  {
    var name := e.path[0];
    assert Lookup(t, [name]) == (if name in t then Some(t[name]) else None) && Lookup(u, [name]) == Some(u[name]);
    if |e.path| == 1 {
      assert e.path == [name];
      assert name in t ==> SameKind(t[name], u[name]);
      assert p != [] && p[0] != name ==> !(p <= e.path);
      if |p| == 1 && p[0] == name {
        assert p == e.path;
      }
      if |p| > 1 {
        assert !(p <= e.path);
        assert p[0] == name ==> Lookup(Put(Verbatim, t, e.path, e.item), p) == Lookup(t, p);
      }
    } else {
      CompatibleBelow(t, u, name);
      var below := Entry(e.path[1..], e.item);
      assert Has(u[name].entries, below);
      PutAdds(SubFolder(t, name), u[name].entries, below, if p != [] then p[1..] else []);
      if |p| > 1 && p[0] == name {
        assert p <= e.path <==> p[1..] <= e.path[1..];
      }
    }
  }

  ghost predicate Covered(es: seq<Entry>, p: Path) {
    exists e :: e in es && p != [] && p <= e.path
  }

  lemma KindOfItem(t: Folder, u: Folder, p: Path)
    requires ItemAt(t, p) == ItemAt(u, p) && Lookup(t, p).Some? && Lookup(u, p).Some?
    ensures SameKind(Lookup(t, p).value, Lookup(u, p).value)
  {
  }

  lemma PutStaysCompatible(t: Folder, u: Folder, e: Entry)
    requires Compatible(t, u) && Has(u, e)
    ensures Compatible(Put(Verbatim, t, e.path, e.item), u)
  {
    var t' := Put(Verbatim, t, e.path, e.item);
    forall p | Lookup(t', p).Some? && Lookup(u, p).Some? ensures SameKind(Lookup(t', p).value, Lookup(u, p).value) {
      PutAdds(t, u, e, p);
      if p != [] && p <= e.path {
        KindOfItem(t', u, p);
      } else {
        KindOfItem(t', t, p);
      }
    }
  }

  /** Any members of `u`, in any order, unpacked over a compatible tree: no clash, and the paths
      at or above a member are as in `u`, all others as they were. */
  lemma {:induction false} UnpackAdds(es: seq<Entry>, t: Folder, u: Folder)
    requires Compatible(t, u) && forall e | e in es :: Has(u, e)
    ensures Unpacked(es, t).Some? && Compatible(Unpacked(es, t).value, u)
    ensures forall p :: ItemAt(Unpacked(es, t).value, p) == if Covered(es, p) then ItemAt(u, p) else ItemAt(t, p)
    decreases |es|
  {
    if es != [] {
      var e, rest := es[0], es[1..];
      var t' := Put(Verbatim, t, e.path, e.item);
      assert e in es && forall x | x in rest :: x in es;
      PutAdds(t, u, e, []);
      PutStaysCompatible(t, u, e);
      UnpackAdds(rest, t', u);
      forall p ensures ItemAt(Unpacked(es, t).value, p) == if Covered(es, p) then ItemAt(u, p) else ItemAt(t, p) {
        PutAdds(t, u, e, p);
        CoveredFirst(es, p);
      }
    }
  }

  lemma CoveredFirst(es: seq<Entry>, p: Path)
    requires es != []
    ensures Covered(es, p) <==> (p != [] && p <= es[0].path) || Covered(es[1..], p)
  {
    assert es[0] in es && forall x | x in es :: x == es[0] || x in es[1..];
    assert forall x | x in es[1..] :: x in es;
  }

  /** The list holds exactly the members of `u`. */
  ghost predicate ListsAll(es: seq<Entry>, u: Folder) {
    forall e :: e in es <==> Has(u, e)
  }

  lemma CoveredByAll(es: seq<Entry>, u: Folder, p: Path)
    requires ListsAll(es, u)
    ensures Covered(es, p) <==> Lookup(u, p).Some?
  {
    if Lookup(u, p).Some? {
      var e := Entry(p, ItemOf(Lookup(u, p).value));
      assert Has(u, e) && e in es && p <= e.path && p != [];
    }
    if Covered(es, p) {
      var e :| e in es && p != [] && p <= e.path;
      AncestorsExist(u, e.path, p);
    }
  }

  /** A member unpacked without a clash takes nothing away and changes no kind. */
  lemma {:induction false} PutKeepsKinds(t: Folder, path: Path, item: Item, p: Path)
    requires !Clashes(t, path, item) && Lookup(t, p).Some?
    ensures Lookup(Put(Verbatim, t, path, item), p).Some?
    ensures SameKind(Lookup(Put(Verbatim, t, path, item), p).value, Lookup(t, p).value)
    decreases |path|
  {
    if path != [] && p[0] == path[0] && |path| > 1 && |p| > 1 {
      PutKeepsKinds(SubFolder(t, path[0]), path[1..], item, p[1..]);
    }
  }

  lemma {:induction false} WrongKindClashes(t: Folder, path: Path, item: Item)
    requires Lookup(t, path).Some? && Lookup(t, path).value.Dir? != item.DirItem?
    ensures Clashes(t, path, item)
    decreases |path|
  {
    if |path| > 1 {
      WrongKindClashes(t[path[0]].entries, path[1..], item);
    }
  }

  lemma {:induction false} UnpackMeetsClash(es: seq<Entry>, t: Folder, e: Entry)
    requires e in es && Lookup(t, e.path).Some? && Lookup(t, e.path).value.Dir? != e.item.DirItem?
    ensures Unpacked(es, t).None?
    decreases |es|
  {
    WrongKindClashes(t, e.path, e.item);
    if es[0] != e && !Clashes(t, es[0].path, es[0].item) {
      PutKeepsKinds(t, es[0].path, es[0].item, e.path);
      UnpackMeetsClash(es[1..], Put(Verbatim, t, es[0].path, es[0].item), e);
    }
  }

  /** Unpacking a whole archive, in whatever order, succeeds exactly when the directory it goes
      into is compatible with it; it then shows the archive wherever the archive has a path,
      and what was there everywhere else. */
  lemma UnpackSucceedsExactly(es: seq<Entry>, t: Folder, u: Folder)
    requires ListsAll(es, u)
    ensures Unpacked(es, t).Some? <==> Compatible(t, u)
    ensures Unpacked(es, t).Some? ==>
      forall p :: ItemAt(Unpacked(es, t).value, p) == if Lookup(u, p).Some? then ItemAt(u, p) else ItemAt(t, p)
  {
    if Compatible(t, u) {
      UnpackAdds(es, t, u);
      forall p ensures ItemAt(Unpacked(es, t).value, p) == if Lookup(u, p).Some? then ItemAt(u, p) else ItemAt(t, p) {
        CoveredByAll(es, u, p);
      }
    } else {
      var p :| Lookup(t, p).Some? && Lookup(u, p).Some? && !SameKind(Lookup(t, p).value, Lookup(u, p).value);
      var e := Entry(p, ItemOf(Lookup(u, p).value));
      assert Has(u, e);
      UnpackMeetsClash(es, t, e);
    }
  }

  /** Everything in `left` is in `u` too, and of the same kind. */
  ghost predicate PartOf(left: Folder, u: Folder) {
    forall p | Lookup(left, p).Some? :: Lookup(u, p).Some? && SameKind(Lookup(left, p).value, Lookup(u, p).value)
  }

  /** Unpacking a whole archive over a directory that already holds `left` succeeds with exactly
      the source tree just when `left` has nothing that the source has not, in kind as in path. */
  lemma UnpackOverLeftovers(es: seq<Entry>, left: Folder, u: Folder)
    requires ListsAll(es, u)
    ensures Unpacked(es, left) == Some(u) <==> PartOf(left, u)
  {
    UnpackSucceedsExactly(es, left, u);
    var r := Unpacked(es, left);
    if PartOf(left, u) {
      forall p ensures ItemAt(r.value, p) == ItemAt(u, p) {
        assert Lookup(left, p).Some? ==> Lookup(u, p).Some?;
      }
      SameItemsSameTree(r.value, u);
    }
    if r == Some(u) {
      forall p | Lookup(left, p).Some?
        ensures Lookup(u, p).Some? && SameKind(Lookup(left, p).value, Lookup(u, p).value)
      {
        assert ItemAt(u, p) == if Lookup(u, p).Some? then ItemAt(u, p) else ItemAt(left, p);
      }
    }
  }
}
