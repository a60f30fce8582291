/** Workspace trees: directories, regular files and overlayfs 0:0 whiteout nodes,
    and the sorted pre-order walk that the archive, diff and export commands share. */
module Workspace {
  import opened Wrappers
  import opened Orders
  import opened Bytes

  type Name = seq<byte>
  type Path = seq<Name>
  type Folder = map<Name, Node>

  datatype Node =
    | File(content: seq<byte>)
    | Whiteout
    | Dir(entries: map<Name, Node>)

  datatype Item = FileItem(content: seq<byte>) | WhiteoutItem | DirItem

  /** One archive member: a path relative to the archived directory and what it is. */
  datatype Entry = Entry(path: Path, item: Item)

  function ItemOf(n: Node): Item {
    match n
    case File(c) => FileItem(c)
    case Whiteout => WhiteoutItem
    case Dir(_) => DirItem
  }

  function Lookup(f: Folder, p: Path): Option<Node>
    decreases |p|
  {
    if p == [] || p[0] !in f then None
    else if |p| == 1 then Some(f[p[0]])
    else match f[p[0]]
      case Dir(g) => Lookup(g, p[1..])
      case _ => None
  }

  // ---------------------------------------------------------------------
  // Orders: file names by bytes, paths component by component
  // ---------------------------------------------------------------------

  predicate NameLess(a: Name, b: Name) {
    b != [] && (a == [] || a[0] < b[0] || (a[0] == b[0] && NameLess(a[1..], b[1..])))
  }

  predicate NameLeq(a: Name, b: Name) { !NameLess(b, a) }

  predicate PathLess(a: Path, b: Path) {
    b != [] && (a == [] || NameLess(a[0], b[0]) || (a[0] == b[0] && PathLess(a[1..], b[1..])))
  }

  predicate EntryLess(a: Entry, b: Entry) { PathLess(a.path, b.path) }

  /** One name comes before another exactly when it is a proper prefix of it, or has the smaller byte
      where the two first differ. */
  lemma {:induction false} NameLessExactly(a: Name, b: Name, k: nat)
    requires k <= |a| && k <= |b| && a[..k] == b[..k]
    requires k == |a| || k == |b| || a[k] != b[k]
    ensures NameLess(a, b) <==> k < |b| && (k == |a| || a[k] < b[k])
    decreases k
  {
    if k > 0 {
      assert a[0] == a[..k][0] == b[..k][0] == b[0];
      assert a[1..][..k - 1] == a[..k][1..] && b[1..][..k - 1] == b[..k][1..];
      NameLessExactly(a[1..], b[1..], k - 1);
    }
  }

  lemma {:induction false} NameLessTransitive(a: Name, b: Name, c: Name)
    requires NameLess(a, b) && NameLess(b, c)
    ensures NameLess(a, c)
  {
    if a != [] && a[0] == b[0] == c[0] {
      NameLessTransitive(a[1..], b[1..], c[1..]);
    }
  }

  lemma {:induction false} NameLessTotal(a: Name, b: Name)
    ensures a == b || NameLess(a, b) || NameLess(b, a)
    ensures !NameLess(a, a)
    ensures NameLess(a, b) ==> !NameLess(b, a)
  {
    if a != [] {
      NameLessTotal(a[1..], a[1..]);
      if b != [] {
        NameLessTotal(a[1..], b[1..]);
        assert a == [a[0]] + a[1..] && b == [b[0]] + b[1..];
      }
    }
  }

  lemma NameLeqTransitive(a: Name, b: Name, c: Name)
    requires NameLeq(a, b) && NameLeq(b, c)
    ensures NameLeq(a, c)
  {
    NameLessTotal(a, b);
    NameLessTotal(b, c);
    if NameLess(c, a) && a != b {
      NameLessTransitive(c, a, b);
    }
  }

  lemma NameOrderStrict()
    ensures StrictOrder(NameLess)
  {
    forall a, b, c | NameLess(a, b) && NameLess(b, c) ensures NameLess(a, c) {
      NameLessTransitive(a, b, c);
    }
    forall a ensures !NameLess(a, a) {
      NameLessTotal(a, a);
    }
  }

  lemma NameOrderTotal()
    ensures TotalPreorder(NameLeq)
  {
    forall a, b ensures NameLeq(a, b) || NameLeq(b, a) {
      NameLessTotal(a, b);
    }
    forall a, b, c | NameLeq(a, b) && NameLeq(b, c) ensures NameLeq(a, c) {
      NameLeqTransitive(a, b, c);
    }
  }

  lemma {:induction false} PathLessTransitive(a: Path, b: Path, c: Path)
    requires PathLess(a, b) && PathLess(b, c)
    ensures PathLess(a, c)
  {
    if a != [] {
      if NameLess(a[0], b[0]) && NameLess(b[0], c[0]) {
        NameLessTransitive(a[0], b[0], c[0]);
      } else if a[0] == b[0] == c[0] {
        PathLessTransitive(a[1..], b[1..], c[1..]);
      }
    }
  }

  lemma {:induction false} PathLessTotal(a: Path, b: Path)
    ensures a == b || PathLess(a, b) || PathLess(b, a)
    ensures !PathLess(a, a)
    ensures PathLess(a, b) ==> !PathLess(b, a)
  {
    if a != [] {
      NameLessTotal(a[0], a[0]);
      PathLessTotal(a[1..], a[1..]);
      if b != [] {
        NameLessTotal(a[0], b[0]);
        PathLessTotal(a[1..], b[1..]);
        assert a == [a[0]] + a[1..] && b == [b[0]] + b[1..];
      }
    }
  }

  lemma EntryOrder()
    ensures StrictOrder(EntryLess)
  {
    forall a: Entry, b: Entry, c: Entry | EntryLess(a, b) && EntryLess(b, c) ensures EntryLess(a, c) {
      PathLessTransitive(a.path, b.path, c.path);
    }
    forall a: Entry ensures !EntryLess(a, a) {
      PathLessTotal(a.path, a.path);
    }
  }

  // ---------------------------------------------------------------------
  // Sorted directory listings
  // ---------------------------------------------------------------------

  ghost predicate Listing(f: Folder, names: seq<Name>) {
    NoDuplicates(names) && forall n :: n in names <==> n in f
  }

  ghost predicate IsLeast(m: Name, s: set<Name>) {
    m in s && forall x | x in s && x != m :: NameLess(m, x)
  }

  lemma {:induction false} LeastExists(s: set<Name>) returns (m: Name)
    requires s != {}
    ensures IsLeast(m, s)
  {
    m :| m in s;
    var rest := s - {m};
    assert s == {m} + rest;
    if rest != {} {
      var k := LeastExists(rest);
      NameLessTotal(m, k);
      if NameLess(k, m) {
        m := k;
      } else {
        forall x | x in rest ensures NameLess(m, x) {
          if x != k {
            NameLessTransitive(m, k, x);
          }
        }
      }
    }
  }

  ghost function Least(s: set<Name>): (m: Name)
    requires s != {}
    ensures IsLeast(m, s)
  {
    assert exists m :: IsLeast(m, s) by { var k := LeastExists(s); }
    var m :| IsLeast(m, s);
    m
  }

  /** The names of a directory in the order `sort_by_key(file_name)` puts them. */
  ghost function SortedNames(s: set<Name>): (names: seq<Name>)
    ensures forall n :: n in names <==> n in s
    ensures Increasing(NameLess, names)
  {
    if s == {} then []
    else
      var m := Least(s);
      [m] + SortedNames(s - {m})
  }

  lemma IncreasingNamesDistinct(names: seq<Name>)
    requires Increasing(NameLess, names)
    ensures NoDuplicates(names)
  {
    forall i, j | 0 <= i < j < |names| ensures names[i] != names[j] {
      NameLessTotal(names[i], names[j]);
      assert NameLess(names[i], names[j]);
    }
  }

  lemma SortedNamesListing(f: Folder)
    ensures Listing(f, SortedNames(f.Keys))
  {
    IncreasingNamesDistinct(SortedNames(f.Keys));
  }

  /** `read_dir`: the entries of a directory in whatever order the file system lists them. */
  method ReadDir(f: Folder) returns (names: seq<Name>)
    ensures Listing(f, names)
  {
    names := [];
    var left := f.Keys;
    while left != {}
      invariant left <= f.Keys
      invariant NoDuplicates(names)
      invariant forall n :: n in names <==> n in f.Keys - left
      decreases left
    {
      var n :| n in left;
      left := left - {n};
      assert forall i | 0 <= i < |names| :: names[i] in names;
      names := names + [n];
    }
  }

  /** `read_dir` followed by `sort_by_key(|e| e.file_name())`: the listing order no longer matters. */
  method ReadDirSorted(f: Folder) returns (names: seq<Name>)
    ensures names == SortedNames(f.Keys)
  {
    var listed := ReadDir(f);
    NameOrderTotal();
    names := SortBy(listed, NameLeq);
    NoDuplicatesIsMultisetProperty(listed, names);
    forall i, j | 0 <= i < j < |names| ensures NameLess(names[i], names[j]) {
      NameLessTotal(names[i], names[j]);
      assert NameLeq(names[i], names[j]);
    }
    forall n ensures n in names <==> n in SortedNames(f.Keys) {
      assert n in names <==> n in multiset(names);
      assert n in listed <==> n in multiset(listed);
    }
    NameOrderStrict();
    SameElementsSameSequence(NameLess, names, SortedNames(f.Keys));
  }

  // ---------------------------------------------------------------------
  // The sorted pre-order walk
  // ---------------------------------------------------------------------

  ghost function Relocate(at: Path, es: seq<Entry>): (r: seq<Entry>)
    ensures |r| == |es|
    ensures forall i | 0 <= i < |es| :: r[i] == Entry(at + es[i].path, es[i].item)
  {
    seq(|es|, i requires 0 <= i < |es| => Entry(at + es[i].path, es[i].item))
  }

  /** Pre-order, each directory sorted by file name, paths relative to `f`. */
  ghost function Walk(f: Folder): seq<Entry>
    decreases Dir(f), 1, 0
  {
    WalkNames(f, SortedNames(f.Keys))
  }

  ghost function WalkNames(f: Folder, names: seq<Name>): seq<Entry>
    requires forall n :: n in names ==> n in f
    decreases Dir(f), 0, |names|
  {
    if names == [] then []
    else WalkNode(names[0], f[names[0]]) + WalkNames(f, names[1..])
  }

  ghost function WalkNode(name: Name, n: Node): seq<Entry>
    decreases n, 2, 0
  {
    [Entry([name], ItemOf(n))] + match n
      case Dir(g) => Relocate([name], Walk(g))
      case _ => []
  }

  lemma RelocateTwice(at: Path, name: Name, es: seq<Entry>)
    ensures Relocate(at, Relocate([name], es)) == Relocate(at + [name], es)
  {
    forall i | 0 <= i < |es|
      ensures Relocate(at, Relocate([name], es))[i] == Relocate(at + [name], es)[i]
    {
      assert at + ([name] + es[i].path) == at + [name] + es[i].path;
    }
  }

  lemma RelocateConcat(at: Path, a: seq<Entry>, b: seq<Entry>)
    ensures Relocate(at, a + b) == Relocate(at, a) + Relocate(at, b)
  {}

  lemma RelocateNowhere(es: seq<Entry>)
    ensures Relocate([], es) == es
  {
    forall i | 0 <= i < |es| ensures Relocate([], es)[i] == es[i] {
      assert [] + es[i].path == es[i].path;
    }
  }

  lemma WalkStep(f: Folder, names: seq<Name>, i: nat, at: Path)
    requires forall n :: n in names ==> n in f
    requires i < |names|
    ensures Relocate(at, WalkNames(f, names[i..]))
         == Relocate(at, WalkNode(names[i], f[names[i]])) + Relocate(at, WalkNames(f, names[i + 1..]))
  {
    assert names[i..][1..] == names[i + 1..];
    RelocateConcat(at, WalkNode(names[i], f[names[i]]), WalkNames(f, names[i + 1..]));
  }

  lemma RelocateNode(at: Path, name: Name, n: Node)
    ensures Relocate(at, WalkNode(name, n))
         == [Entry(at + [name], ItemOf(n))] + if n.Dir? then Relocate(at + [name], Walk(n.entries)) else []
  {
    match n
    case Dir(g) =>
      RelocateConcat(at, [Entry([name], DirItem)], Relocate([name], Walk(g)));
      RelocateTwice(at, name, Walk(g));
    case _ =>
  }

  // The walk lists exactly the nodes of the tree, once each, in path order.

  ghost predicate Has(f: Folder, e: Entry) {
    Lookup(f, e.path).Some? && e.item == ItemOf(Lookup(f, e.path).value)
  }

  lemma {:induction false} WalkLists(f: Folder, e: Entry)
    ensures e in Walk(f) <==> Has(f, e)
    decreases Dir(f), 1, 0
  {
    WalkNamesLists(f, SortedNames(f.Keys), e);
  }

  lemma {:induction false} WalkNamesLists(f: Folder, names: seq<Name>, e: Entry)
    requires forall n :: n in names ==> n in f
    ensures e in WalkNames(f, names) <==> Has(f, e) && e.path[0] in names
    decreases Dir(f), 0, |names|
  {
    if names != [] {
      WalkNodeLists(f, names[0], e);
      WalkNamesLists(f, names[1..], e);
      assert names == [names[0]] + names[1..];
    }
  }

  lemma {:induction false} WalkNodeLists(f: Folder, name: Name, e: Entry)
    requires name in f
    ensures e in WalkNode(name, f[name]) <==> Has(f, e) && e.path[0] == name
    decreases f[name], 2, 0
  {
    hide Walk;
    if |e.path| == 1 {
      assert e.path == [e.path[0]];
    }
    match f[name]
    case File(_) =>
    case Whiteout =>
    case Dir(g) =>
      var inner, moved := Walk(g), Relocate([name], Walk(g));
      if e in moved {
        var i :| 0 <= i < |inner| && moved[i] == e;
        WalkLists(g, inner[i]);
        assert e.path[1..] == inner[i].path;
      }
      if Has(f, e) && e.path[0] == name && |e.path| > 1 {
        var e' := Entry(e.path[1..], e.item);
        WalkLists(g, e');
        var i :| 0 <= i < |inner| && inner[i] == e';
        assert e.path == [name] + e.path[1..];
        assert moved[i] == e;
      }
  }

  lemma {:induction false} WalkIncreasing(f: Folder)
    ensures Increasing(EntryLess, Walk(f))
    decreases Dir(f), 1, 0
  {
    WalkNamesIncreasing(f, SortedNames(f.Keys));
  }

  lemma {:induction false} WalkNamesIncreasing(f: Folder, names: seq<Name>)
    requires forall n :: n in names ==> n in f
    requires Increasing(NameLess, names)
    ensures Increasing(EntryLess, WalkNames(f, names))
    decreases Dir(f), 0, |names|
  {
    if names != [] {
      var head, tail := WalkNode(names[0], f[names[0]]), WalkNames(f, names[1..]);
      WalkNodeIncreasing(names[0], f[names[0]]);
      WalkNamesIncreasing(f, names[1..]);
      forall i, j | 0 <= i < |head| && 0 <= j < |tail| ensures EntryLess(head[i], tail[j]) {
        WalkNodeLists(f, names[0], head[i]);
        WalkNamesLists(f, names[1..], tail[j]);
        assert NameLess(names[0], tail[j].path[0]);
      }
    }
  }

  lemma {:induction false} WalkNodeIncreasing(name: Name, n: Node)
    ensures Increasing(EntryLess, WalkNode(name, n))
    decreases n, 2, 0
  {
    match n
    case File(_) =>
    case Whiteout =>
    case Dir(g) =>
      WalkIncreasing(g);
      forall e | e in Walk(g) ensures e.path != [] {
        WalkLists(g, e);
      }
      BelowDirectory(name, Walk(g));
  }

  lemma BelowDirectory(name: Name, es: seq<Entry>)
    requires Increasing(EntryLess, es) && forall e | e in es :: e.path != []
    ensures Increasing(EntryLess, [Entry([name], DirItem)] + Relocate([name], es))
  {
    var w := [Entry([name], DirItem)] + Relocate([name], es);
    forall i, j | 0 <= i < j < |w| ensures EntryLess(w[i], w[j]) {
      assert w[j].path[1..] == es[j - 1].path;
      if i > 0 {
        assert w[i].path[1..] == es[i - 1].path;
        assert EntryLess(es[i - 1], es[j - 1]);
      } else {
        assert w[i].path[1..] == [];
      }
    }
  }

  lemma {:induction false} AncestorsExist(f: Folder, path: Path, p: Path)
    requires Lookup(f, path).Some? && p <= path && p != []
    ensures Lookup(f, p).Some?
    decreases |path|
  {
    if |p| > 1 {
      assert p[0] == path[0] && p[1..] <= path[1..];
      AncestorsExist(f[p[0]].entries, path[1..], p[1..]);
    }
  }

  /** Every directory is listed before anything below it. */
  lemma DirectoriesFirst(f: Folder, i: nat, j: nat)
    requires i < |Walk(f)| && j < |Walk(f)|
    requires Walk(f)[i].path < Walk(f)[j].path
    ensures i < j
  {
    WalkIncreasing(f);
    var a, b := Walk(f)[i], Walk(f)[j];
    ProperPrefixIsLess(a.path, b.path);
    PathLessTotal(a.path, b.path);
    assert EntryLess(a, b) && !EntryLess(b, a);
  }

  lemma {:induction false} ProperPrefixIsLess(a: Path, b: Path)
    requires a < b
    ensures PathLess(a, b)
  {
    if a != [] {
      ProperPrefixIsLess(a[1..], b[1..]);
    }
  }

  /** Two trees are equal when every path leads to the same thing in both. */
  lemma {:induction false} SameLookupsSameTree(a: Folder, b: Folder)
    requires forall e :: Has(a, e) <==> Has(b, e)
    ensures a == b
    decreases Dir(a)
  {
    forall n | n in a || n in b ensures n in a && n in b && a[n] == b[n] {
      if n in a {
        assert Has(a, Entry([n], ItemOf(a[n])));
      } else {
        assert Has(b, Entry([n], ItemOf(b[n])));
      }
      if a[n].Dir? {
        forall e ensures Has(a[n].entries, e) <==> Has(b[n].entries, e) {
          var e' := Entry([n] + e.path, e.item);
          assert e'.path[1..] == e.path;
          assert Has(a, e') <==> Has(b, e');
        }
        SameLookupsSameTree(a[n].entries, b[n].entries);
      }
    }
  }
}
