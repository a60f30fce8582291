/** `fastenv du`: the bytes a fork has written. */
module Du {
  import opened Wrappers
  import opened Orders
  import opened Workspace

  ghost function ItemBytes(item: Item): nat {
    match item
    case FileItem(c) => |c|
    case _ => 0
  }

  /** The sum of the sizes of the regular-file members of an archive. */
  ghost function ArchiveBytes(es: seq<Entry>): nat {
    if es == [] then 0 else ItemBytes(es[0].item) + ArchiveBytes(es[1..])
  }

  lemma {:induction false} ArchiveBytesConcat(a: seq<Entry>, b: seq<Entry>)
    ensures ArchiveBytes(a + b) == ArchiveBytes(a) + ArchiveBytes(b)
  {
    if a == [] {
      assert a + b == b;
    } else {
      assert (a + b)[1..] == a[1..] + b;
      ArchiveBytesConcat(a[1..], b);
    }
  }

  lemma {:induction false} ArchiveBytesRelocate(at: Path, es: seq<Entry>)
    ensures ArchiveBytes(Relocate(at, es)) == ArchiveBytes(es)
  {
    if es != [] {
      assert Relocate(at, es)[1..] == Relocate(at, es[1..]);
      ArchiveBytesRelocate(at, es[1..]);
    }
  }

  ghost function NamesBytes(f: Folder, names: seq<Name>): nat
    requires forall n :: n in names ==> n in f
  {
    if names == [] then 0 else ArchiveBytes(WalkNode(names[0], f[names[0]])) + NamesBytes(f, names[1..])
  }

  lemma {:induction false} NamesBytesConcat(f: Folder, a: seq<Name>, b: seq<Name>)
    requires forall n :: n in a || n in b ==> n in f
    ensures NamesBytes(f, a + b) == NamesBytes(f, a) + NamesBytes(f, b)
  {
    if a == [] {
      assert a + b == b;
    } else {
      assert (a + b)[1..] == a[1..] + b;
      NamesBytesConcat(f, a[1..], b);
    }
  }

  lemma {:induction false} NamesBytesIsArchiveBytes(f: Folder, names: seq<Name>)
    requires forall n :: n in names ==> n in f
    ensures NamesBytes(f, names) == ArchiveBytes(WalkNames(f, names))
  {
    if names != [] {
      ArchiveBytesConcat(WalkNode(names[0], f[names[0]]), WalkNames(f, names[1..]));
      NamesBytesIsArchiveBytes(f, names[1..]);
    }
  }

  lemma NamesBytesPick(f: Folder, b: seq<Name>, j: nat)
    requires forall n :: n in b ==> n in f
    requires j < |b|
    ensures NamesBytes(f, b) == ArchiveBytes(WalkNode(b[j], f[b[j]])) + NamesBytes(f, b[..j] + b[j + 1..])
  {
    hide WalkNode, ArchiveBytes;
    var left, right := b[..j], b[j + 1..];
    NamesBytesConcat(f, left, right);
    NamesBytesConcat(f, left, [b[j]] + right);
    assert ([b[j]] + right)[1..] == right;
    assert left + ([b[j]] + right) == b;
  }

  /** The total does not depend on the order in which a directory is enumerated. */
  lemma {:induction false} EnumerationOrderIrrelevant(f: Folder, a: seq<Name>, b: seq<Name>)
    requires NoDuplicates(a) && NoDuplicates(b)
    requires forall n :: n in a <==> n in b
    requires forall n :: n in a ==> n in f
    ensures NamesBytes(f, a) == NamesBytes(f, b)
    decreases |a|
  {
    if a == [] {
      assert forall i | 0 <= i < |b| :: b[i] in b;
    } else {
      assert a[0] in b;
      var j :| 0 <= j < |b| && b[j] == a[0];
      RemoveFromBoth(a, b, j);
      NamesBytesPick(f, b, j);
      EnumerationOrderIrrelevant(f, a[1..], b[..j] + b[j + 1..]);
    }
  }

  lemma NodeBytes(name: Name, n: Node)
    ensures ArchiveBytes(WalkNode(name, n)) == match n
                                               case File(c) => |c|
                                               case Whiteout => 0
                                               case Dir(g) => ArchiveBytes(Walk(g))
  {
    var head := [Entry([name], ItemOf(n))];
    assert head[1..] == [];
    match n
    case Dir(g) =>
      ArchiveBytesRelocate([name], Walk(g));
      ArchiveBytesConcat(head, Relocate([name], Walk(g)));
    case _ =>
      assert WalkNode(name, n) == head;
  }

  method WalkDir(dir: Folder, total: nat) returns (sum: nat)
    ensures sum == total + ArchiveBytes(Walk(dir))
    decreases Dir(dir)
  {
    sum := total;
    var names := ReadDir(dir);
    assert names[0..] == names;
    for i := 0 to |names|
      invariant sum + NamesBytes(dir, names[i..]) == total + NamesBytes(dir, names)
    {
      assert names[i..][1..] == names[i + 1..];
      NodeBytes(names[i], dir[names[i]]);
      match dir[names[i]] {
        case Dir(g) =>
          sum := WalkDir(g, sum);
        case File(content) =>
          sum := sum + |content|;
        case Whiteout =>
      }
    }
    SortedNamesListing(dir);
    EnumerationOrderIrrelevant(dir, names, SortedNames(dir.Keys));
    NamesBytesIsArchiveBytes(dir, SortedNames(dir.Keys));
  }

  /** The usage reported for a fork is the number of bytes its exported archive carries. */
  method WalkUpperBytes(upper: Option<Folder>) returns (total: nat)
    ensures total == if upper.Some? then ArchiveBytes(Walk(upper.value)) else 0
  {
    if upper.None? {
      return 0;
    }
    total := WalkDir(upper.value, 0);
  }
}
