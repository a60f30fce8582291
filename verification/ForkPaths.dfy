/**
 * Where the commands on a fork create and remove directories, for keys that nothing validates: a
 * fork key is joined to the data root as it is, so it may hold slashes and "..", or be absolute.
 */
module ForkPaths {

  type Components = seq<string>

  /** The pieces of a text between its slashes. */
  function Split(s: string): (r: Components)
    ensures r != []
  {
    if s == "" then [""]
    else
      var rest := Split(s[1..]);
      if s[0] == '/' then [""] + rest else [[s[0]] + rest[0]] + rest[1..]
  }

  function Up(p: Components): Components {
    if p == [] then [] else p[..|p| - 1]
  }

  /** A piece that is not a name. */
  predicate Dots(piece: string) {
    piece == "" || piece == "." || piece == ".."
  }

  /** The pieces are all names. */
  predicate Plain(pieces: Components) {
    forall i | 0 <= i < |pieces| :: !Dots(pieces[i])
  }

  /** "." and empty pieces stay, ".." goes up, the root is its own parent. */
  function Step(at: Components, piece: string): Components {
    if piece == ".." then Up(at) else if Dots(piece) then at else at + [piece]
  }

  /** Where a path leads from a directory. */
  function Follow(from: Components, pieces: Components): Components
    decreases |pieces|
  {
    if pieces == [] then from else Step(Follow(from, pieces[..|pieces| - 1]), pieces[|pieces| - 1])
  }

  predicate Absolute(key: string) {
    key != "" && key[0] == '/'
  }

  /** Joining an absolute text to a directory replaces the directory. */
  function Origin(root: Components, key: string): Components {
    if Absolute(key) then [] else root
  }

  function Pieces(top: string, key: string): Components {
    if Absolute(key) then Split(key) else [top] + Split(key)
  }

  function ForkDir(root: Components, key: string): Components {
    Follow(Origin(root, key), Pieces("forks", key))
  }

  function LowerDir(root: Components, base: string): Components {
    Follow(Origin(root, base), Pieces("bases", base)) + ["lower"]
  }

  /** The path is the directory, or lies in it. */
  predicate In(p: Components, dir: Components) {
    dir <= p
  }

  /** The three directories that a fork creates below its own. */
  datatype Part = Upper | Work | Merged {
    function Name(): string {
      match this
      case Upper => "upper"
      case Work => "work"
      case Merged => "merged"
    }
  }

  function PartDir(root: Components, key: string, part: Part): Components {
    ForkDir(root, key) + [part.Name()]
  }

  function PartPieces(key: string, part: Part): Components {
    Pieces("forks", key) + [part.Name()]
  }

  lemma PartIsFollowed(root: Components, key: string, part: Part)
    ensures Follow(Origin(root, key), PartPieces(key, part)) == PartDir(root, key, part)
  {
    var pieces := PartPieces(key, part);
    assert pieces[..|pieces| - 1] == Pieces("forks", key);
  }

  // ---------------------------------------------------------------------
  // Directories on disk
  // ---------------------------------------------------------------------

  datatype Kind = Folder | Other
  type Disk = map<Components, Kind>

  ghost predicate Seated(disk: Disk, p: Components) {
    Present(disk, Up(p))
  }

  /** Every entry sits in a directory, up to the root of the file system. */
  ghost predicate WellFormed(disk: Disk) {
    [] in disk && forall p {:trigger Seated(disk, p)} | p in disk :: Seated(disk, p)
  }

  predicate Present(disk: Disk, dir: Components) {
    dir in disk && disk[dir] == Folder
  }

  /** Resolving a path to a directory: every directory on the way has to be there, also before
      a "..". */
  datatype Walked = At(dir: Components) | Missing | NotFolder

  function Walk(disk: Disk, from: Components, pieces: Components): Walked
    decreases |pieces|
  {
    if pieces == [] then At(from)
    else
      var last := pieces[|pieces| - 1];
      match Walk(disk, from, pieces[..|pieces| - 1])
      case At(dir) =>
        var next := Step(dir, last);
        if Dots(last) then At(next)
        else if next !in disk then Missing
        else if disk[next] == Folder then At(next)
        else NotFolder
      case failed => failed
  }

  datatype Answer = Created | Existed | NoParent | Refused

  /** One `mkdir`; the disk may refuse to create some paths. */
  function Mkdir(disk: Disk, from: Components, pieces: Components, refused: set<Components>): (Disk, Answer)
    requires pieces != []
  {
    var last := pieces[|pieces| - 1];
    match Walk(disk, from, pieces[..|pieces| - 1])
    case Missing => (disk, NoParent)
    case NotFolder => (disk, Refused)
    case At(dir) =>
      var next := Step(dir, last);
      if Dots(last) || next in disk then (disk, Existed)
      else if next in refused then (disk, Refused)
      else (disk[next := Folder], Created)
  }

  /** `create_dir_all`, which does not normalise: try the whole path, and when its parent is not
      there create that first. Returns whether the path is a directory in the end. */
  function CreateAll(disk: Disk, from: Components, pieces: Components, refused: set<Components>): (Disk, bool)
    decreases |pieces|
  {
    if pieces == [] then (disk, true)
    else
      var (made, answer) := Mkdir(disk, from, pieces, refused);
      match answer
      case Created => (made, true)
      case NoParent =>
        var (above, ok) := CreateAll(disk, from, pieces[..|pieces| - 1], refused);
        if !ok then (above, false)
        else
          var (again, _) := Mkdir(above, from, pieces, refused);
          (again, Walk(again, from, pieces).At?)
      case _ => (disk, Walk(disk, from, pieces).At?)
  }

  /** Some prefix of the path leads there. */
  ghost predicate Reached(from: Components, pieces: Components, p: Components) {
    exists i | 0 <= i <= |pieces| :: p == Follow(from, pieces[..i])
  }

  lemma ReachedStep(from: Components, pieces: Components, p: Components)
    requires pieces != []
    ensures Reached(from, pieces, p) <==> Reached(from, pieces[..|pieces| - 1], p) || p == Follow(from, pieces)
  {
    hide Follow;
    var init := pieces[..|pieces| - 1];
    assert pieces[..|pieces|] == pieces;
    if Reached(from, pieces, p) {
      var i :| 0 <= i <= |pieces| && p == Follow(from, pieces[..i]);
      assert i <= |init| ==> pieces[..i] == init[..i];
    }
    if Reached(from, init, p) {
      var i :| 0 <= i <= |init| && p == Follow(from, init[..i]);
      assert pieces[..i] == init[..i];
    }
  }

  lemma {:induction false} WalkFollows(disk: Disk, from: Components, pieces: Components)
    requires Walk(disk, from, pieces).At?
    ensures Walk(disk, from, pieces).dir == Follow(from, pieces)
    decreases |pieces|
  {
    if pieces != [] {
      WalkFollows(disk, from, pieces[..|pieces| - 1]);
    }
  }

  ghost predicate Extends(disk: Disk, after: Disk) {
    forall p | p in disk :: p in after && after[p] == disk[p]
  }

  lemma {:induction false} WalkStays(disk: Disk, after: Disk, from: Components, pieces: Components)
    requires Extends(disk, after) && Walk(disk, from, pieces).At?
    ensures Walk(after, from, pieces) == Walk(disk, from, pieces)
    decreases |pieces|
  {
    if pieces != [] {
      WalkStays(disk, after, from, pieces[..|pieces| - 1]);
    }
  }

  lemma MkdirAdds(disk: Disk, from: Components, pieces: Components, refused: set<Components>)
    requires pieces != []
    ensures var (made, answer) := Mkdir(disk, from, pieces, refused);
            && (made == disk || (Follow(from, pieces) !in disk && made == disk[Follow(from, pieces) := Folder]))
            && (answer.Created? ==> Walk(made, from, pieces).At?)
  {
    var init := pieces[..|pieces| - 1];
    if Walk(disk, from, init).At? {
      WalkFollows(disk, from, init);
      WalkStays(disk, Mkdir(disk, from, pieces, refused).0, from, init);
    }
  }

  /** Whatever `create_dir_all` ends with, it has created nothing but directories that prefixes of
      the path lead to; when it succeeds the path can be walked. */
  lemma {:induction false} CreateAllAdds(disk: Disk, from: Components, pieces: Components, refused: set<Components>)
    ensures var (after, ok) := CreateAll(disk, from, pieces, refused);
            && Extends(disk, after)
            && (forall p | p in after && p !in disk :: after[p] == Folder && Reached(from, pieces, p))
            && (ok ==> Walk(after, from, pieces).At?)
    decreases |pieces|
  {
    if pieces != [] {
      var init := pieces[..|pieces| - 1];
      MkdirAdds(disk, from, pieces, refused);
      CreateAllAdds(disk, from, init, refused);
      var above := CreateAll(disk, from, init, refused).0;
      MkdirAdds(above, from, pieces, refused);
      var after := CreateAll(disk, from, pieces, refused).0;
      hide CreateAll, Mkdir, Walk, Reached, Follow;
      forall p | p in after && p !in disk ensures after[p] == Folder && Reached(from, pieces, p) {
        ReachedStep(from, pieces, p);
      }
    }
  }

  lemma {:induction false} WalkedIsThere(disk: Disk, from: Components, pieces: Components)
    requires WellFormed(disk) && Present(disk, from)
    requires Walk(disk, from, pieces).At?
    ensures Present(disk, Follow(from, pieces))
    decreases |pieces|
  {
    if pieces != [] {
      var init := pieces[..|pieces| - 1];
      WalkedIsThere(disk, from, init);
      WalkFollows(disk, from, init);
      assert Seated(disk, Follow(from, init));
    }
  }

  lemma AddedIsSeated(disk: Disk, p: Components)
    requires WellFormed(disk) && Seated(disk, p)
    ensures WellFormed(disk[p := Folder])
  {
    var after := disk[p := Folder];
    forall q | q in after ensures Seated(after, q) {
      assert q in disk ==> Seated(disk, q);
    }
  }

  lemma MkdirKeepsForm(disk: Disk, from: Components, pieces: Components, refused: set<Components>)
    requires WellFormed(disk) && Present(disk, from) && pieces != []
    ensures WellFormed(Mkdir(disk, from, pieces, refused).0)
  {
    hide WellFormed, Walk, Follow;
    var init := pieces[..|pieces| - 1];
    if Mkdir(disk, from, pieces, refused).1.Created? {
      WalkedIsThere(disk, from, init);
      WalkFollows(disk, from, init);
      AddedIsSeated(disk, Step(Follow(from, init), pieces[|pieces| - 1]));
    }
  }

  lemma {:induction false} CreateAllKeepsForm(disk: Disk, from: Components, pieces: Components, refused: set<Components>)
    requires WellFormed(disk) && Present(disk, from)
    ensures WellFormed(CreateAll(disk, from, pieces, refused).0)
    decreases |pieces|
  {
    if pieces != [] {
      var init := pieces[..|pieces| - 1];
      MkdirKeepsForm(disk, from, pieces, refused);
      CreateAllKeepsForm(disk, from, init, refused);
      CreateAllAdds(disk, from, init, refused);
      hide Mkdir, Walk, WellFormed;
      MkdirKeepsForm(CreateAll(disk, from, init, refused).0, from, pieces, refused);
    }
  }

  lemma {:induction false} PrefixWalks(disk: Disk, from: Components, pieces: Components, i: nat)
    requires Walk(disk, from, pieces).At? && i <= |pieces|
    ensures Walk(disk, from, pieces[..i]).At?
    decreases |pieces|
  {
    if i == |pieces| {
      assert pieces[..i] == pieces;
    } else {
      var init := pieces[..|pieces| - 1];
      PrefixWalks(disk, from, init, i);
      assert init[..i] == pieces[..i];
    }
  }

  /** When `create_dir_all` succeeds it has created the directory that every prefix of the path
      leads to, as far as it was missing, and nothing else. */
  lemma CreateAllExactly(disk: Disk, from: Components, pieces: Components, refused: set<Components>)
    requires WellFormed(disk) && Present(disk, from)
    requires CreateAll(disk, from, pieces, refused).1
    ensures var after := CreateAll(disk, from, pieces, refused).0;
            && Extends(disk, after)
            && (forall p :: p in after <==> p in disk || Reached(from, pieces, p))
  {
    var after := CreateAll(disk, from, pieces, refused).0;
    CreateAllAdds(disk, from, pieces, refused);
    CreateAllKeepsForm(disk, from, pieces, refused);
    hide CreateAll, Follow, Walk;
    forall p | Reached(from, pieces, p) ensures p in after {
      var i :| 0 <= i <= |pieces| && p == Follow(from, pieces[..i]);
      PrefixWalks(after, from, pieces, i);
      WalkedIsThere(after, from, pieces[..i]);
    }
  }

  /** Only a file in the way or a refusal of the disk makes `create_dir_all` fail. */
  lemma {:induction false} CreateAllSucceeds(disk: Disk, from: Components, pieces: Components)
    requires forall p | p in disk :: disk[p] == Folder
    ensures CreateAll(disk, from, pieces, {}).1
    decreases |pieces|
  {
    if pieces != [] {
      var init := pieces[..|pieces| - 1];
      CreateAllSucceeds(disk, from, init);
      CreateAllAdds(disk, from, init, {});
      var above := CreateAll(disk, from, init, {}).0;
      NothingInTheWay(disk, from, pieces);
      NothingInTheWay(above, from, pieces);
    }
  }

  lemma NothingInTheWay(disk: Disk, from: Components, pieces: Components)
    requires pieces != [] && forall p | p in disk :: disk[p] == Folder
    ensures var (made, answer) := Mkdir(disk, from, pieces, {});
            && (answer.NoParent? <==> !Walk(disk, from, pieces[..|pieces| - 1]).At?)
            && (!answer.NoParent? ==> Walk(made, from, pieces).At?)
  {
    NeverNotFolder(disk, from, pieces[..|pieces| - 1]);
    MkdirAdds(disk, from, pieces, {});
  }

  lemma {:induction false} NeverNotFolder(disk: Disk, from: Components, pieces: Components)
    requires forall p | p in disk :: disk[p] == Folder
    ensures !Walk(disk, from, pieces).NotFolder?
    decreases |pieces|
  {
    if pieces != [] {
      NeverNotFolder(disk, from, pieces[..|pieces| - 1]);
    }
  }

  // ---------------------------------------------------------------------
  // What a command on a key does to the disk
  // ---------------------------------------------------------------------

  /** fork makes the three directories, mount-path makes merged, unmount removes merged, and
      discard removes upper and work with what is in them, possibly not all of it, and merged and
      the fork's own directory when they are empty. */
  datatype Act =
    | MakeDir(part: Part, refused: set<Components>)
    | RemoveUpper(kept: set<Components>)
    | RemoveWork(kept: set<Components>)
    | RemoveMerged
    | RemoveForkDir

  /** Everything at and below a directory goes, except what is kept and the way to it. */
  function Without(disk: Disk, dir: Components, kept: set<Components>): Disk {
    map p | p in disk && !(In(p, dir) && !exists k | k in kept :: In(k, p)) :: disk[p]
  }

  function RemoveAll(disk: Disk, from: Components, pieces: Components, kept: set<Components>): Disk {
    match Walk(disk, from, pieces)
    case At(dir) => Without(disk, dir, kept)
    case _ => disk
  }

  function RemoveEmpty(disk: Disk, from: Components, pieces: Components): Disk {
    match Walk(disk, from, pieces)
    case At(dir) => if exists p | p in disk :: In(p, dir) && p != dir then disk else disk - {dir}
    case _ => disk
  }

  function Perform(disk: Disk, root: Components, key: string, act: Act): Disk {
    match act
    case MakeDir(part, refused) => CreateAll(disk, Origin(root, key), PartPieces(key, part), refused).0
    case RemoveUpper(kept) => RemoveAll(disk, Origin(root, key), PartPieces(key, Upper), kept)
    case RemoveWork(kept) => RemoveAll(disk, Origin(root, key), PartPieces(key, Work), kept)
    case RemoveMerged => RemoveEmpty(disk, Origin(root, key), PartPieces(key, Merged))
    case RemoveForkDir => RemoveEmpty(disk, Origin(root, key), Pieces("forks", key))
  }

  /** Every command opens the registry first, which makes the data root. */
  function Command(disk: Disk, root: Components, key: string, act: Act, refused: set<Components>): Disk {
    var (rooted, ok) := CreateAll(disk, [], root, refused);
    if ok then Perform(rooted, root, key, act) else rooted
  }

  // ---------------------------------------------------------------------
  // Trees a command leaves alone
  // ---------------------------------------------------------------------

  ghost predicate SameTree(disk: Disk, after: Disk, tree: Components) {
    forall p | In(p, tree) :: (p in after <==> p in disk) && (p in disk ==> after[p] == disk[p])
  }

  /** No command on the key changes anything in the tree, on any disk that has it. */
  ghost predicate Harmless(root: Components, key: string, tree: Components) {
    forall disk, act, refused | WellFormed(disk) && Present(disk, tree) ::
      SameTree(disk, Command(disk, root, key, act, refused), tree)
  }

  /** No prefix of the paths of the three directories leads strictly inside the tree, the tree is
      neither at nor below the fork's upper or work directory, and it is not its merged one. */
  ghost predicate Clear(root: Components, key: string, tree: Components) {
    && (forall part, p | Reached(Origin(root, key), PartPieces(key, part), p) :: !(tree < p))
    && !(PartDir(root, key, Upper) <= tree) && !(PartDir(root, key, Work) <= tree)
    && PartDir(root, key, Merged) != tree
  }

  lemma ClearOfForkDir(root: Components, key: string, tree: Components)
    requires Clear(root, key, tree)
    ensures !(tree <= ForkDir(root, key))
  {
    PartIsFollowed(root, key, Upper);
    var pieces := PartPieces(key, Upper);
    assert pieces[..|pieces|] == pieces;
    assert Reached(Origin(root, key), pieces, PartDir(root, key, Upper));
  }

  lemma {:induction false} PlainPathLeadsDown(from: Components, pieces: Components)
    requires Plain(pieces)
    ensures Follow(from, pieces) == from + pieces
    decreases |pieces|
  {
    if pieces != [] {
      var init := pieces[..|pieces| - 1];
      PlainPathLeadsDown(from, init);
      assert from + pieces == (from + init) + [pieces[|pieces| - 1]];
    }
  }

  lemma PrefixOfPrefix(a: Components, b: Components, i: nat)
    requires i <= |b|
    ensures a <= b[..i] ==> a <= b
  {
    if a <= b[..i] {
      assert a == b[..i][..|a|];
    }
  }

  lemma Nested(a: Components, b: Components, p: Components)
    requires a <= p && b <= p
    ensures a <= b || b <= a
  {
    assert a == p[..|a|] && b == p[..|b|];
  }

  lemma WithinLast(tree: Components, above: Components, name: string)
    requires tree <= above + [name] && tree != above + [name]
    ensures tree <= above
  {
    var dir := above + [name];
    assert tree == dir[..|tree|];
    assert |tree| == |dir| ==> tree == dir;
    assert dir[..|tree|] == above[..|tree|];
  }

  lemma NotThrough(tree: Components, above: Components, name: string)
    requires !(tree <= above) && !(above + [name] <= tree)
    ensures forall p | In(p, tree) :: !In(p, above + [name])
  {
    var dir := above + [name];
    forall p | In(p, tree) ensures !In(p, dir) {
      if In(p, dir) {
        Nested(tree, dir, p);
        WithinLast(tree, above, name);
      }
    }
  }

  /** Opening the registry makes nothing but ancestors of the data root. */
  lemma OpeningStaysOut(disk: Disk, root: Components, refused: set<Components>, tree: Components)
    requires Plain(root) && !(tree <= root)
    ensures SameTree(disk, CreateAll(disk, [], root, refused).0, tree)
  {
    CreateAllAdds(disk, [], root, refused);
    hide CreateAll, Follow;
    forall p | Reached([], root, p) ensures !(tree <= p) {
      var i :| 0 <= i <= |root| && p == Follow([], root[..i]);
      PlainPathLeadsDown([], root[..i]);
      assert p == root[..i];
      PrefixOfPrefix(tree, root, i);
    }
  }

  lemma RemovalStaysOut(disk: Disk, root: Components, key: string, part: Part, kept: set<Components>, tree: Components)
    requires !(PartDir(root, key, part) <= tree) && !(tree <= ForkDir(root, key))
    ensures SameTree(disk, RemoveAll(disk, Origin(root, key), PartPieces(key, part), kept), tree)
  {
    var from, pieces := Origin(root, key), PartPieces(key, part);
    if Walk(disk, from, pieces).At? {
      WalkFollows(disk, from, pieces);
      PartIsFollowed(root, key, part);
      hide Walk, Follow;
      NotThrough(tree, ForkDir(root, key), part.Name());
    }
  }

  lemma RmdirStaysOut(disk: Disk, from: Components, pieces: Components, tree: Components)
    requires tree in disk && !(tree <= Follow(from, pieces))
    ensures SameTree(disk, RemoveEmpty(disk, from, pieces), tree)
  {
    if Walk(disk, from, pieces).At? {
      WalkFollows(disk, from, pieces);
    }
  }

  lemma MakingStaysOut(disk: Disk, root: Components, key: string, part: Part, refused: set<Components>, tree: Components)
    requires Clear(root, key, tree) && Present(disk, tree)
    ensures SameTree(disk, CreateAll(disk, Origin(root, key), PartPieces(key, part), refused).0, tree)
  {
    var from, pieces := Origin(root, key), PartPieces(key, part);
    CreateAllAdds(disk, from, pieces, refused);
    hide CreateAll, Reached, PartPieces, Origin;
    var after := CreateAll(disk, from, pieces, refused).0;
    forall p | p in after && p !in disk ensures !In(p, tree) {
      assert Reached(from, pieces, p);
      assert tree <= p && |tree| == |p| ==> tree == p;
    }
  }

  lemma PerformStaysOut(disk: Disk, root: Components, key: string, act: Act, tree: Components)
    requires Clear(root, key, tree) && Present(disk, tree)
    ensures SameTree(disk, Perform(disk, root, key, act), tree)
  {
    ClearOfForkDir(root, key, tree);
    hide CreateAll, RemoveAll, RemoveEmpty, Follow, PartPieces, Reached;
    match act
    case MakeDir(part, refused) => MakingStaysOut(disk, root, key, part, refused, tree);
    case RemoveUpper(kept) => RemovalStaysOut(disk, root, key, Upper, kept, tree);
    case RemoveWork(kept) => RemovalStaysOut(disk, root, key, Work, kept, tree);
    case RemoveMerged =>
      PartIsFollowed(root, key, Merged);
      RmdirStaysOut(disk, Origin(root, key), PartPieces(key, Merged), tree);
    case RemoveForkDir =>
      assert ForkDir(root, key) == Follow(Origin(root, key), Pieces("forks", key));
      RmdirStaysOut(disk, Origin(root, key), Pieces("forks", key), tree);
  }

  /** The data root is a path of names, and not inside the tree. */
  predicate RootApart(root: Components, tree: Components) {
    Plain(root) && !(tree <= root)
  }

  lemma CommandStaysOut(disk: Disk, root: Components, key: string, act: Act, refused: set<Components>, tree: Components)
    requires RootApart(root, tree) && Clear(root, key, tree) && Present(disk, tree)
    ensures SameTree(disk, Command(disk, root, key, act, refused), tree)
    ensures Present(Command(disk, root, key, act, refused), tree)
  {
    OpeningStaysOut(disk, root, refused, tree);
    hide CreateAll, Perform, Clear;
    assert In(tree, tree);
    var (rooted, ok) := CreateAll(disk, [], root, refused);
    if ok {
      PerformStaysOut(rooted, root, key, act, tree);
    }
  }

  // ---------------------------------------------------------------------
  // Trees a command can change
  // ---------------------------------------------------------------------

  function Above(p: Components): set<Components> {
    set i | 0 <= i <= |p| :: p[..i]
  }

  /** The smallest disk with the two directories. */
  function Bare(root: Components, tree: Components): Disk {
    map p | p in Above(root) + Above(tree) :: Folder
  }

  lemma AboveIsPrefix(p: Components, q: Components)
    ensures q in Above(p) <==> q <= p
  {
    if q <= p {
      assert q == p[..|q|];
    }
  }

  lemma BareIsWellFormed(root: Components, tree: Components)
    ensures WellFormed(Bare(root, tree)) && Present(Bare(root, tree), tree) && Present(Bare(root, tree), root)
    ensures !(tree <= root) ==> forall p | p in Bare(root, tree) :: In(p, tree) ==> p == tree
  {
    var disk := Bare(root, tree);
    forall p ensures p in disk <==> p <= root || p <= tree {
      AboveIsPrefix(root, p);
      AboveIsPrefix(tree, p);
    }
    assert [] <= root;
    forall p | p in disk ensures Seated(disk, p) {
      var whole := if p <= root then root else tree;
      PrefixOfPrefix(Up(p), p, |Up(p)|);
      assert p == whole[..|p|] && Up(p) == whole[..|Up(p)|];
    }
    if !(tree <= root) {
      forall p | p in disk && In(p, tree) ensures p == tree {
        assert p <= tree;
      }
    }
  }

  /** On the bare disk the root is there to be opened. */
  lemma RootOpens(disk: Disk, root: Components)
    requires WellFormed(disk) && Present(disk, root) && Plain(root)
    requires forall p | p in disk :: disk[p] == Folder
    ensures CreateAll(disk, [], root, {}) == (disk, true)
  {
    CreateAllSucceeds(disk, [], root);
    RootIsThere(disk, root);
    PlainPathLeadsDown([], root);
    if root != [] {
      var init := root[..|root| - 1];
      assert Seated(disk, root);
      RootIsThere(disk, init);
      PlainPathLeadsDown([], init);
      PrefixWalks(disk, [], root, |init|);
      WalkFollows(disk, [], init);
    }
  }

  lemma {:induction false} RootIsThere(disk: Disk, root: Components)
    requires WellFormed(disk) && Plain(root) && Present(disk, root)
    ensures Walk(disk, [], root).At?
    decreases |root|
  {
    hide Follow;
    if root != [] {
      assert Seated(disk, root);
      var init, last := root[..|root| - 1], root[|root| - 1];
      assert Present(disk, init) && init + [last] == root;
      hide WellFormed, Seated, Up;
      RootIsThere(disk, init);
      WalkFollows(disk, [], init);
      PlainPathLeadsDown([], init);
      assert [] + init == init;
    }
  }

  lemma MakingChanges(root: Components, key: string, part: Part, p: Components, tree: Components)
    requires RootApart(root, tree)
    requires Reached(Origin(root, key), PartPieces(key, part), p) && tree <= p && tree != p
    ensures !Harmless(root, key, tree)
  {
    var disk := Bare(root, tree);
    var from, pieces := Origin(root, key), PartPieces(key, part);
    BareIsWellFormed(root, tree);
    RootOpens(disk, root);
    CreateAllSucceeds(disk, from, pieces);
    CreateAllExactly(disk, from, pieces, {});
    hide CreateAll, PartPieces, Reached, Bare, WellFormed;
    assert In(p, tree) && p !in disk;
    assert !SameTree(disk, Command(disk, root, key, MakeDir(part, {}), {}), tree);
  }

  /** The disk once a directory of the fork has been made. */
  lemma MadeDisk(root: Components, key: string, part: Part, tree: Components) returns (disk: Disk)
    requires RootApart(root, tree)
    ensures WellFormed(disk) && Present(disk, tree) && CreateAll(disk, [], root, {}) == (disk, true)
    ensures Walk(disk, Origin(root, key), PartPieces(key, part)) == At(PartDir(root, key, part))
    ensures forall p | p in disk && In(p, tree) && p != tree :: Reached(Origin(root, key), PartPieces(key, part), p)
  {
    var bare := Bare(root, tree);
    var from, pieces := Origin(root, key), PartPieces(key, part);
    BareIsWellFormed(root, tree);
    CreateAllSucceeds(bare, from, pieces);
    CreateAllExactly(bare, from, pieces, {});
    CreateAllKeepsForm(bare, from, pieces, {});
    CreateAllAdds(bare, from, pieces, {});
    disk := CreateAll(bare, from, pieces, {}).0;
    hide CreateAll, PartPieces, Reached, Bare, WellFormed, Walk;
    RootOpens(disk, root);
    WalkFollows(disk, from, pieces);
    PartIsFollowed(root, key, part);
  }

  lemma RemovingChanges(root: Components, key: string, part: Part, tree: Components)
    requires RootApart(root, tree) && !part.Merged? && PartDir(root, key, part) <= tree
    ensures !Harmless(root, key, tree)
  {
    var disk := MadeDisk(root, key, part, tree);
    hide CreateAll, PartPieces, Reached, WellFormed, Walk, PartDir;
    var act := if part.Upper? then RemoveUpper({}) else RemoveWork({});
    assert In(tree, tree) && In(tree, PartDir(root, key, part));
    assert tree !in Command(disk, root, key, act, {});
    assert !SameTree(disk, Command(disk, root, key, act, {}), tree);
  }

  lemma RmdirChanges(root: Components, key: string, tree: Components)
    requires RootApart(root, tree) && PartDir(root, key, Merged) == tree
    requires forall p | Reached(Origin(root, key), PartPieces(key, Merged), p) :: !(tree < p)
    ensures !Harmless(root, key, tree)
  {
    var disk := MadeDisk(root, key, Merged, tree);
    hide CreateAll, PartPieces, Reached, WellFormed, Walk, PartDir;
    assert In(tree, tree);
    assert tree !in Command(disk, root, key, RemoveMerged, {});
    assert !SameTree(disk, Command(disk, root, key, RemoveMerged, {}), tree);
  }

  /** On every disk and whatever the disk refuses, the commands on a key leave a tree alone exactly
      when the key is clear of it. */
  lemma HarmlessExactly(root: Components, key: string, tree: Components)
    requires RootApart(root, tree)
    ensures Harmless(root, key, tree) <==> Clear(root, key, tree)
  {
    hide PartDir, PartPieces, Reached, RootApart;
    if Clear(root, key, tree) {
      forall disk, act, refused | WellFormed(disk) && Present(disk, tree)
        ensures SameTree(disk, Command(disk, root, key, act, refused), tree)
      {
        CommandStaysOut(disk, root, key, act, refused, tree);
      }
    } else if part, p :| Reached(Origin(root, key), PartPieces(key, part), p) && tree < p {
      MakingChanges(root, key, part, p, tree);
    } else if PartDir(root, key, Upper) <= tree {
      RemovingChanges(root, key, Upper, tree);
    } else if PartDir(root, key, Work) <= tree {
      RemovingChanges(root, key, Work, tree);
    } else {
      RmdirChanges(root, key, tree);
    }
  }

  /** One command of a run: the key it is given, what it does, and what the disk refuses. */
  datatype Issued = Issued(key: string, act: Act, refused: set<Components>)

  ghost function Run(disk: Disk, root: Components, commands: seq<Issued>): Disk
    decreases |commands|
  {
    if commands == [] then disk
    else Run(Command(disk, root, commands[0].key, commands[0].act, commands[0].refused), root, commands[1..])
  }

  /** Over every run of commands on keys that are clear of a tree, failing ones included, the tree
      never changes. */
  lemma {:induction false} TreeNeverChanges(disk: Disk, root: Components, commands: seq<Issued>, tree: Components)
    requires RootApart(root, tree) && Present(disk, tree)
    requires forall i | 0 <= i < |commands| :: Clear(root, commands[i].key, tree)
    ensures SameTree(disk, Run(disk, root, commands), tree)
    decreases |commands|
  {
    hide Command, Clear, RootApart;
    if commands != [] {
      var c := commands[0];
      CommandStaysOut(disk, root, c.key, c.act, c.refused, tree);
      TreeNeverChanges(Command(disk, root, c.key, c.act, c.refused), root, commands[1..], tree);
    }
  }
}
