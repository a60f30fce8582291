/** Which fork keys keep out of the bases, and out of each other's directories. */
module ForkKeys {
  import opened ForkPaths

  // ---------------------------------------------------------------------
  // Keys that keep out of the bases, keys that do not
  // ---------------------------------------------------------------------

  /** The key neither starts at the root nor goes up. */
  predicate NeverClimbs(key: string) {
    !Absolute(key) && Descends(Split(key))
  }

  predicate Descends(pieces: Components) {
    forall i | 0 <= i < |pieces| :: pieces[i] != ".."
  }

  lemma {:induction false} FollowConcat(from: Components, a: Components, b: Components)
    ensures Follow(from, a + b) == Follow(Follow(from, a), b)
    decreases |b|
  {
    if b == [] {
      assert a + b == a;
    } else {
      var init := b[..|b| - 1];
      assert (a + b)[..|a + b| - 1] == a + init;
      FollowConcat(from, a, init);
    }
  }

  lemma {:induction false} DescentGoesDown(from: Components, pieces: Components)
    requires Descends(pieces)
    ensures from <= Follow(from, pieces)
    decreases |pieces|
  {
    if pieces != [] {
      DescentGoesDown(from, pieces[..|pieces| - 1]);
    }
  }

  /** Every prefix of a path that never climbs leads to a directory above its end. */
  lemma DescentPasses(from: Components, pieces: Components, p: Components)
    requires Descends(pieces) && Reached(from, pieces, p)
    ensures from <= p <= Follow(from, pieces)
  {
    var i :| 0 <= i <= |pieces| && p == Follow(from, pieces[..i]);
    DescentGoesDown(from, pieces[..i]);
    FollowConcat(from, pieces[..i], pieces[i..]);
    assert pieces[..i] + pieces[i..] == pieces;
    DescentGoesDown(p, pieces[i..]);
  }

  lemma OneStep(from: Components, piece: string)
    ensures Follow(from, [piece]) == Step(from, piece)
  {
    assert [piece][..0] == [];
    assert Follow(from, []) == from;
  }

  /** Below a directory of its own, a key that never climbs stays. */
  lemma StaysBelow(root: Components, top: string, key: string)
    requires NeverClimbs(key) && !Dots(top)
    ensures root + [top] <= Follow(root, Pieces(top, key))
  {
    FollowConcat(root, [top], Split(key));
    OneStep(root, top);
    DescentGoesDown(root + [top], Split(key));
  }

  /** Keys that never climb are clear of every base that does not climb either. */
  lemma PlainKeysAreClear(root: Components, key: string, base: string)
    requires NeverClimbs(key) && NeverClimbs(base)
    ensures Clear(root, key, LowerDir(root, base))
  {
    var tree := LowerDir(root, base);
    StaysBelow(root, "forks", key);
    StaysBelow(root, "bases", base);
    hide Follow, Split, Reached, Descends;
    assert tree[|root|] == "bases";
    assert ForkDir(root, key)[|root|] == "forks";
    forall part, p | Reached(Origin(root, key), PartPieces(key, part), p) ensures !(tree < p) {
      PartIsFollowed(root, key, part);
      PartDescends(key, part);
      DescentPasses(root, PartPieces(key, part), p);
      assert |p| > |root| ==> p[|root|] == "forks";
    }
  }

  lemma PartDescends(key: string, part: Part)
    requires NeverClimbs(key)
    ensures Descends(PartPieces(key, part))
  {
  }

  lemma {:induction false} SplitJoined(a: string, b: string)
    ensures Split(a + "/" + b) == Split(a) + Split(b)
    decreases |a|
  {
    var s := a + "/" + b;
    if a == "" {
      assert s[1..] == b;
    } else {
      assert s[1..] == a[1..] + "/" + b;
      SplitJoined(a[1..], b);
    }
  }

  lemma {:induction false} SplitPlain(a: string)
    requires '/' !in a
    ensures Split(a) == [a]
    decreases |a|
  {
    if a != "" {
      SplitPlain(a[1..]);
      assert [a[0]] + a[1..] == a;
    }
  }

  /** A key that is one ordinary component. */
  predicate Ordinary(name: string) {
    !Dots(name) && '/' !in name
  }

  lemma OrdinaryDir(root: Components, top: string, key: string)
    requires Ordinary(key) && !Dots(top)
    ensures NeverClimbs(key) && Follow(Origin(root, key), Pieces(top, key)) == root + [top] + [key]
  {
    SplitPlain(key);
    FollowConcat(root, [top], [key]);
    OneStep(root, top);
    OneStep(root + [top], key);
  }

  /** Pieces with slashes between them. */
  function Slashed(pieces: Components): string {
    if pieces == [] then "" else if |pieces| == 1 then pieces[0] else pieces[0] + "/" + Slashed(pieces[1..])
  }

  lemma {:induction false} SplitSlashed(pieces: Components)
    requires pieces != [] && forall i | 0 <= i < |pieces| :: '/' !in pieces[i]
    ensures Split(Slashed(pieces)) == pieces
    decreases |pieces|
  {
    hide Split;
    SplitPlain(pieces[0]);
    if |pieces| > 1 {
      SplitSlashed(pieces[1..]);
      SplitJoined(pieces[0], Slashed(pieces[1..]));
    }
  }

  function Ups(n: nat): Components {
    if n == 0 then [] else Ups(n - 1) + [".."]
  }

  lemma {:induction false} GoUp(p: Components, n: nat)
    requires n <= |p|
    ensures Follow(p, Ups(n)) == p[..|p| - n]
    decreases n
  {
    if n > 0 {
      GoUp(p, n - 1);
      assert Ups(n)[..|Ups(n)| - 1] == Ups(n - 1);
    }
  }

  lemma GoOver(root: Components, names: Components)
    requires Plain(names)
    ensures Follow(root, (["forks"] + Ups(1)) + names) == root + names
  {
    FollowConcat(root, ["forks"] + Ups(1), names);
    FollowConcat(root, ["forks"], Ups(1));
    OneStep(root, "forks");
    GoUp(root + ["forks"], 1);
    PlainPathLeadsDown(root, names);
  }

  /** The way over to the lower tree of a base: up from the forks and down again. */
  function Over(base: string): string {
    Slashed(["..", "bases", base, "lower"])
  }

  lemma LowerOf(root: Components, base: string)
    requires Ordinary(base)
    ensures LowerDir(root, base) == root + ["bases", base, "lower"]
  {
    OrdinaryDir(root, "bases", base);
    hide Follow;
    assert root + ["bases"] + [base] + ["lower"] == root + ["bases", base, "lower"];
  }

  /** For every root and every base there is a key whose fork is made in the lower tree. */
  lemma CrossingKeyReaches(root: Components, base: string)
    requires Ordinary(base)
    ensures ForkDir(root, Over(base)) == LowerDir(root, base)
    ensures !Clear(root, Over(base), LowerDir(root, base))
  {
    var names := ["bases", base, "lower"];
    SplitSlashed(["..", "bases", base, "lower"]);
    LowerOf(root, base);
    GoOver(root, names);
    assert Over(base)[0] == '.';
    hide Split, Slashed, Follow;
    assert Pieces("forks", Over(base)) == (["forks"] + Ups(1)) + names;
    if Clear(root, Over(base), LowerDir(root, base)) {
      ClearOfForkDir(root, Over(base), LowerDir(root, base));
    }
  }

  /** A key that comes back to the forks after a detour through the lower tree of a base. */
  function Detour(base: string, name: string, key: string): string {
    Slashed(["..", "bases", base, "lower", name, "..", "..", "..", "..", "forks", key])
  }

  lemma DetourPieces(base: string, name: string, key: string)
    requires Ordinary(base) && Ordinary(name) && Ordinary(key)
    ensures !Absolute(Detour(base, name, key))
    ensures Pieces("forks", Detour(base, name, key)) ==
            ((["forks"] + Ups(1)) + ["bases", base, "lower", name]) + Ups(4) + ["forks", key]
  {
    SplitSlashed(["..", "bases", base, "lower", name, "..", "..", "..", "..", "forks", key]);
    assert Detour(base, name, key)[0] == '.';
    hide Split, Slashed;
    assert Ups(4) == ["..", "..", "..", ".."];
  }

  lemma DetourLeads(root: Components, base: string, name: string, key: string)
    requires Ordinary(base) && Ordinary(name) && Ordinary(key)
    ensures var way := (["forks"] + Ups(1)) + ["bases", base, "lower", name];
            && Follow(root, way) == root + ["bases", base, "lower", name]
            && Follow(root, way + Ups(4) + ["forks", key]) == root + ["forks", key]
  {
    var names := ["bases", base, "lower", name];
    var way := (["forks"] + Ups(1)) + names;
    hide Follow, Ups;
    GoOver(root, names);
    GoUp(root + names, 4);
    assert (root + names)[..|root|] == root;
    FollowConcat(root, way, Ups(4));
    FollowConcat(root, way + Ups(4), ["forks", key]);
    PlainPathLeadsDown(root, ["forks", key]);
  }

  /** For every root and base there are keys whose own directory is the one of an ordinary key,
      and which are not clear of the lower tree: making their directories changes it on the way. */
  lemma DetourIsNotClear(root: Components, base: string, name: string, key: string)
    requires Ordinary(base) && Ordinary(name) && Ordinary(key)
    ensures ForkDir(root, Detour(base, name, key)) == ForkDir(root, key)
    ensures !Clear(root, Detour(base, name, key), LowerDir(root, base))
  {
    var k, lower := Detour(base, name, key), LowerDir(root, base);
    DetourPieces(base, name, key);
    DetourLeads(root, base, name, key);
    OrdinaryDir(root, "forks", key);
    LowerOf(root, base);
    hide Split, Follow, Slashed, Detour, Ups;
    assert root + ["forks"] + [key] == root + ["forks", key];
    var way := (["forks"] + Ups(1)) + ["bases", base, "lower", name];
    var pieces := PartPieces(k, Upper);
    assert pieces[..|way|] == way;
    assert root + ["bases", base, "lower", name] == lower + [name];
    assert Reached(root, pieces, lower + [name]);
  }

  // ---------------------------------------------------------------------
  // Two forks
  // ---------------------------------------------------------------------

  /** Some path lies in a directory of each fork. */
  ghost predicate Meet(root: Components, a: string, b: string) {
    exists p, q, path :: In(path, PartDir(root, a, p)) && In(path, PartDir(root, b, q))
  }

  /** The two forks have one directory, or one has its own below a part of the other. */
  predicate Clash(root: Components, a: string, b: string) {
    || ForkDir(root, a) == ForkDir(root, b)
    || (exists part: Part :: PartDir(root, a, part) <= ForkDir(root, b))
    || (exists part: Part :: PartDir(root, b, part) <= ForkDir(root, a))
  }

  lemma PartBelowPart(root: Components, a: string, p: Part, b: string, q: Part)
    ensures PartDir(root, a, p) <= PartDir(root, b, q) <==>
            (ForkDir(root, a) == ForkDir(root, b) && p == q) || PartDir(root, a, p) <= ForkDir(root, b)
  {
    var x, y := PartDir(root, a, p), PartDir(root, b, q);
    var f, g := ForkDir(root, a), ForkDir(root, b);
    hide ForkDir;
    if x <= y {
      if x == y {
        assert f == x[..|f|] && g == y[..|g|];
        assert x[|f|] == y[|f|];
      } else {
        WithinLast(x, g, q.Name());
      }
    }
    if x <= g {
      assert g == y[..|g|];
      PrefixOfPrefix(x, y, |g|);
    }
  }

  /** Two forks share a path exactly when they clash. */
  lemma MeetExactly(root: Components, a: string, b: string)
    ensures Meet(root, a, b) <==> Clash(root, a, b)
  {
    hide ForkDir;
    if Meet(root, a, b) {
      var p, q, path :| In(path, PartDir(root, a, p)) && In(path, PartDir(root, b, q));
      Nested(PartDir(root, a, p), PartDir(root, b, q), path);
      PartBelowPart(root, a, p, b, q);
      PartBelowPart(root, b, q, a, p);
    }
    if Clash(root, a, b) {
      if ForkDir(root, a) == ForkDir(root, b) {
        var path := PartDir(root, a, Upper);
        assert In(path, PartDir(root, a, Upper)) && In(path, PartDir(root, b, Upper));
      } else if part: Part :| PartDir(root, a, part) <= ForkDir(root, b) {
        PartBelowPart(root, a, part, b, Upper);
        var path := PartDir(root, b, Upper);
        assert In(path, PartDir(root, a, part)) && In(path, PartDir(root, b, Upper));
      } else {
        var part: Part :| PartDir(root, b, part) <= ForkDir(root, a);
        PartBelowPart(root, b, part, a, Upper);
        var path := PartDir(root, a, Upper);
        assert In(path, PartDir(root, a, Upper)) && In(path, PartDir(root, b, part));
      }
    }
  }

  /** No command on one key changes anything in the three directories of the other fork. */
  ghost predicate LeavesAlone(root: Components, a: string, b: string) {
    forall part :: Harmless(root, a, PartDir(root, b, part))
  }

  lemma LeavesAloneExactly(root: Components, a: string, b: string)
    requires forall part :: RootApart(root, PartDir(root, b, part))
    ensures LeavesAlone(root, a, b) <==> forall part :: Clear(root, a, PartDir(root, b, part))
  {
    hide Harmless, Clear, RootApart, PartDir;
    forall part ensures Harmless(root, a, PartDir(root, b, part)) <==> Clear(root, a, PartDir(root, b, part)) {
      HarmlessExactly(root, a, PartDir(root, b, part));
    }
  }

  /** The tree is not above the fork's directory, nor at or below its upper or work one, nor its
      merged one. */
  predicate EndsApart(root: Components, key: string, tree: Components) {
    && !(tree <= ForkDir(root, key))
    && !(PartDir(root, key, Upper) <= tree) && !(PartDir(root, key, Work) <= tree)
    && PartDir(root, key, Merged) != tree
  }

  lemma NotBeyond(tree: Components, p: Components, above: Components, name: string)
    requires !(tree <= above) && p <= above + [name]
    ensures !(tree < p)
  {
  }

  /** For a key that never climbs, only the ends of its paths count. */
  lemma DescentIsClear(root: Components, key: string, tree: Components)
    requires NeverClimbs(key)
    ensures Clear(root, key, tree) <==> EndsApart(root, key, tree)
  {
    if Clear(root, key, tree) {
      ClearOfForkDir(root, key, tree);
    }
    hide Follow, Split, Reached, Descends;
    if !(tree <= ForkDir(root, key)) {
      forall part, p | Reached(Origin(root, key), PartPieces(key, part), p) ensures !(tree < p) {
        PartIsFollowed(root, key, part);
        PartDescends(key, part);
        DescentPasses(root, PartPieces(key, part), p);
        NotBeyond(tree, p, ForkDir(root, key), part.Name());
      }
    }
  }

  lemma ClashExactly(root: Components, a: string, b: string)
    ensures Clash(root, a, b) <==>
            exists part :: !EndsApart(root, a, PartDir(root, b, part)) || !EndsApart(root, b, PartDir(root, a, part))
  {
    hide ForkDir;
    forall p, q
      ensures PartDir(root, a, p) <= PartDir(root, b, q) <==>
              (ForkDir(root, a) == ForkDir(root, b) && p == q) || PartDir(root, a, p) <= ForkDir(root, b)
      ensures PartDir(root, b, q) <= PartDir(root, a, p) <==>
              (ForkDir(root, a) == ForkDir(root, b) && p == q) || PartDir(root, b, q) <= ForkDir(root, a)
    {
      PartBelowPart(root, a, p, b, q);
      PartBelowPart(root, b, q, a, p);
    }
    if ForkDir(root, a) == ForkDir(root, b) {
      assert !EndsApart(root, a, PartDir(root, b, Upper));
    }
  }

  /** For two keys that never climb: neither fork's commands touch the other's directories exactly
      when the two do not clash. */
  lemma ForksKeepApartExactly(root: Components, a: string, b: string)
    requires Plain(root) && NeverClimbs(a) && NeverClimbs(b)
    ensures LeavesAlone(root, a, b) && LeavesAlone(root, b, a) <==> !Clash(root, a, b)
  {
    PartsApart(root, a);
    PartsApart(root, b);
    LeavesAloneExactly(root, a, b);
    LeavesAloneExactly(root, b, a);
    ClashExactly(root, a, b);
    hide LeavesAlone, NeverClimbs, RootApart, Plain, Clear, Clash, EndsApart, PartDir;
    forall part
      ensures Clear(root, a, PartDir(root, b, part)) <==> EndsApart(root, a, PartDir(root, b, part))
      ensures Clear(root, b, PartDir(root, a, part)) <==> EndsApart(root, b, PartDir(root, a, part))
    {
      DescentIsClear(root, a, PartDir(root, b, part));
      DescentIsClear(root, b, PartDir(root, a, part));
    }
  }

  /** The lower tree of a base that never climbs is not above the data root. */
  lemma BaseApart(root: Components, base: string)
    requires Plain(root) && NeverClimbs(base)
    ensures RootApart(root, LowerDir(root, base))
  {
    StaysBelow(root, "bases", base);
  }

  lemma PartsApart(root: Components, key: string)
    requires Plain(root) && NeverClimbs(key)
    ensures forall part :: RootApart(root, PartDir(root, key, part))
  {
    StaysBelow(root, "forks", key);
  }

  /** Different keys that are one ordinary component each never clash. */
  lemma OrdinaryKeysKeepApart(root: Components, a: string, b: string)
    requires Ordinary(a) && Ordinary(b) && a != b
    ensures !Clash(root, a, b)
  {
    OrdinaryDir(root, "forks", a);
    OrdinaryDir(root, "forks", b);
    hide Follow;
    assert ForkDir(root, a)[|root| + 1] == a && ForkDir(root, b)[|root| + 1] == b;
  }

  /** "./" before a key gives a second name to its directories. */
  lemma AliasClashes(root: Components, key: string)
    requires !Absolute(key)
    ensures ForkDir(root, "." + "/" + key) == ForkDir(root, key) && Clash(root, "." + "/" + key, key)
  {
    SplitPlain(".");
    SplitJoined(".", key);
    hide Split, Follow;
    assert ("." + "/" + key)[0] == '.';
    FollowConcat(root, ["forks"] + ["."], Split(key));
    FollowConcat(root, ["forks"], Split(key));
    FollowConcat(root, ["forks"], ["."]);
    OneStep(root, "forks");
    OneStep(root + ["forks"], ".");
    assert ["forks"] + (["."] + Split(key)) == (["forks"] + ["."]) + Split(key);
  }

  /** "/upper" after a key puts a fork into the upper directory of another. */
  lemma NestedClashes(root: Components, key: string)
    requires key != ""
    ensures ForkDir(root, key + "/" + "upper") == PartDir(root, key, Upper) && Clash(root, key, key + "/" + "upper")
  {
    SplitPlain("upper");
    SplitJoined(key, "upper");
    var k := key + "/" + "upper";
    assert k[0] == key[0];
    hide Split, Follow;
    var from := Origin(root, key);
    FollowConcat(from, Pieces("forks", key), ["upper"]);
    OneStep(ForkDir(root, key), "upper");
    assert Pieces("forks", k) == Pieces("forks", key) + ["upper"];
  }

  /** An absolute key replaces the data root: the fork lies wherever the key leads from "/". */
  lemma AbsoluteKeysIgnoreTheRoot(root: Components, key: string)
    ensures ForkDir(root, "/" + key) == Follow([], Split(key))
  {
    assert ("/" + key)[1..] == key;
    hide Follow;
    OneStep([], "");
    FollowConcat([], [""], Split(key));
  }
}
