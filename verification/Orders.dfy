/** Orders on sequences of elements, and the library sort that the commands call. */
module Orders {

  ghost predicate StrictOrder<T(!new)>(less: (T, T) -> bool) {
    && (forall x :: !less(x, x))
    && (forall x, y, z :: less(x, y) && less(y, z) ==> less(x, z))
  }

  ghost predicate TotalPreorder<T(!new)>(leq: (T, T) -> bool) {
    && (forall x, y :: leq(x, y) || leq(y, x))
    && (forall x, y, z :: leq(x, y) && leq(y, z) ==> leq(x, z))
  }

  ghost predicate Increasing<T>(less: (T, T) -> bool, s: seq<T>) {
    forall i, j | 0 <= i < j < |s| :: less(s[i], s[j])
  }

  predicate NoDuplicates<T(==)>(s: seq<T>) {
    forall i, j | 0 <= i < j < |s| :: s[i] != s[j]
  }

  /** A strictly increasing sequence is determined by the set of its elements. */
  lemma {:induction false} SameElementsSameSequence<T(!new)>(less: (T, T) -> bool, a: seq<T>, b: seq<T>)
    requires StrictOrder(less)
    requires Increasing(less, a) && Increasing(less, b)
    requires forall x :: x in a <==> x in b
    ensures a == b
  {
    if a == [] {
      assert forall i | 0 <= i < |b| :: b[i] in b;
    } else {
      assert a[0] in b && b[0] in a;
      var j :| 0 <= j < |b| && b[j] == a[0];
      var i :| 0 <= i < |a| && a[i] == b[0];
      assert a[0] == b[0];
      forall x ensures x in a[1..] <==> x in b[1..] {
        assert x in a[1..] ==> x in a && x != a[0];
        assert x in b[1..] ==> x in b && x != b[0];
        assert x in a && x != a[0] ==> x in a[1..];
        assert x in b && x != b[0] ==> x in b[1..];
      }
      SameElementsSameSequence(less, a[1..], b[1..]);
      assert a == [a[0]] + a[1..] && b == [b[0]] + b[1..];
    }
  }

  /** Having no duplicates is a property of the multiset of elements. */
  lemma NoDuplicatesIsMultisetProperty<T>(a: seq<T>, b: seq<T>)
    requires multiset(a) == multiset(b) && NoDuplicates(a)
    ensures NoDuplicates(b)
  {
    forall i, j | 0 <= i < j < |b| ensures b[i] != b[j] {
      if b[i] == b[j] {
        assert b == b[..i] + [b[i]] + b[i + 1..j] + [b[j]] + b[j + 1..];
        assert multiset(b)[b[i]] >= 2;
        MultiplicityAtMostOne(a, b[i]);
      }
    }
  }

  lemma RemoveAt<T>(b: seq<T>, j: nat)
    requires NoDuplicates(b) && j < |b|
    ensures NoDuplicates(b[..j] + b[j + 1..])
    ensures forall x :: x in b[..j] + b[j + 1..] <==> x in b && x != b[j]
  {
    var rest := b[..j] + b[j + 1..];
    assert forall i | 0 <= i < |rest| :: rest[i] == b[if i < j then i else i + 1];
    forall x | x in b && x != b[j] ensures x in rest {
      var i :| 0 <= i < |b| && b[i] == x;
      assert rest[if i < j then i else i - 1] == x;
    }
  }

  lemma RemoveFromBoth<T>(a: seq<T>, b: seq<T>, j: nat)
    requires NoDuplicates(a) && NoDuplicates(b) && forall x :: x in a <==> x in b
    requires a != [] && j < |b| && b[j] == a[0]
    ensures NoDuplicates(a[1..]) && NoDuplicates(b[..j] + b[j + 1..])
    ensures forall x :: x in a[1..] <==> x in b[..j] + b[j + 1..]
  {
    RemoveAt(b, j);
    forall x ensures x in a[1..] <==> x in b[..j] + b[j + 1..] {
      assert x in a[1..] <==> x in a && x != a[0];
    }
  }

  lemma {:induction false} MultiplicityAtMostOne<T>(a: seq<T>, x: T)
    requires NoDuplicates(a)
    ensures multiset(a)[x] <= 1
  {
    if a != [] {
      assert a == [a[0]] + a[1..];
      MultiplicityAtMostOne(a[1..], x);
      if a[0] == x {
        assert x !in a[1..];
      }
    }
  }

  lemma InsertedElements<T>(ys: seq<T>, k: nat, x: T)
    requires k <= |ys|
    ensures multiset(ys[..k] + [x] + ys[k..]) == multiset(ys) + multiset{x}
  {
    assert ys == ys[..k] + ys[k..];
  }

  lemma InsertAt<T>(leq: (T, T) -> bool, ys: seq<T>, k: nat, x: T)
    requires Increasing(leq, ys) && k <= |ys|
    requires forall j | 0 <= j < k :: leq(ys[j], x)
    requires forall j | k <= j < |ys| :: leq(x, ys[j])
    ensures Increasing(leq, ys[..k] + [x] + ys[k..])
    ensures multiset(ys[..k] + [x] + ys[k..]) == multiset(ys) + multiset{x}
  {
    InsertedElements(ys, k, x);
    var zs := ys[..k] + [x] + ys[k..];
    assert forall j | 0 <= j < |zs| :: zs[j] == if j < k then ys[j] else if j == k then x else ys[j - 1];
  }

  lemma BelowBound<T(!new)>(leq: (T, T) -> bool, ys: seq<T>, k: nat, x: T)
    requires TotalPreorder(leq) && Increasing(leq, ys) && k <= |ys|
    requires k > 0 ==> leq(ys[k - 1], x)
    ensures forall j | 0 <= j < k :: leq(ys[j], x)
  {
    forall j | 0 <= j < k ensures leq(ys[j], x) {
      assert j < k - 1 ==> leq(ys[j], ys[k - 1]);
    }
  }

  /** Concatenation regrouped, for loops that append one piece at a time. */
  lemma Regroup<T>(a: seq<T>, b: seq<T>, c: seq<T>, d: seq<T>)
    ensures a + ((b + c) + d) == ((a + b) + c) + d
    ensures c == [] ==> (a + b) + c == a + b
  {}

  /** The stable comparison sort of the standard library, as an insertion sort. */
  method SortBy<T(!new)>(xs: seq<T>, leq: (T, T) -> bool) returns (ys: seq<T>)
    requires TotalPreorder(leq)
    ensures Increasing(leq, ys)
    ensures multiset(ys) == multiset(xs)
  {
    ys := [];
    for i := 0 to |xs|
      invariant Increasing(leq, ys)
      invariant multiset(ys) == multiset(xs[..i])
    {
      var x := xs[i];
      var k := |ys|;
      while k > 0 && !leq(ys[k - 1], x)
        invariant 0 <= k <= |ys|
        invariant forall j | k <= j < |ys| :: leq(x, ys[j])
      {
        k := k - 1;
      }
      BelowBound(leq, ys, k, x);
      InsertAt(leq, ys, k, x);
      ys := ys[..k] + [x] + ys[k..];
      assert xs[..i + 1] == xs[..i] + [x];
    }
    assert xs[..|xs|] == xs;
  }
}
