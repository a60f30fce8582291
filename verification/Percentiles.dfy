/** Interpolated percentiles of the benchmark samples, over exact reals. */
module Percentiles {
  import opened Orders
  import opened Wrappers

  /** The value at a fractional rank of a sorted sample, or `None` where the index is out of range. */
  function AtRank(s: seq<real>, rank: real): Option<real> {
    var lower, upper := Index(rank.Floor), Index(-(-rank).Floor);
    if upper >= |s| || lower >= |s| then None
    else if lower == upper then Some(s[lower])
    else Some(Blend(s[lower], s[upper], rank - lower as real))
  }

  /** Linear interpolation, `f` of the way from `x` to `y`. */
  function Blend(x: real, y: real, f: real): real {
    x * (1.0 - f) + y * f
  }

  /** The cast to an unsigned index: a negative number becomes 0. */
  function Index(i: int): nat {
    if i < 0 then 0 else i
  }

  function Rank(p: real, n: nat): real {
    (p / 100.0) * ((n - 1) as real)
  }

  function OfSorted(s: seq<real>, p: real): Option<real> {
    if s == [] then Some(0.0) else if |s| == 1 then Some(s[0]) else AtRank(s, Rank(p, |s|))
  }

  ghost predicate Sorted(s: seq<real>) {
    forall i, j | 0 <= i < j < |s| :: s[i] <= s[j]
  }

  lemma SameLength(xs: seq<real>, ys: seq<real>)
    requires multiset(xs) == multiset(ys)
    ensures |xs| == |ys|
  {
    assert |multiset(xs)| == |multiset(ys)|;
  }

  /** The library sort, on the array. */
  method SortInPlace(a: array<real>)
    modifies a
    ensures Sorted(a[..]) && multiset(a[..]) == multiset(old(a[..]))
  {
    var sorted := SortBy(a[..], (x: real, y: real) => x <= y);
    SameLength(sorted, a[..]);
    for i := 0 to a.Length
      invariant a[..i] == sorted[..i]
    {
      a[i] := sorted[i];
    }
    assert a[..] == sorted;
  }

  /** Sorts the samples in place and reads the percentile off them. */
  method Percentile(samples: array<real>, p: real) returns (r: Option<real>)
    modifies samples
    ensures Sorted(samples[..]) && multiset(samples[..]) == multiset(old(samples[..]))
    ensures r == OfSorted(samples[..], p)
  {
    hide Blend;
    if samples.Length == 0 {
      return Some(0.0);
    }
    SortInPlace(samples);
    if samples.Length == 1 {
      return Some(samples[0]);
    }
    var rank := (p / 100.0) * ((samples.Length - 1) as real);
    var lower, upper := Index(rank.Floor), Index(-(-rank).Floor);
    if upper >= samples.Length || lower >= samples.Length {
      return None;
    }
    if lower == upper {
      return Some(samples[lower]);
    }
    var frac := rank - lower as real;
    return Some(Blend(samples[lower], samples[upper], frac));
  }

  // ---------------------------------------------------------------------------------------------
  // The sample's order does not matter
  // ---------------------------------------------------------------------------------------------

  lemma LeastFirst(s: seq<real>, x: real)
    requires Sorted(s) && x in s
    ensures s[0] <= x
  {
  }

  lemma Tail(a: seq<real>, b: seq<real>)
    requires a != [] && b != [] && a[0] == b[0] && multiset(a) == multiset(b)
    ensures multiset(a[1..]) == multiset(b[1..])
  {
    assert a == [a[0]] + a[1..] && b == [b[0]] + b[1..];
    assert multiset(a[1..]) == multiset(a) - multiset{a[0]};
    assert multiset(b[1..]) == multiset(b) - multiset{b[0]};
  }

  lemma {:induction false} SortedPermutationsAgree(a: seq<real>, b: seq<real>)
    requires Sorted(a) && Sorted(b) && multiset(a) == multiset(b)
    ensures a == b
    decreases |a|
  {
    assert |multiset(a)| == |multiset(b)|;
    if a != [] {
      assert a[0] in multiset(b) && b[0] in multiset(a);
      LeastFirst(a, b[0]);
      LeastFirst(b, a[0]);
      Tail(a, b);
      SortedPermutationsAgree(a[1..], b[1..]);
      assert a == [a[0]] + a[1..] && b == [b[0]] + b[1..];
    }
  }

  /** Two samples with the same values, in whatever order, have the same percentiles. */
  lemma OrderIrrelevant(a: seq<real>, b: seq<real>, xs: seq<real>, ys: seq<real>, p: real)
    requires multiset(xs) == multiset(ys)
    requires Sorted(a) && multiset(a) == multiset(xs)
    requires Sorted(b) && multiset(b) == multiset(ys)
    ensures OfSorted(a, p) == OfSorted(b, p)
  {
    SortedPermutationsAgree(a, b);
  }

  // ---------------------------------------------------------------------------------------------
  // Monotonicity
  // ---------------------------------------------------------------------------------------------

  lemma RankMonotone(p: real, q: real, n: nat)
    requires p <= q && n >= 1
    ensures Rank(p, n) <= Rank(q, n)
    ensures q <= 100.0 ==> Rank(q, n) <= (n - 1) as real
    ensures q > 100.0 && n > 1 ==> Rank(q, n) > (n - 1) as real
  {
    var m := (n - 1) as real;
    assert m >= 0.0;
    assert (q / 100.0 - p / 100.0) * m >= 0.0;
    if q <= 100.0 {
      assert (1.0 - q / 100.0) * m >= 0.0;
    } else if n > 1 {
      assert (q / 100.0 - 1.0) * m > 0.0;
    }
  }

  /** The cell that a rank falls in, and how far it is into it. */
  lemma Cell(rank: real)
    ensures rank.Floor as real <= rank < rank.Floor as real + 1.0
    ensures -(-rank).Floor == if rank == rank.Floor as real then rank.Floor else rank.Floor + 1
  {
  }

  lemma Product(a: real, b: real)
    requires a >= 0.0 && b >= 0.0
    ensures a * b >= 0.0
  {
  }

  lemma Between(x: real, y: real, f: real)
    requires x <= y && 0.0 <= f <= 1.0
    ensures x <= Blend(x, y, f) <= y
  {
    Product(y - x, f);
    Product(y - x, 1.0 - f);
    assert Blend(x, y, f) == x + (y - x) * f == y - (y - x) * (1.0 - f);
  }

  lemma Slope(x: real, y: real, f: real, g: real)
    requires x <= y && f <= g
    ensures Blend(x, y, f) <= Blend(x, y, g)
  {
    Product(y - x, g - f);
    assert Blend(x, y, g) - Blend(x, y, f) == (y - x) * (g - f);
  }

  /** A rank within the sample has a value, between the two samples around it. */
  lemma AroundRank(s: seq<real>, rank: real)
    requires Sorted(s) && s != [] && 0.0 <= rank <= (|s| - 1) as real
    ensures AtRank(s, rank).Some?
    ensures s[rank.Floor] <= AtRank(s, rank).value
    ensures rank.Floor + 1 < |s| ==> AtRank(s, rank).value <= s[rank.Floor + 1]
    ensures rank.Floor + 1 == |s| ==> AtRank(s, rank).value == s[rank.Floor]
  {
    hide Blend;
    Cell(rank);
    if rank != rank.Floor as real {
      Between(s[rank.Floor], s[rank.Floor + 1], rank - rank.Floor as real);
    }
  }

  lemma AtRankMonotone(s: seq<real>, a: real, b: real)
    requires Sorted(s) && s != [] && 0.0 <= a <= b <= (|s| - 1) as real
    ensures AtRank(s, a).Some? && AtRank(s, b).Some?
    ensures AtRank(s, a).value <= AtRank(s, b).value
  {
    hide Blend;
    AroundRank(s, a);
    AroundRank(s, b);
    Cell(a);
    Cell(b);
    if a.Floor == b.Floor {
      if a != a.Floor as real && b != b.Floor as real {
        Slope(s[a.Floor], s[a.Floor + 1], a - a.Floor as real, b - b.Floor as real);
      }
    } else {
      assert s[a.Floor + 1] <= s[b.Floor];
    }
  }

  lemma NegativeRank(s: seq<real>, rank: real)
    requires s != [] && rank <= 0.0
    ensures AtRank(s, rank) == Some(s[0])
  {
    Cell(rank);
  }

  /** A percentile exists exactly when `p` is at most 100 or there is at most one sample. */
  lemma DefinedExactlyWhen(s: seq<real>, p: real)
    requires Sorted(s)
    ensures OfSorted(s, p).Some? <==> p <= 100.0 || |s| <= 1
  {
    if |s| > 1 {
      var rank := Rank(p, |s|);
      RankMonotone(p, p, |s|);
      Cell(rank);
      if rank <= 0.0 {
        NegativeRank(s, rank);
      } else if p <= 100.0 {
        AroundRank(s, rank);
      }
    }
  }

  /** A larger `p` never gives a smaller percentile. */
  lemma Monotone(s: seq<real>, p: real, q: real)
    requires Sorted(s) && p <= q <= 100.0
    ensures OfSorted(s, p).Some? && OfSorted(s, q).Some?
    ensures OfSorted(s, p).value <= OfSorted(s, q).value
  {
    if |s| > 1 {
      var a, b := Rank(p, |s|), Rank(q, |s|);
      RankMonotone(p, q, |s|);
      if a <= 0.0 {
        NegativeRank(s, a);
        AtRankMonotone(s, 0.0, if b <= 0.0 then 0.0 else b);
        NegativeRank(s, 0.0);
        if b <= 0.0 {
          NegativeRank(s, b);
        }
      } else {
        AtRankMonotone(s, a, b);
      }
    }
  }

  /** Percentiles lie between the smallest and the largest sample, which are the 0th and the 100th. */
  lemma BetweenExtremes(s: seq<real>, p: real)
    requires Sorted(s) && s != [] && p <= 100.0
    ensures OfSorted(s, p).Some?
    ensures s[0] <= OfSorted(s, p).value <= s[|s| - 1]
    ensures OfSorted(s, 0.0) == Some(s[0]) && OfSorted(s, 100.0) == Some(s[|s| - 1])
  {
    if |s| > 1 {
      var last := (|s| - 1) as real;
      assert Rank(0.0, |s|) == 0.0 && Rank(100.0, |s|) == last;
      NegativeRank(s, 0.0);
      Cell(last);
      if p < 0.0 {
        RankMonotone(p, 0.0, |s|);
        NegativeRank(s, Rank(p, |s|));
      } else {
        Monotone(s, 0.0, p);
      }
      Monotone(s, p, 100.0);
    }
  }

  /** `f` of the way from `x` to `y`, on the line through both. */
  function Along(x: real, y: real, f: real): real {
    x + (y - x) * f
  }

  lemma AlongIs(x: real, y: real, f: real)
    ensures Along(x, y, 0.0) == x && Along(x, y, 1.0) == y && Blend(x, y, f) == Along(x, y, f)
  {
  }

  lemma AtRankIsLinear(s: seq<real>, rank: real, i: nat)
    requires i + 1 < |s| && i as real <= rank <= (i + 1) as real
    ensures AtRank(s, rank) == Some(Along(s[i], s[i + 1], rank - i as real))
  {
    AlongIs(s[i], s[i + 1], rank - i as real);
    hide Blend, Along;
    Cell(rank);
    assert rank.Floor == if rank == (i + 1) as real then i + 1 else i;
  }

  /** Where percentile `p` of `n` samples lies, counted in samples from the first. */
  function Place(p: real, n: nat): real {
    p * (n - 1) as real / 100.0
  }

  lemma RankIsPlace(p: real, n: nat)
    requires n >= 1
    ensures Rank(p, n) == Place(p, n)
    ensures p <= 0.0 ==> Place(p, n) <= 0.0
  {
    if p <= 0.0 {
      Product(-p / 100.0, (n - 1) as real);
    }
  }

  /** Percentiles are linear between neighbouring samples, and below 0 they stay at the first one. */
  lemma LinearBetweenSamples(s: seq<real>, p: real, i: nat)
    requires i + 1 < |s|
    ensures i as real <= Place(p, |s|) <= (i + 1) as real ==>
              OfSorted(s, p) == Some(Along(s[i], s[i + 1], Place(p, |s|) - i as real))
    ensures p <= 0.0 ==> OfSorted(s, p) == Some(s[0])
    ensures OfSorted([], p) == Some(0.0) && OfSorted([s[0]], p) == Some(s[0])
  {
    hide AtRank, Rank, Along, Place;
    RankIsPlace(p, |s|);
    if p <= 0.0 {
      NegativeRank(s, Rank(p, |s|));
    }
    if i as real <= Place(p, |s|) <= (i + 1) as real {
      AtRankIsLinear(s, Place(p, |s|), i);
    }
  }

  /** The three percentiles a benchmark reports come out in order. */
  lemma ReportedInOrder(s: seq<real>)
    requires Sorted(s)
    ensures OfSorted(s, 50.0).Some? && OfSorted(s, 95.0).Some? && OfSorted(s, 99.0).Some?
    ensures OfSorted(s, 50.0).value <= OfSorted(s, 95.0).value <= OfSorted(s, 99.0).value
  {
    Monotone(s, 50.0, 95.0);
    Monotone(s, 95.0, 99.0);
  }
}
