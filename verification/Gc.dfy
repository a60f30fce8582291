/** `fastenv gc`: two eviction policies united, then one discard after another. */
module Gc {
  import opened Wrappers
  import opened Orders
  import opened Workspace
  import opened Registry
  import opened ForkLifecycle
  import opened ForkOutcomes
  import Du

  /** A fork whose `created_at` parses, with the instant in nanoseconds. */
  datatype Candidate = Candidate(key: Key, time: int)

  predicate OlderFirst(a: Candidate, b: Candidate) { a.time <= b.time }

  ghost predicate DistinctKeys(cs: seq<Candidate>) {
    forall i, j | 0 <= i < j < |cs| :: cs[i].key != cs[j].key
  }

  ghost predicate ListsParseable(forks: map<Key, ForkEntry>, cs: seq<Candidate>) {
    DistinctKeys(cs) &&
    forall c :: c in cs <==> c.key in forks && forks[c.key].createdAt == At(c.time)
  }

  /** The forks with a parseable timestamp, in the arbitrary order of the hash map. */
  method ForksWithTime(forks: map<Key, ForkEntry>) returns (cs: seq<Candidate>)
    ensures ListsParseable(forks, cs)
  {
    cs := [];
    var left := forks.Keys;
    while left != {}
      invariant left <= forks.Keys
      invariant DistinctKeys(cs)
      invariant forall c :: c in cs <==> c.key in forks.Keys - left && forks[c.key].createdAt == At(c.time)
      decreases left
    {
      var k :| k in left;
      left := left - {k};
      if forks[k].createdAt.At? {
        assert forall i | 0 <= i < |cs| :: cs[i] in cs;
        cs := cs + [Candidate(k, forks[k].createdAt.nanos)];
      }
    }
  }

  // ---------------------------------------------------------------------
  // The two policies
  // ---------------------------------------------------------------------

  /** The longest duration chrono represents, in nanoseconds; beyond it the age limit
      falls back to zero. */
  const MAX_CHRONO_NANOS: nat := 9_223_372_036_854_775_807 * 1_000_000

  function EffectiveMaxAge(maxAge: nat): nat {
    if maxAge > MAX_CHRONO_NANOS then 0 else maxAge
  }

  /** At or over the age limit. A timestamp in the future has a negative age. */
  predicate Aged(c: Candidate, now: int, maxAge: Option<nat>) {
    maxAge.Some? && now - c.time >= EffectiveMaxAge(maxAge.value)
  }

  ghost function AgedCount(order: seq<Candidate>, now: int, maxAge: Option<nat>): (n: nat)
    ensures n <= |order|
  {
    if order == [] then 0
    else AgedCount(order[..|order| - 1], now, maxAge) + if Aged(order[|order| - 1], now, maxAge) then 1 else 0
  }

  function Excess(total: nat, maxForks: Option<nat>): (n: nat)
    ensures n <= total
  {
    if maxForks.Some? && total > maxForks.value then total - maxForks.value else 0
  }

  ghost function EvictionCount(order: seq<Candidate>, now: int, maxAge: Option<nat>, maxForks: Option<nat>): (n: nat)
    ensures n <= |order|
  {
    var aged, excess := AgedCount(order, now, maxAge), Excess(|order|, maxForks);
    if aged >= excess then aged else excess
  }

  /** In a list sorted by time the aged forks come first. */
  lemma {:induction false} AgedForksComeFirst(order: seq<Candidate>, now: int, maxAge: Option<nat>)
    requires Increasing(OlderFirst, order)
    ensures forall i | 0 <= i < |order| :: Aged(order[i], now, maxAge) <==> i < AgedCount(order, now, maxAge)
  {
    if order != [] {
      var n := |order| - 1;
      AgedForksComeFirst(order[..n], now, maxAge);
      if n > 0 {
        assert OlderFirst(order[n - 1], order[n]);
        assert order[..n][n - 1] == order[n - 1];
      }
      forall i | 0 <= i < n ensures order[..n][i] == order[i] {}
    }
  }

  /** The candidate has reached the age limit, which falls back to zero beyond what chrono can
      represent. */
  predicate PastLimit(c: Candidate, now: int, maxAge: Option<nat>) {
    maxAge.Some? && now - c.time >= if maxAge.value > 9_223_372_036_854_775_807_000_000 then 0 else maxAge.value
  }

  /** More candidates than are to be kept stand at position `i` or later. */
  predicate TooManyFrom(total: nat, i: nat, maxForks: Option<nat>) {
    maxForks.Some? && total - i > maxForks.value
  }

  /** The list holds, in order, exactly the candidates that have reached the age limit and those
      that are followed by too many. */
  ghost predicate ListsDue(order: seq<Candidate>, list: seq<Key>, now: int, maxAge: Option<nat>, maxForks: Option<nat>) {
    && |list| <= |order|
    && (forall i | 0 <= i < |list| :: list[i] == order[i].key)
    && (forall i | 0 <= i < |order| ::
          order[i].key in list <==> PastLimit(order[i], now, maxAge) || TooManyFrom(|order|, i, maxForks))
  }

  lemma EvictionCountIsDue(order: seq<Candidate>, now: int, maxAge: Option<nat>, maxForks: Option<nat>)
    requires Increasing(OlderFirst, order) && DistinctKeys(order)
    ensures ListsDue(order, KeysOf(order)[..EvictionCount(order, now, maxAge, maxForks)], now, maxAge, maxForks)
  {
    var n := EvictionCount(order, now, maxAge, maxForks);
    var list := KeysOf(order)[..n];
    AgedForksComeFirst(order, now, maxAge);
    forall i | 0 <= i < |order|
      ensures order[i].key in list <==> PastLimit(order[i], now, maxAge) || TooManyFrom(|order|, i, maxForks)
    {
      assert Aged(order[i], now, maxAge) <==> PastLimit(order[i], now, maxAge);
      if order[i].key in list {
        var j :| 0 <= j < n && list[j] == order[i].key;
        assert j == i;
      }
      if i < n {
        assert list[i] == order[i].key;
      }
    }
  }

  lemma ListedIsPrefix(order: seq<Candidate>, list: seq<Key>, i: nat)
    requires DistinctKeys(order) && i < |order|
    requires |list| <= |order| && forall j | 0 <= j < |list| :: list[j] == order[j].key
    ensures order[i].key in list <==> i < |list|
  {
    if order[i].key in list {
      var j :| 0 <= j < |list| && list[j] == order[i].key;
      assert j == i;
    }
    if i < |list| {
      assert list[i] == order[i].key;
    }
  }

  /** Without an age limit gc lists as many forks as there are too many, and none otherwise. */
  lemma WithoutAgeLimit(order: seq<Candidate>, list: seq<Key>, now: int, maxForks: Option<nat>)
    requires DistinctKeys(order) && ListsDue(order, list, now, None, maxForks)
    ensures |list| == if maxForks.Some? && |order| > maxForks.value then |order| - maxForks.value else 0
  {
    if |list| < |order| {
      ListedIsPrefix(order, list, |list|);
    }
    if list != [] {
      ListedIsPrefix(order, list, |list| - 1);
    }
  }

  ghost function KeysOf(cs: seq<Candidate>): (ks: seq<Key>)
    ensures |ks| == |cs| && forall i | 0 <= i < |cs| :: ks[i] == cs[i].key
  {
    seq(|cs|, i requires 0 <= i < |cs| => cs[i].key)
  }

  ghost function FirstKeys(cs: seq<Candidate>, n: nat): set<Key>
    requires n <= |cs|
  {
    set j | 0 <= j < n :: cs[j].key
  }

  lemma FirstKeysMember(cs: seq<Candidate>, n: nat, i: nat)
    requires DistinctKeys(cs) && n <= |cs| && i < |cs|
    ensures cs[i].key in FirstKeys(cs, n) <==> i < n
  {
    if cs[i].key in FirstKeys(cs, n) {
      var j :| 0 <= j < n && cs[j].key == cs[i].key;
      assert j == i;
    }
  }

  /** The TTL policy: every fork at or over the age limit. */
  method ExpiredForks(sorted: seq<Candidate>, now: int, maxAge: Option<nat>) returns (expired: set<Key>)
    requires Increasing(OlderFirst, sorted)
    ensures expired == FirstKeys(sorted, AgedCount(sorted, now, maxAge))
    ensures expired == set i | 0 <= i < |sorted| && PastLimit(sorted[i], now, maxAge) :: sorted[i].key
  {
    AgedForksComeFirst(sorted, now, maxAge);
    ghost var aged := AgedCount(sorted, now, maxAge);
    expired := {};
    if maxAge.Some? {
      for i := 0 to |sorted|
        invariant expired == FirstKeys(sorted, if i < aged then i else aged)
      {
        if now - sorted[i].time >= EffectiveMaxAge(maxAge.value) {
          assert Aged(sorted[i], now, maxAge);
          assert FirstKeys(sorted, i + 1) == FirstKeys(sorted, i) + {sorted[i].key};
          expired := expired + {sorted[i].key};
        } else {
          assert !Aged(sorted[i], now, maxAge);
        }
      }
    } else if sorted != [] {
      assert !Aged(sorted[0], now, maxAge);
    }
    assert forall i | 0 <= i < |sorted| :: PastLimit(sorted[i], now, maxAge) <==> i < aged;
  }

  /** The LRU policy: the oldest forks beyond the number to keep. */
  method SurplusForks(sorted: seq<Candidate>, maxForks: Option<nat>) returns (surplus: set<Key>)
    ensures surplus == FirstKeys(sorted, Excess(|sorted|, maxForks))
    ensures surplus == set i | 0 <= i < |sorted| && TooManyFrom(|sorted|, i, maxForks) :: sorted[i].key
  {
    surplus := {};
    if maxForks.Some? && |sorted| > maxForks.value {
      var excess := |sorted| - maxForks.value;
      for i := 0 to excess
        invariant surplus == FirstKeys(sorted, i)
      {
        assert FirstKeys(sorted, i + 1) == FirstKeys(sorted, i) + {sorted[i].key};
        surplus := surplus + {sorted[i].key};
      }
    }
  }

  /** The eviction list: whichever policies apply, a prefix of the forks sorted by time, of
      the length the stronger policy asks for. */
  method SelectEvictions(forks: map<Key, ForkEntry>, now: int, maxAge: Option<nat>, maxForks: Option<nat>)
    returns (list: seq<Key>, ghost order: seq<Candidate>)
    ensures ListsParseable(forks, order) && Increasing(OlderFirst, order)
    ensures list == KeysOf(order)[..EvictionCount(order, now, maxAge, maxForks)]
    ensures ListsDue(order, list, now, maxAge, maxForks)
  {
    var listed := ForksWithTime(forks);
    var sorted := SortBy(listed, OlderFirst);
    order := sorted;
    SortedStillLists(forks, listed, sorted);
    var expired := ExpiredForks(sorted, now, maxAge);
    var surplus := SurplusForks(sorted, maxForks);
    var toEvict := expired + surplus;
    ghost var n := EvictionCount(sorted, now, maxAge, maxForks);
    assert toEvict == FirstKeys(sorted, n);
    list := InOrder(sorted, toEvict, n);
    EvictionCountIsDue(sorted, now, maxAge, maxForks);
  }

  /** The marked keys, oldest first. */
  method InOrder(sorted: seq<Candidate>, toEvict: set<Key>, ghost n: nat) returns (list: seq<Key>)
    requires DistinctKeys(sorted) && n <= |sorted| && toEvict == FirstKeys(sorted, n)
    ensures list == KeysOf(sorted)[..n]
  {
    list := [];
    for i := 0 to |sorted|
      invariant list == KeysOf(sorted)[..if i <= n then i else n]
    {
      FirstKeysMember(sorted, n, i);
      if sorted[i].key in toEvict {
        list := list + [sorted[i].key];
      }
    }
  }

  lemma SortedStillLists(forks: map<Key, ForkEntry>, listed: seq<Candidate>, sorted: seq<Candidate>)
    requires ListsParseable(forks, listed) && multiset(listed) == multiset(sorted)
    ensures ListsParseable(forks, sorted)
  {
    assert NoDuplicates(listed);
    NoDuplicatesIsMultisetProperty(listed, sorted);
    forall c ensures c in sorted <==> c in listed {
      assert c in sorted <==> c in multiset(sorted);
      assert c in listed <==> c in multiset(listed);
    }
    forall i, j | 0 <= i < j < |sorted| ensures sorted[i].key != sorted[j].key {
      assert sorted[i] in sorted && sorted[j] in sorted;
      assert sorted[i] in listed && sorted[j] in listed && sorted[i] != sorted[j];
    }
  }

  // ---------------------------------------------------------------------
  // Evicting
  // ---------------------------------------------------------------------

  /** What gc measures for a fork before discarding it; a failed measurement counts 0. */
  ghost function UpperBytes(h: Host, key: Key, measured: Key -> bool): nat {
    if key in h.doc.forks && measured(key) && h.doc.forks[key].upperPath in h.dirs
    then Du.ArchiveBytes(Walk(h.dirs[h.doc.forks[key].upperPath]))
    else 0
  }

  ghost function TotalBytes(h: Host, keys: seq<Key>, measured: Key -> bool): nat {
    if keys == [] then 0
    else TotalBytes(h, keys[..|keys| - 1], measured) + UpperBytes(h, keys[|keys| - 1], measured)
  }

  predicate DistinctList(keys: seq<Key>) {
    forall i, j | 0 <= i < j < |keys| :: keys[i] != keys[j]
  }

  ghost predicate Outside(p: Place, keys: seq<Key>) {
    forall k | k in keys :: !OfFork(p, k)
  }

  /** The forks not attempted are as they were, and so is everything outside the forks
      attempted. */
  ghost predicate Untouched(h: Host, t: Host, attempted: seq<Key>) {
    && t.doc.bases == h.doc.bases
    && (forall k | k !in attempted :: (k in t.doc.forks <==> k in h.doc.forks))
    && (forall k | k !in attempted && k in t.doc.forks :: t.doc.forks[k] == h.doc.forks[k])
    && (forall p | Outside(p, attempted) :: SameAt(h, t, p))
  }

  /** The outcome for one attempted fork: gone with its directories, or still registered. */
  ghost predicate Settled(h: Host, t: Host, k: Key, gone: bool)
    requires k in h.doc.forks
  {
    if gone then k !in t.doc.forks && Upper(k) !in t.dirs && Work(k) !in t.dirs
    else k in t.doc.forks && t.doc.forks[k] == h.doc.forks[k]
  }

  ghost predicate Reported(attempted: seq<Key>, evicted: seq<Key>) {
    && DistinctList(evicted)
    && (forall k | k in evicted :: k in attempted)
    && |evicted| <= |attempted|
    && (|evicted| == |attempted| ==> evicted == attempted)
  }

  /** What the eviction loop leaves, given the forks it reports evicted. */
  ghost predicate Evicted(h: Host, t: Host, attempted: seq<Key>, evicted: seq<Key>) {
    && Untouched(h, t, attempted)
    && (forall k | k in attempted && k in h.doc.forks :: Settled(h, t, k, k in evicted))
    && Reported(attempted, evicted)
  }

  lemma ReportedExtends(attempted: seq<Key>, evicted: seq<Key>, key: Key, ok: bool)
    requires Reported(attempted, evicted) && key !in attempted
    ensures Reported(attempted + [key], if ok then evicted + [key] else evicted)
  {}

  lemma UntouchedExtends(h: Host, mid: Host, attempted: seq<Key>, key: Key, env: DiscardEnv)
    requires HostInv(mid) && Untouched(h, mid, attempted)
    ensures Untouched(h, ExecDiscard(mid, key, env).0, attempted + [key])
  {
    var t := ExecDiscard(mid, key, env).0;
    var all := attempted + [key];
    DiscardDropsEntry(mid, key, env);
    forall p | Outside(p, all) ensures SameAt(h, t, p) {
      assert key in all && forall k | k in attempted :: k in all;
      DiscardStays(mid, key, env, p);
      assert Outside(p, attempted);
    }
  }

  lemma SettledStays(h: Host, mid: Host, k: Key, gone: bool, key: Key, env: DiscardEnv)
    requires HostInv(mid) && k in h.doc.forks && Settled(h, mid, k, gone) && k != key
    ensures Settled(h, ExecDiscard(mid, key, env).0, k, gone)
  {
    DiscardDropsEntry(mid, key, env);
    DiscardStays(mid, key, env, Upper(k));
    DiscardStays(mid, key, env, Work(k));
  }

  lemma DiscardExtends(h: Host, mid: Host, attempted: seq<Key>, evicted: seq<Key>, key: Key, env: DiscardEnv)
    requires HostInv(mid) && Evicted(h, mid, attempted, evicted)
    requires key !in attempted && key in h.doc.forks
    ensures var (t, ok) := ExecDiscard(mid, key, env);
            HostInv(t) && Evicted(h, t, attempted + [key], if ok then evicted + [key] else evicted)
  {
    hide ExecDiscard;
    var (t, ok) := ExecDiscard(mid, key, env);
    var evicted' := if ok then evicted + [key] else evicted;
    StepKeepsHost(mid, Discard(key, env));
    UntouchedExtends(h, mid, attempted, key, env);
    ReportedExtends(attempted, evicted, key, ok);
    forall k | k in attempted + [key] && k in h.doc.forks ensures Settled(h, t, k, k in evicted') {
      if k == key {
        DiscardDropsEntry(mid, key, env);
      } else {
        SettledStays(h, mid, k, k in evicted, key, env);
      }
    }
  }

  lemma SameBytes(h: Host, mid: Host, attempted: seq<Key>, key: Key, measured: Key -> bool)
    requires HostInv(h) && Untouched(h, mid, attempted) && key !in attempted
    ensures UpperBytes(mid, key, measured) == UpperBytes(h, key, measured)
  {
    if key in h.doc.forks {
      assert EntryInv(h, key);
      assert Outside(Upper(key), attempted);
    }
  }

  lemma NextOnList(h: Host, list: seq<Key>, i: nat, measured: Key -> bool)
    requires DistinctList(list) && i < |list|
    ensures list[i] !in list[..i] && list[..i + 1] == list[..i] + [list[i]]
    ensures TotalBytes(h, list[..i + 1], measured) == TotalBytes(h, list[..i], measured) + UpperBytes(h, list[i], measured)
  {
    assert list[..i + 1][..i] == list[..i];
  }

  /** Measure one fork, then discard it. */
  method EvictOne(host: ForkHost, key: Key, env: DiscardEnv, measured: Key -> bool) returns (ok: bool, size: nat)
    requires Parses(host.registry.file)
    modifies host, host.registry
    ensures Parses(host.registry.file) && (host.Now(), ok) == ExecDiscard(old(host.Now()), key, env)
    ensures size == UpperBytes(old(host.Now()), key, measured)
  {
    size := 0;
    var found := host.registry.GetFork(key, if measured(key) then Sees else Unreadable);
    if found.Ok? && found.value.upperPath in host.dirs {
      size := Du.WalkUpperBytes(Some(host.dirs[found.value.upperPath]));
    }
    ok := host.DiscardFork(key, env);
  }

  /** The host and the evicted forks after attempting a list of discards in order. */
  ghost function EvictRun(h: Host, list: seq<Key>, env: Key -> DiscardEnv): (Host, seq<Key>) {
    if list == [] then (h, [])
    else
      var (mid, evicted) := EvictRun(h, list[..|list| - 1], env);
      var key := list[|list| - 1];
      var (t, ok) := ExecDiscard(mid, key, env(key));
      (t, if ok then evicted + [key] else evicted)
  }

  lemma {:induction false} EvictRunSettles(h: Host, list: seq<Key>, env: Key -> DiscardEnv)
    requires HostInv(h) && DistinctList(list) && forall k | k in list :: k in h.doc.forks
    ensures HostInv(EvictRun(h, list, env).0)
    ensures Evicted(h, EvictRun(h, list, env).0, list, EvictRun(h, list, env).1)
  {
    if list != [] {
      var n := |list| - 1;
      var key := list[n];
      assert list[..n] + [key] == list && key !in list[..n];
      EvictRunSettles(h, list[..n], env);
      var (mid, evicted) := EvictRun(h, list[..n], env);
      DiscardExtends(h, mid, list[..n], evicted, key, env(key));
    }
  }

  /** The discard of this fork goes through: its entry can be read, the mount is taken down if one is
      found, upper and work go whole if they are there, and the registry takes the removal. */
  ghost predicate GoesThrough(h: Host, key: Key, env: DiscardEnv)
    requires key in h.doc.forks
  {
    && env.look == Sees
    && (h.doc.forks[key].mergedPath.Some? ==> env.mountsReadable)
    && (h.doc.forks[key].mergedPath.Some? && Stack(h, Merged(key)) != [] && Printed(key) ==> env.unmounts)
    && (Upper(key) in h.dirs ==> env.upper.Gone?)
    && (Work(key) in h.dirs ==> env.work.Gone?)
    && env.registry == NoFault
  }

  /** The forks reported evicted are those on the list whose discard goes through. */
  ghost predicate EvictedAreThrough(h: Host, list: seq<Key>, evicted: seq<Key>, env: Key -> DiscardEnv) {
    forall k | k in list :: k in h.doc.forks && (k in evicted <==> GoesThrough(h, k, env(k)))
  }

  lemma SameChances(h: Host, mid: Host, attempted: seq<Key>, key: Key, env: DiscardEnv)
    requires HostInv(h) && HostInv(mid) && Untouched(h, mid, attempted)
    requires key in h.doc.forks && key !in attempted && Stack(mid, Merged(key)) == Stack(h, Merged(key))
    ensures ExecDiscard(mid, key, env).1 <==> GoesThrough(h, key, env)
  {
    assert EntryInv(h, key);
    assert Outside(Upper(key), attempted) && Outside(Work(key), attempted);
    assert SameAt(h, mid, Upper(key)) && SameAt(h, mid, Work(key));
    DiscardSucceedsExactly(mid, key, env);
    hide Exec, ExecDiscard, HostInv, Untouched, Printed, Outside;
    assert Exec(mid, Discard(key, env)) == ExecDiscard(mid, key, env);
  }

  ghost predicate OtherStacks(h: Host, t: Host, attempted: seq<Key>) {
    forall k | k !in attempted :: Stack(t, Merged(k)) == Stack(h, Merged(k))
  }

  lemma StacksExtend(h: Host, mid: Host, attempted: seq<Key>, key: Key, env: DiscardEnv)
    requires HostInv(mid) && OtherStacks(h, mid, attempted)
    ensures OtherStacks(h, ExecDiscard(mid, key, env).0, attempted + [key])
  {
    DiscardInOrder(mid, key, env);
    assert Exec(mid, Discard(key, env)) == ExecDiscard(mid, key, env);
    hide Exec, ExecDiscard, HostInv, Stack;
    assert key in attempted + [key] && forall k | k in attempted :: k in attempted + [key];
  }

  lemma NextIsThrough(h: Host, mid: Host, attempted: seq<Key>, evicted: seq<Key>, key: Key, env: Key -> DiscardEnv)
    requires HostInv(h) && HostInv(mid) && Evicted(h, mid, attempted, evicted) && OtherStacks(h, mid, attempted)
    requires key in h.doc.forks && key !in attempted && EvictedAreThrough(h, attempted, evicted, env)
    ensures var (t, ok) := ExecDiscard(mid, key, env(key));
            EvictedAreThrough(h, attempted + [key], if ok then evicted + [key] else evicted, env)
  {
    assert Stack(mid, Merged(key)) == Stack(h, Merged(key));
    SameChances(h, mid, attempted, key, env(key));
    hide ExecDiscard, GoesThrough, HostInv, OtherStacks, Untouched, Settled;
    assert key !in evicted;
  }

  /** Whatever the other discards come to, a fork on the list is reported evicted exactly when its own
      discard goes through. */
  lemma {:induction false} EvictedExactly(h: Host, list: seq<Key>, env: Key -> DiscardEnv)
    requires HostInv(h) && DistinctList(list) && forall k | k in list :: k in h.doc.forks
    ensures OtherStacks(h, EvictRun(h, list, env).0, list)
    ensures EvictedAreThrough(h, list, EvictRun(h, list, env).1, env)
  {
    if list != [] {
      var n := |list| - 1;
      var key := list[n];
      assert list[..n] + [key] == list && key !in list[..n];
      EvictedExactly(h, list[..n], env);
      EvictRunSettles(h, list[..n], env);
      var (mid, evicted) := EvictRun(h, list[..n], env);
      hide ExecDiscard, EvictedAreThrough, HostInv, OtherStacks, Evicted;
      NextIsThrough(h, mid, list[..n], evicted, key, env);
      StacksExtend(h, mid, list[..n], key, env(key));
    }
  }

  lemma EvictRunMeasures(h: Host, list: seq<Key>, i: nat, env: Key -> DiscardEnv, measured: Key -> bool)
    requires HostInv(h) && DistinctList(list) && forall k | k in list :: k in h.doc.forks
    requires i < |list|
    ensures UpperBytes(EvictRun(h, list[..i], env).0, list[i], measured) == UpperBytes(h, list[i], measured)
  {
    EvictRunSettles(h, list[..i], env);
    NextOnList(h, list, i, measured);
    SameBytes(h, EvictRun(h, list[..i], env).0, list[..i], list[i], measured);
  }

  /** Attempt every discard on the list, in order, whatever the outcomes. */
  method EvictAll(host: ForkHost, list: seq<Key>, env: Key -> DiscardEnv, measured: Key -> bool)
    returns (evicted: seq<Key>, bytes: nat)
    requires HostInv(host.Now()) && (list != [] ==> Parses(host.registry.file))
    requires DistinctList(list) && forall k | k in list :: k in host.Now().doc.forks
    modifies host, host.registry
    ensures (host.Now(), evicted) == EvictRun(old(host.Now()), list, env)
    ensures EvictedAreThrough(old(host.Now()), list, evicted, env)
    ensures bytes == TotalBytes(old(host.Now()), list, measured)
  {
    ghost var h := host.Now();
    evicted, bytes := [], 0;
    for i := 0 to |list|
      invariant list != [] ==> Parses(host.registry.file)
      invariant (host.Now(), evicted) == EvictRun(h, list[..i], env)
      invariant bytes == TotalBytes(h, list[..i], measured)
    {
      NextOnList(h, list, i, measured);
      EvictRunMeasures(h, list, i, env, measured);
      assert list[..i + 1][..i] == list[..i];
      var ok, size := EvictOne(host, list[i], env(list[i]), measured);
      bytes := bytes + size;
      if ok {
        evicted := evicted + [list[i]];
      }
    }
    assert list[..|list|] == list;
    EvictedExactly(h, list, env);
  }

  ghost function Parseable(h: Host): set<Key> {
    set k | k in h.doc.forks && h.doc.forks[k].createdAt.At?
  }

  lemma {:induction false} KeysCount(cs: seq<Candidate>)
    requires DistinctKeys(cs)
    ensures |FirstKeys(cs, |cs|)| == |cs|
  {
    if cs == [] {
      assert FirstKeys(cs, 0) == {};
    } else {
      var n := |cs| - 1;
      KeysCount(cs[..n]);
      assert FirstKeys(cs, |cs|) == FirstKeys(cs[..n], n) + {cs[n].key};
      FirstKeysMember(cs, n, n);
      assert FirstKeys(cs[..n], n) == FirstKeys(cs, n);
    }
  }

  lemma {:induction false} ListCount(keys: seq<Key>)
    requires DistinctList(keys)
    ensures |(set k | k in keys)| == |keys|
  {
    if keys != [] {
      var n := |keys| - 1;
      ListCount(keys[..n]);
      assert (set k | k in keys) == (set k | k in keys[..n]) + {keys[n]};
      assert keys[n] !in keys[..n];
    }
  }

  /** What gc guarantees after the sweep. `order` is the list of forks by time. */
  ghost predicate Swept(h: Host, t: Host, order: seq<Candidate>, list: seq<Key>, evicted: seq<Key>, maxForks: Option<nat>) {
    && Evicted(h, t, list, evicted)
    // no more forks with a timestamp than asked for, plus the failures
    && (maxForks.Some? ==> |Parseable(t)| <= maxForks.value + (|list| - |evicted|))
    // no survivor that was not attempted is older than an evicted fork
    && (forall c, e | c in order && e in order && c.key !in list && e.key in evicted :: e.time <= c.time)
    // forks whose timestamp does not parse are never attempted
    && (forall k | k in h.doc.forks && h.doc.forks[k].createdAt.Unparseable? :: k !in list)
  }

  /** No fork left off the list is older than one that was evicted. */
  lemma OldestGoFirst(order: seq<Candidate>, n: nat, evicted: seq<Key>, c: Candidate, e: Candidate)
    requires DistinctKeys(order) && Increasing(OlderFirst, order) && n <= |order|
    requires forall k | k in evicted :: k in KeysOf(order)[..n]
    requires c in order && e in order && c.key !in KeysOf(order)[..n] && e.key in evicted
    ensures e.time <= c.time
  {
    var list := KeysOf(order)[..n];
    var i :| 0 <= i < |order| && order[i] == c;
    var j :| 0 <= j < |order| && order[j] == e;
    var j' :| 0 <= j' < n && list[j'] == e.key;
    assert order[j'].key == order[j].key;
    assert forall m | 0 <= m < n :: list[m] in list && list[m] == order[m].key;
    assert OlderFirst(order[j], order[i]);
  }

  lemma SweepIsSafe(h: Host, t: Host, order: seq<Candidate>, n: nat, evicted: seq<Key>, maxForks: Option<nat>)
    requires ListsParseable(h.doc.forks, order) && Increasing(OlderFirst, order)
    requires Excess(|order|, maxForks) <= n <= |order|
    requires Evicted(h, t, KeysOf(order)[..n], evicted)
    ensures Swept(h, t, order, KeysOf(order)[..n], evicted, maxForks)
  {
    var list := KeysOf(order)[..n];
    SurvivorsBounded(h, t, order, n, evicted);
    forall c, e | c in order && e in order && c.key !in list && e.key in evicted ensures e.time <= c.time {
      OldestGoFirst(order, n, evicted, c, e);
    }
    forall k | k in h.doc.forks && h.doc.forks[k].createdAt.Unparseable? ensures k !in list {
      forall i | 0 <= i < n ensures list[i] != k {
        assert order[i] in order;
      }
    }
  }

  lemma ListedKeys(h: Host, order: seq<Candidate>)
    requires ListsParseable(h.doc.forks, order)
    ensures FirstKeys(order, |order|) == Parseable(h)
  {
    var all := FirstKeys(order, |order|);
    forall k ensures k in all <==> k in Parseable(h) {
      if k in Parseable(h) {
        assert Candidate(k, h.doc.forks[k].createdAt.nanos) in order;
      }
      if k in all {
        var j :| 0 <= j < |order| && order[j].key == k;
        assert order[j] in order;
      }
    }
  }

  lemma AttemptedAreParseable(h: Host, order: seq<Candidate>, n: nat, k: Key)
    requires ListsParseable(h.doc.forks, order) && n <= |order| && k in KeysOf(order)[..n]
    ensures k in Parseable(h)
  {
    var i :| 0 <= i < n && KeysOf(order)[..n][i] == k;
    assert order[i] in order;
  }

  lemma SurvivorsAre(h: Host, t: Host, order: seq<Candidate>, n: nat, evicted: seq<Key>)
    requires ListsParseable(h.doc.forks, order) && n <= |order|
    requires Evicted(h, t, KeysOf(order)[..n], evicted)
    ensures Parseable(t) == Parseable(h) - set k | k in evicted
    ensures (set k | k in evicted) <= Parseable(h)
  {
    hide KeysOf, SameAt, Outside, DistinctKeys;
    var list := KeysOf(order)[..n];
    forall k | k in list ensures k in Parseable(h) {
      AttemptedAreParseable(h, order, n, k);
    }
    hide ListsParseable;
    forall k ensures k in Parseable(t) <==> k in Parseable(h) && k !in evicted {
      if k in list {
        assert Settled(h, t, k, k in evicted);
      } else {
        assert k in t.doc.forks <==> k in h.doc.forks;
      }
    }
  }

  lemma SurvivorsBounded(h: Host, t: Host, order: seq<Candidate>, n: nat, evicted: seq<Key>)
    requires ListsParseable(h.doc.forks, order) && n <= |order|
    requires Evicted(h, t, KeysOf(order)[..n], evicted)
    ensures |Parseable(t)| == |order| - |evicted|
  {
    KeysCount(order);
    ListCount(evicted);
    ListedKeys(h, order);
    SurvivorsAre(h, t, order, n, evicted);
  }

  lemma NoneListed(cs: seq<Candidate>)
    requires ListsParseable(map[], cs)
    ensures cs == []
  {
    var h := Host(EMPTY_DOC, map[], map[]);
    KeysCount(cs);
    ListedKeys(h, cs);
    assert Parseable(h) == {};
  }

  lemma SurplusCount(h: Host, order: seq<Candidate>, list: seq<Key>, now: int, maxForks: Option<nat>)
    requires ListsParseable(h.doc.forks, order) && ListsDue(order, list, now, None, maxForks)
    ensures |list| == if maxForks.Some? && |Parseable(h)| > maxForks.value then |Parseable(h)| - maxForks.value else 0
  {
    KeysCount(order);
    ListedKeys(h, order);
    WithoutAgeLimit(order, list, now, maxForks);
  }

  /** `run_gc`. A dry run only lists; otherwise every candidate is attempted, and
      bytes_reclaimed counts every attempted candidate, failed ones included. */
  method RunGc(host: ForkHost, now: int, maxAge: Option<nat>, maxForks: Option<nat>, dryRun: bool,
               listing: Look, env: Key -> DiscardEnv, measured: Key -> bool)
    returns (ok: bool, evicted: seq<Key>, bytes: nat, ghost order: seq<Candidate>, ghost list: seq<Key>)
    requires HostInv(host.Now())
    modifies host, host.registry
    ensures HostInv(host.Now())
    ensures ok <==> listing.Missed? || (listing.Sees? && Parses(old(host.registry.file)))
    ensures !ok || listing.Missed? ==> host.Now() == old(host.Now()) && evicted == [] && bytes == 0
    ensures ok && listing.Sees? ==>
              && ListsParseable(old(host.Now()).doc.forks, order) && Increasing(OlderFirst, order)
              && ListsDue(order, list, now, maxAge, maxForks)
              && (maxAge.None? ==> |list| == if maxForks.Some? && |Parseable(old(host.Now()))| > maxForks.value
                                             then |Parseable(old(host.Now()))| - maxForks.value else 0)
              && (dryRun ==> host.Now() == old(host.Now()) && evicted == list && bytes == 0)
              && (!dryRun ==> Swept(old(host.Now()), host.Now(), order, list, evicted, maxForks))
              && (!dryRun ==> EvictedAreThrough(old(host.Now()), list, evicted, env))
              && (!dryRun ==> bytes == TotalBytes(old(host.Now()), list, measured))
              && (!dryRun && |evicted| == |list| ==> bytes == TotalBytes(old(host.Now()), evicted, measured))
  {
    hide Excess, AgedCount, ListsDue, PastLimit, TooManyFrom, OlderFirst, Increasing, Parseable, Swept, EvictedAreThrough;
    ghost var h := host.Now();
    evicted, bytes, order, list := [], 0, [], [];
    var found := host.registry.ReadDoc(listing);
    if found.Err? {
      return false, evicted, bytes, order, list;
    }
    var doc := found.value;
    var selected, sorted := SelectEvictions(doc.forks, now, maxAge, maxForks);
    list, order := selected, sorted;
    if listing.Missed? {
      NoneListed(sorted);
    }
    if listing.Sees? && maxAge.None? {
      SurplusCount(h, order, list, now, maxForks);
    }
    if dryRun {
      return true, selected, 0, order, list;
    }
    ghost var n := EvictionCount(order, now, maxAge, maxForks);
    forall k | k in selected ensures k in h.doc.forks {
      var i :| 0 <= i < n && selected[i] == k;
      assert order[i] in order;
    }
    evicted, bytes := EvictAll(host, selected, env, measured);
    if listing.Sees? {
      EvictRunSettles(h, selected, env);
      SweepIsSafe(h, host.Now(), order, n, evicted, maxForks);
    }
    return true, evicted, bytes, order, list;
  }
}
