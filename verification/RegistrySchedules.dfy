/** Schedules of the registry protocol that end badly, from every initial registry: the entry
    that is overwritten, the file that is torn for good, the registry that is emptied, and the
    read of a registry that never was. */
module RegistrySchedules {
  import opened Wrappers
  import opened Registry
  import opened RegistryProtocol

  lemma Then(s: State, step: Step, rest: seq<Step>, t: State)
    requires Enabled(s, step) && CanRun(Do(s, step), rest) && Run(Do(s, step), rest) == t
    ensures CanRun(s, [step] + rest) && Run(s, [step] + rest) == t
  {
    hide Do, Enabled;
    assert ([step] + rest)[1..] == rest;
  }

  lemma Stay(s: State)
    ensures CanRun(s, []) && Run(s, []) == s
  {
  }

  lemma {:induction false} RunConcat(s: State, a: seq<Step>, b: seq<Step>)
    requires CanRun(s, a) && CanRun(Run(s, a), b)
    ensures CanRun(s, a + b) && Run(s, a + b) == Run(Run(s, a), b)
    decreases |a|
  {
    hide Do, Enabled;
    if a == [] {
      assert a + b == b;
    } else {
      assert (a + b)[1..] == a[1..] + b;
      RunConcat(Do(s, a[0]), a[1..], b);
    }
  }

  /** A whole read by one actor. */
  ghost function ReadSteps(s: State, a: Actor): seq<Step> {
    if s.file.Some? then [StartRead(a)] + ([TestExists(a)] + ([OpenFile(a)] + ([Parse(a)] + [])))
    else [StartRead(a)] + ([TestExists(a)] + [])
  }

  ghost predicate Rests(s: State, a: Actor) {
    a.process !in s.dead && PcOf(s, a).Idle?
  }

  /** The actor rests, and so do the locks it needs. */
  ghost predicate Free(s: State, a: Actor) {
    Rests(s, a) && s.flock.None? && HandleOf(a) !in s.mutexes
  }

  lemma ReadAlone(s: State, a: Actor)
    requires Rests(s, a) && Parses(s.file)
    ensures CanRun(s, ReadSteps(s, a))
    ensures var version := if s.file.Some? then |s.log| else 0;
            Run(s, ReadSteps(s, a)) == s.(
              pcs := s.pcs[a := Idle], readLog := s.readLog + [Read(a, DocOf(s.file), version)],
              seen := s.seen[a := version])
  {
    hide CanRun, Run, Apply;
    var s1 := Do(s, StartRead(a));
    var s2 := Do(s1, TestExists(a));
    if s.file.Some? {
      FinishRead(s2, a);
      var t := Run(s2, [OpenFile(a)] + ([Parse(a)] + []));
      Then(s1, TestExists(a), [OpenFile(a)] + ([Parse(a)] + []), t);
      Then(s, StartRead(a), [TestExists(a)] + ([OpenFile(a)] + ([Parse(a)] + [])), t);
      hide Do, Enabled;
      assert t.pcs == s.pcs[a := Idle];
    } else {
      Stay(s2);
      Then(s1, TestExists(a), [], s2);
      Then(s, StartRead(a), [TestExists(a)] + [], s2);
      assert s2.pcs == s.pcs[a := Idle];
    }
  }

  lemma FinishRead(s: State, a: Actor)
    requires a.process !in s.dead && PcOf(s, a).SawFile? && s.file.Some? && Parses(s.file)
    ensures CanRun(s, [OpenFile(a)] + ([Parse(a)] + []))
    ensures Run(s, [OpenFile(a)] + ([Parse(a)] + [])) == s.(
              pcs := s.pcs[a := Idle], readLog := s.readLog + [Read(a, DocOf(s.file), |s.log|)],
              seen := s.seen[a := |s.log|])
  {
    hide CanRun, Run, Apply;
    var s1 := Do(s, OpenFile(a));
    var s2 := Do(s1, Parse(a));
    Stay(s2);
    Then(s1, Parse(a), [], s2);
    Then(s, OpenFile(a), [Parse(a)] + [], s2);
    assert s2.pcs == s.pcs[a := Idle];
  }

  /** A whole write by one actor that ends in success: into the critical section, with a stat
      that may fail, and out of it, with a flush that may be lost. */
  ghost function EnterSteps(a: Actor, op: Closure, blind: bool): seq<Step> {
    [Call(a, op)] + ([LockMutex(a)] + ([Flock(a)] + ComputeSteps(a, blind)))
  }

  ghost function ComputeSteps(a: Actor, blind: bool): seq<Step> {
    [if blind then ReadBlind(a) else ReadDoc(a)] + ([RunClosure(a)] + [])
  }

  /** The document that the holder of the flock works on. */
  ghost function Seen(s: State, blind: bool): Doc {
    if blind then EMPTY_DOC else DocOf(s.file)
  }

  ghost function LeaveSteps(a: Actor, torn: bool): seq<Step> {
    [if torn then WriteTorn(a) else WriteTemp(a)] + ([Rename(a)] + ([Unflock(a)] + ([UnlockMutex(a)] + [])))
  }

  lemma EnterAlone(s: State, a: Actor, op: Closure, blind: bool, next: Doc)
    requires Free(s, a) && (blind || Parses(s.file)) && Apply(op, Seen(s, blind)) == Ok(next)
    ensures CanRun(s, EnterSteps(a, op, blind))
    ensures Run(s, EnterSteps(a, op, blind)) == s.(
              pcs := s.pcs[a := Computed(op, s.tickets, next)], flock := Some(a), tickets := s.tickets + 1,
              mutexes := s.mutexes[HandleOf(a) := a])
  {
    hide CanRun, Run, Apply, ComputeSteps;
    var s1 := Do(s, Call(a, op));
    var s2 := Do(s1, LockMutex(a));
    var s3 := Do(s2, Flock(a));
    assert s3.pcs == s.pcs[a := HasFlock(op, s.tickets)];
    ComputeAlone(s3, a, op, s.tickets, blind, next);
    var t := Run(s3, ComputeSteps(a, blind));
    Then(s2, Flock(a), ComputeSteps(a, blind), t);
    Then(s1, LockMutex(a), [Flock(a)] + ComputeSteps(a, blind), t);
    Then(s, Call(a, op), [LockMutex(a)] + ([Flock(a)] + ComputeSteps(a, blind)), t);
    hide Do, Enabled;
    assert t.pcs == s.pcs[a := Computed(op, s.tickets, next)];
  }

  lemma ComputeAlone(s: State, a: Actor, op: Closure, ticket: nat, blind: bool, next: Doc)
    requires a.process !in s.dead && PcOf(s, a) == HasFlock(op, ticket)
    requires (blind || Parses(s.file)) && Apply(op, Seen(s, blind)) == Ok(next)
    ensures CanRun(s, ComputeSteps(a, blind))
    ensures Run(s, ComputeSteps(a, blind)) == s.(pcs := s.pcs[a := Computed(op, ticket, next)])
  {
    hide CanRun, Run, Apply;
    var read := if blind then ReadBlind(a) else ReadDoc(a);
    var s1 := Do(s, read);
    var s2 := Do(s1, RunClosure(a));
    Stay(s2);
    Then(s1, RunClosure(a), [], s2);
    Then(s, read, [RunClosure(a)] + [], s2);
    assert s2.pcs == s.pcs[a := Computed(op, ticket, next)];
  }

  lemma LeaveAlone(s: State, a: Actor, op: Closure, ticket: nat, torn: bool, next: Doc)
    requires a.process !in s.dead && PcOf(s, a) == Computed(op, ticket, next)
    ensures CanRun(s, LeaveSteps(a, torn))
    ensures Run(s, LeaveSteps(a, torn)) == s.(
              pcs := s.pcs[a := Idle], flock := None, mutexes := s.mutexes - {HandleOf(a)},
              file := Some(if torn then Torn else Whole(next)),
              versions := s.versions + [next], log := s.log + [Commit(ticket, a, op)],
              finished := s.finished + [Finished(ticket, a, op, true)])
  {
    hide CanRun, Run, Apply;
    var write := if torn then WriteTorn(a) else WriteTemp(a);
    var s1 := Do(s, write);
    var s2 := Do(s1, Rename(a));
    assert s2.pcs == s.pcs[a := Committed(op, ticket)];
    ReleaseAlone(s2, a);
    var t := Run(s2, [Unflock(a)] + ([UnlockMutex(a)] + []));
    Then(s1, Rename(a), [Unflock(a)] + ([UnlockMutex(a)] + []), t);
    Then(s, write, [Rename(a)] + ([Unflock(a)] + ([UnlockMutex(a)] + [])), t);
    hide Do, Enabled;
    assert t.pcs == s.pcs[a := Idle];
  }

  lemma ReleaseAlone(s: State, a: Actor)
    requires a.process !in s.dead && PcOf(s, a).Committed?
    ensures CanRun(s, [Unflock(a)] + ([UnlockMutex(a)] + []))
    ensures Run(s, [Unflock(a)] + ([UnlockMutex(a)] + [])) == s.(
              pcs := s.pcs[a := Idle], flock := None, mutexes := s.mutexes - {HandleOf(a)},
              finished := s.finished + [Finished(s.pcs[a].ticket, a, s.pcs[a].op, true)])
  {
    hide CanRun, Run, Apply;
    var s1 := Do(s, Unflock(a));
    var s2 := Do(s1, UnlockMutex(a));
    Stay(s2);
    Then(s1, UnlockMutex(a), [], s2);
    Then(s, Unflock(a), [UnlockMutex(a)] + [], s2);
    assert s2.pcs == s.pcs[a := Idle];
  }

  ghost function WriteSteps(a: Actor, op: Closure, blind: bool, torn: bool): seq<Step> {
    EnterSteps(a, op, blind) + LeaveSteps(a, torn)
  }

  lemma WriteAlone(s: State, a: Actor, op: Closure, blind: bool, torn: bool, next: Doc)
    requires Free(s, a) && (blind || Parses(s.file)) && Apply(op, Seen(s, blind)) == Ok(next)
    ensures CanRun(s, WriteSteps(a, op, blind, torn))
    ensures var t := Run(s, WriteSteps(a, op, blind, torn));
            && t.pcs == s.pcs[a := Idle] && t.flock.None? && t.mutexes == s.mutexes && t.dead == s.dead
            && t.tickets == s.tickets + 1 && t.readLog == s.readLog
            && t.file == Some(if torn then Torn else Whole(next))
            && t.finished == s.finished + [Finished(s.tickets, a, op, true)]
            && t.log == s.log + [Commit(s.tickets, a, op)]
  {
    hide Apply, EnterSteps, LeaveSteps, CanRun, Run;
    EnterAlone(s, a, op, blind, next);
    LeaveAlone(Run(s, EnterSteps(a, op, blind)), a, op, s.tickets, torn, next);
    RunConcat(s, EnterSteps(a, op, blind), LeaveSteps(a, torn));
    assert s.mutexes[HandleOf(a) := a] - {HandleOf(a)} == s.mutexes;
  }

  /** Two clients that look before they insert: both read, then both insert. */
  ghost function Race(s: State, a: Actor, b: Actor, first: Closure, second: Closure): seq<Step> {
    ReadSteps(s, a) + (ReadSteps(s, b) + (WriteSteps(a, first, false, false) + WriteSteps(b, second, false, false)))
  }

  /** From every initial registry and every key it does not hold, there is a schedule in which
      two clients both read without the key, both insert it, and are both told of success,
      and the entry of the first is gone. */
  lemma OverwriteHappens(init: State, a: Actor, b: Actor, key: Key, mine: ForkEntry, theirs: ForkEntry)
    requires Init(init) && a != b && a.process !in init.dead && b.process !in init.dead
    requires key !in DocOf(init.file).forks
    ensures var steps := Race(init, a, b, InsertFork(key, mine), InsertFork(key, theirs));
            && CanRun(init, steps)
            && var t := Run(init, steps);
            && t.readLog == [Read(a, DocOf(init.file), 0), Read(b, DocOf(init.file), 0)]
            && t.finished == [Finished(0, a, InsertFork(key, mine), true), Finished(1, b, InsertFork(key, theirs), true)]
            && Parses(t.file) && key in DocOf(t.file).forks && DocOf(t.file).forks[key] == theirs
  {
    hide Do, Enabled, CanRun, Run, WriteSteps;
    var first, second := InsertFork(key, mine), InsertFork(key, theirs);
    ReadAlone(init, a);
    var s1 := Run(init, ReadSteps(init, a));
    ReadAlone(s1, b);
    assert ReadSteps(s1, b) == ReadSteps(init, b);
    hide ReadSteps;
    var s2 := Run(s1, ReadSteps(init, b));
    assert s2.readLog == [Read(a, DocOf(init.file), 0), Read(b, DocOf(init.file), 0)];
    var one := Apply(first, DocOf(s2.file)).value;
    WriteAlone(s2, a, first, false, false, one);
    var s3 := Run(s2, WriteSteps(a, first, false, false));
    WriteAlone(s3, b, second, false, false, Apply(second, one).value);
    RunConcat(s2, WriteSteps(a, first, false, false), WriteSteps(b, second, false, false));
    RunConcat(s1, ReadSteps(init, b), WriteSteps(a, first, false, false) + WriteSteps(b, second, false, false));
    RunConcat(init, ReadSteps(init, a),
              ReadSteps(init, b) + (WriteSteps(a, first, false, false) + WriteSteps(b, second, false, false)));
  }

  // ---------------------------------------------------------------------
  // Lost flushes
  // ---------------------------------------------------------------------

  /** registry.json is torn, and nobody in the critical section is past reading it. */
  ghost predicate Stuck(s: State) {
    && s.file == Some(Torn)
    && forall a | a in s.pcs :: !InCritical(s.pcs[a]) || s.pcs[a].HasFlock? || s.pcs[a].Committed? || s.pcs[a].Failed?
  }

  /** From every initial registry, for every closure that succeeds on it: a schedule in which
      the call reports success and registry.json is torn. */
  lemma TornHappens(init: State, a: Actor, op: Closure)
    requires Init(init) && a.process !in init.dead && Apply(op, DocOf(init.file)).Ok?
    ensures CanRun(init, WriteSteps(a, op, false, true))
    ensures var t := Run(init, WriteSteps(a, op, false, true));
            && t.finished == [Finished(0, a, op, true)] && t.log == [Commit(0, a, op)]
            && Stuck(t)
  {
    hide Do, Enabled, CanRun, Run, WriteSteps, Apply;
    WriteAlone(init, a, op, false, true, Apply(op, DocOf(init.file)).value);
  }

  lemma StuckStep(s: State, step: Step)
    requires Stuck(s) && Enabled(s, step) && !step.ReadBlind?
    ensures Stuck(Do(s, step)) && Do(s, step).log == s.log
  {
    hide Apply, EmptyFrom, BlindVersion;
  }

  /** No schedule brings a torn registry back: as long as no stat fails in a critical section,
      the file stays torn and nothing more is committed. */
  lemma {:induction false} TornIsForever(s: State, steps: seq<Step>)
    requires Stuck(s) && CanRun(s, steps) && forall k | 0 <= k < |steps| :: !steps[k].ReadBlind?
    ensures Run(s, steps).file == Some(Torn) && Run(s, steps).log == s.log
    decreases |steps|
  {
    hide Do, Enabled;
    if steps != [] {
      StuckStep(s, steps[0]);
      TornIsForever(Do(s, steps[0]), steps[1..]);
    }
  }

  // ---------------------------------------------------------------------
  // Failing stats
  // ---------------------------------------------------------------------

  /** From every initial registry that is not empty: a read that hands back the empty document,
      which no version is. */
  lemma BlindReadHappens(init: State, a: Actor)
    requires Init(init) && a.process !in init.dead && DocOf(init.file) != EMPTY_DOC
    ensures CanRun(init, [StartRead(a), StatFails(a)])
    ensures var t := Run(init, [StartRead(a), StatFails(a)]);
            && |t.readLog| == 1 && t.readLog[0].actor == a && t.readLog[0].doc == EMPTY_DOC
            && EMPTY_DOC !in t.versions
  {
    var s1 := Do(init, StartRead(a));
    var s2 := Do(s1, StatFails(a));
    assert CanRun(s2, []) && Run(s2, []) == s2;
    assert [StatFails(a)][1..] == [];
    assert CanRun(s1, [StatFails(a)]) && Run(s1, [StatFails(a)]) == s2;
    assert [StartRead(a), StatFails(a)][1..] == [StatFails(a)];
  }

  /** From every initial registry: an insert that does not see it reports success and leaves
      the one entry it inserts. */
  lemma BlindWriteEmpties(init: State, a: Actor, key: Key, entry: ForkEntry)
    requires Init(init) && a.process !in init.dead
    ensures var op := InsertFork(key, entry);
            && CanRun(init, WriteSteps(a, op, true, false))
            && var t := Run(init, WriteSteps(a, op, true, false));
            && t.finished == [Finished(0, a, op, true)]
            && t.file == Some(Whole(Doc(map[], map[key := entry])))
  {
    hide Do, Enabled, CanRun, Run, WriteSteps;
    WriteAlone(init, a, InsertFork(key, entry), true, false, Doc(map[], map[key := entry]));
  }
}
