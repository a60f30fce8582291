/** The locking protocol of the registry: any number of processes, handles and threads,
    interleaved step by step, with failing calls and crashes. */
module RegistryProtocol {
  import opened Wrappers
  import opened Registry

  /** A thread, named by its process and the registry handle it goes through. */
  datatype Actor = Actor(process: nat, handle: nat, thread: nat)
  datatype Handle = Handle(process: nat, handle: nat)

  function HandleOf(a: Actor): Handle { Handle(a.process, a.handle) }

  datatype Pc =
    | Idle
    // a write: mutex, flock, read, closure, temp file, rename, unlock, unlock
    | Calling(op: Closure)
    | HasMutex(op: Closure)
    | HasFlock(op: Closure, ticket: nat)
    | HasDoc(op: Closure, ticket: nat, doc: Doc)
    | Computed(op: Closure, ticket: nat, next: Doc)
    | HasTemp(op: Closure, ticket: nat, next: Doc)
    | HasTorn(op: Closure, ticket: nat, next: Doc)   // the temp file lost its last bytes
    | Committed(op: Closure, ticket: nat)
    | Failed(op: Closure, ticket: nat)
    | Unflocked
    // a lock-free read: test existence, open, parse
    | Reading
    | SawFile
    | Opened(content: Content, version: nat)

  predicate InCritical(pc: Pc) {
    pc.HasFlock? || pc.HasDoc? || pc.Computed? || pc.HasTemp? || pc.HasTorn?
    || pc.Committed? || pc.Failed?
  }

  predicate HoldsMutex(pc: Pc) { pc.HasMutex? || pc.Unflocked? || InCritical(pc) }

  datatype Commit = Commit(ticket: nat, actor: Actor, op: Closure)
  datatype Finished = Finished(ticket: nat, actor: Actor, op: Closure, ok: bool)

  /** A read that completed: who, the document handed back, and which version it counts as: the
      one on disk when the file was opened. */
  datatype Read = Read(actor: Actor, doc: Doc, version: nat)

  datatype State = State(
    file: Option<Content>,             // registry.json
    flock: Option<Actor>,
    mutexes: map<Handle, Actor>,
    pcs: map<Actor, Pc>,               // absent: idle
    dead: set<nat>,                    // crashed processes
    // history
    tickets: nat,                      // flock acquisitions so far
    versions: seq<Doc>,                // the documents that were written over registry.json
    log: seq<Commit>,                  // closures whose result was renamed into place
    finished: seq<Finished>,           // calls that have released the flock
    readLog: seq<Read>,                // reads that completed
    seen: map<Actor, nat>)             // the version each actor read last

  function PcOf(s: State, a: Actor): Pc { if a in s.pcs then s.pcs[a] else Idle }

  ghost predicate Init(s: State) {
    && Parses(s.file) && s.flock == None && s.mutexes == map[] && s.pcs == map[] && s.tickets == 0
    && s.versions == [DocOf(s.file)] && s.log == [] && s.finished == [] && s.readLog == [] && s.seen == map[]
  }

  datatype Step =
    | Call(a: Actor, op: Closure) | LockMutex(a: Actor) | LockFileFails(a: Actor) | Flock(a: Actor)
    | ReadDoc(a: Actor) | ReadBlind(a: Actor) | ReadFails(a: Actor) | RunClosure(a: Actor)
    | WriteTemp(a: Actor) | WriteTorn(a: Actor) | WriteFails(a: Actor) | Rename(a: Actor)
    | Unflock(a: Actor) | UnlockMutex(a: Actor)
    | StartRead(a: Actor) | TestExists(a: Actor) | StatFails(a: Actor) | OpenFile(a: Actor) | Parse(a: Actor) | ReadError(a: Actor)
    | Crash(process: nat)

  predicate Enabled(s: State, step: Step) {
    match step
    case Crash(p) => p !in s.dead
    case _ =>
      var a := step.a;
      var pc := PcOf(s, a);
      a.process !in s.dead &&
      match step
      case Call(_, _) => pc.Idle?
      case LockMutex(_) => pc.Calling? && HandleOf(a) !in s.mutexes
      case LockFileFails(_) => pc.HasMutex?
      case Flock(_) => pc.HasMutex? && s.flock.None?
      case ReadDoc(_) => pc.HasFlock? && Parses(s.file)
      case ReadBlind(_) => pc.HasFlock?
      case ReadFails(_) => pc.HasFlock?
      case RunClosure(_) => pc.HasDoc?
      case WriteTemp(_) => pc.Computed?
      case WriteTorn(_) => pc.Computed?
      case WriteFails(_) => pc.Computed? || pc.HasTemp? || pc.HasTorn?
      case Rename(_) => pc.HasTemp? || pc.HasTorn?
      case Unflock(_) => pc.Committed? || pc.Failed?
      case UnlockMutex(_) => pc.Unflocked?
      case StartRead(_) => pc.Idle?
      case TestExists(_) => pc.Reading?
      case StatFails(_) => pc.Reading?
      case OpenFile(_) => pc.SawFile? && s.file.Some?
      case Parse(_) => pc.Opened? && pc.content.Whole?
      case ReadError(_) => pc.Reading? || pc.SawFile? || pc.Opened?
      case Crash(_) => true
  }

  function To(s: State, a: Actor, pc: Pc): State { s.(pcs := s.pcs[a := pc]) }

  /** The least version from `k` on with the empty document, or the number of versions. */
  function EmptyFrom(versions: seq<Doc>, k: nat): (v: nat)
    requires k <= |versions|
    ensures k <= v <= |versions|
    ensures v < |versions| ==> versions[v] == EMPTY_DOC
    ensures forall i | k <= i < v :: versions[i] != EMPTY_DOC
    decreases |versions| - k
  {
    if k == |versions| || versions[k] == EMPTY_DOC then k else EmptyFrom(versions, k + 1)
  }

  function LastSeen(s: State, a: Actor): nat {
    if a in s.seen && s.seen[a] <= |s.versions| then s.seen[a] else 0
  }

  /** The version that a read by an actor whose stat fails counts as: the first one not before
      the last it saw that is empty, and the present one if there is none. */
  function BlindVersion(s: State, a: Actor): nat {
    var v := EmptyFrom(s.versions, LastSeen(s, a));
    if v < |s.versions| then v else |s.log|
  }

  function Do(s: State, step: Step): State
    requires Enabled(s, step)
  {
    match step
    case Call(a, op) => To(s, a, Calling(op))
    case LockMutex(a) => To(s, a, HasMutex(s.pcs[a].op)).(mutexes := s.mutexes[HandleOf(a) := a])
    case LockFileFails(a) => To(s, a, Unflocked)
    case Flock(a) => To(s, a, HasFlock(s.pcs[a].op, s.tickets)).(flock := Some(a), tickets := s.tickets + 1)
    case ReadDoc(a) => To(s, a, HasDoc(s.pcs[a].op, s.pcs[a].ticket, DocOf(s.file)))
    case ReadBlind(a) => To(s, a, HasDoc(s.pcs[a].op, s.pcs[a].ticket, EMPTY_DOC))
    case ReadFails(a) => To(s, a, Failed(s.pcs[a].op, s.pcs[a].ticket))
    case RunClosure(a) =>
      var pc := s.pcs[a];
      (match Apply(pc.op, pc.doc)
       case Ok(next) => To(s, a, Computed(pc.op, pc.ticket, next))
       case Err(_) => To(s, a, Failed(pc.op, pc.ticket)))
    case WriteTemp(a) => To(s, a, HasTemp(s.pcs[a].op, s.pcs[a].ticket, s.pcs[a].next))
    case WriteTorn(a) => To(s, a, HasTorn(s.pcs[a].op, s.pcs[a].ticket, s.pcs[a].next))
    case WriteFails(a) => To(s, a, Failed(s.pcs[a].op, s.pcs[a].ticket))
    case Rename(a) =>
      var pc := s.pcs[a];
      To(s, a, Committed(pc.op, pc.ticket)).(
        file := Some(if pc.HasTorn? then Torn else Whole(pc.next)),
        versions := s.versions + [pc.next],
        log := s.log + [Commit(pc.ticket, a, pc.op)])
    case Unflock(a) =>
      To(s, a, Unflocked).(
        flock := None,
        finished := s.finished + [Finished(s.pcs[a].ticket, a, s.pcs[a].op, s.pcs[a].Committed?)])
    case UnlockMutex(a) => To(s, a, Idle).(mutexes := s.mutexes - {HandleOf(a)})
    case StartRead(a) => To(s, a, Reading)
    case TestExists(a) =>
      if s.file.Some? then To(s, a, SawFile)
      else To(s, a, Idle).(readLog := s.readLog + [Read(a, EMPTY_DOC, 0)], seen := s.seen[a := 0])
    case StatFails(a) =>
      To(s, a, Idle).(readLog := s.readLog + [Read(a, EMPTY_DOC, BlindVersion(s, a))],
                      seen := s.seen[a := BlindVersion(s, a)])
    case OpenFile(a) => To(s, a, Opened(s.file.value, |s.log|))
    case Parse(a) =>
      To(s, a, Idle).(readLog := s.readLog + [Read(a, s.pcs[a].content.doc, s.pcs[a].version)],
                      seen := s.seen[a := s.pcs[a].version])
    case ReadError(a) => To(s, a, Idle)
    case Crash(p) =>
      s.(pcs := map a | a in s.pcs && a.process != p :: s.pcs[a],
         mutexes := map h | h in s.mutexes && h.process != p :: s.mutexes[h],
         flock := if s.flock.Some? && s.flock.value.process == p then None else s.flock,
         dead := s.dead + {p})
  }

  /** A schedule: each step is possible when its turn comes. */
  ghost predicate CanRun(s: State, steps: seq<Step>)
    decreases |steps|
  {
    steps == [] || (Enabled(s, steps[0]) && CanRun(Do(s, steps[0]), steps[1..]))
  }

  ghost function Run(s: State, steps: seq<Step>): State
    requires CanRun(s, steps)
    decreases |steps|
  {
    if steps == [] then s else Run(Do(s, steps[0]), steps[1..])
  }

  // ---------------------------------------------------------------------
  // The invariant
  // ---------------------------------------------------------------------

  /** The versions are the left fold of the committed closures, and registry.json is the last. */
  ghost predicate HistoryInv(s: State) {
    && Parses(s.file)
    && |s.versions| == |s.log| + 1
    && (forall i | 0 <= i < |s.log| :: Apply(s.log[i].op, s.versions[i]) == Ok(s.versions[i + 1]))
    && DocOf(s.file) == s.versions[|s.log|]
    && (s.log != [] ==> s.file.Some?)
  }

  /** Whatever happens, every rename adds one version and one commit. */
  ghost predicate Counted(s: State) {
    |s.versions| == |s.log| + 1
  }

  /** Commits are in the order the flock was taken. */
  ghost predicate TicketInv(s: State) {
    && (forall i, j | 0 <= i < j < |s.log| :: s.log[i].ticket < s.log[j].ticket)
    && (forall i | 0 <= i < |s.log| :: s.log[i].ticket < s.tickets)
    && (forall f | f in s.finished :: f.ticket < s.tickets)
    && (forall f | f in s.finished :: f.ok <==> exists i :: 0 <= i < |s.log| && s.log[i] == Commit(f.ticket, f.actor, f.op))
    && (forall f, i | f in s.finished && 0 <= i < |s.log| && s.log[i].ticket == f.ticket ::
          s.log[i] == Commit(f.ticket, f.actor, f.op))
  }

  ghost predicate FlockInv(s: State) {
    && (forall a | a in s.pcs && InCritical(s.pcs[a]) :: s.flock == Some(a))
    && (s.flock.Some? ==> s.flock.value in s.pcs && InCritical(s.pcs[s.flock.value]))
    && (forall a | a in s.pcs :: a.process !in s.dead)
  }

  ghost predicate MutexInv(s: State) {
    && (forall a | a in s.pcs && HoldsMutex(s.pcs[a]) :: HandleOf(a) in s.mutexes && s.mutexes[HandleOf(a)] == a)
    && (forall h | h in s.mutexes ::
          s.mutexes[h] in s.pcs && HoldsMutex(s.pcs[s.mutexes[h]]) && HandleOf(s.mutexes[h]) == h)
  }

  /** The ticket of the holder of the flock is the latest. */
  ghost predicate HolderInv(s: State) {
    s.flock.Some? && s.flock.value in s.pcs ==>
      var a := s.flock.value;
      var pc := s.pcs[a];
      InCritical(pc) ==>
        && pc.ticket + 1 == s.tickets
        && (forall f | f in s.finished :: f.ticket < pc.ticket)
        && (!pc.Committed? ==> forall i | 0 <= i < |s.log| :: s.log[i].ticket < pc.ticket)
        && (pc.Committed? ==> s.log != [] && s.log[|s.log| - 1] == Commit(pc.ticket, a, pc.op))
  }

  /** What the holder of the flock has read is the last version, or it saw no file. */
  ghost predicate HolderDocs(s: State) {
    s.flock.Some? && s.flock.value in s.pcs && |s.versions| > 0 ==>
      var pc := s.pcs[s.flock.value];
      var last := s.versions[|s.versions| - 1];
      && (pc.HasDoc? ==> pc.doc == last || pc.doc == EMPTY_DOC)
      && (pc.Computed? || pc.HasTemp? || pc.HasTorn? ==>
            Apply(pc.op, last) == Ok(pc.next) || Apply(pc.op, EMPTY_DOC) == Ok(pc.next))
  }

  /** A file that was seen does not disappear. */
  ghost predicate FileStays(s: State) {
    forall a | a in s.pcs && s.pcs[a].SawFile? :: s.file.Some?
  }

  ghost predicate ReaderInv(s: State) {
    && (forall a | a in s.seen :: s.seen[a] <= |s.log|)
    && (forall a | a in s.pcs && s.pcs[a].Opened? ::
          s.pcs[a].version <= |s.log| && (a in s.seen ==> s.seen[a] <= s.pcs[a].version))
  }

  /** An open file holds the version that was on disk when it was opened, and so does every
      document that a read has handed back; one reader's versions never go back. */
  ghost predicate ReadsInv(s: State) {
    && (forall a | a in s.pcs && s.pcs[a].Opened? ::
          s.pcs[a].version < |s.versions| && s.pcs[a].content == Whole(s.versions[s.pcs[a].version]))
    && (forall i | 0 <= i < |s.readLog| ::
          s.readLog[i].version < |s.versions| && s.readLog[i].doc == s.versions[s.readLog[i].version])
    && (forall i | 0 <= i < |s.readLog| ::
          s.readLog[i].actor in s.seen && s.readLog[i].version <= s.seen[s.readLog[i].actor])
    && (forall i, j | 0 <= i < j < |s.readLog| && s.readLog[i].actor == s.readLog[j].actor ::
          s.readLog[i].version <= s.readLog[j].version)
  }

  /** What holds whatever the disk does. */
  ghost predicate Locks(s: State) {
    TicketInv(s) && FlockInv(s) && MutexInv(s) && HolderInv(s) && Counted(s) && FileStays(s)
  }

  /** What holds as long as nothing has done harm. */
  ghost predicate Inv(s: State) {
    Locks(s) && HistoryInv(s) && HolderDocs(s) && ReaderInv(s) && ReadsInv(s)
  }

  /** The step renames a file that lost its last bytes, or one computed without seeing the
      registry that should have come out otherwise, or makes a read hand back an empty document
      that the reader cannot have been due. */
  ghost predicate Harmful(s: State, step: Step)
    requires Enabled(s, step)
  {
    match step
    case Rename(a) => s.pcs[a].HasTorn? || Apply(s.pcs[a].op, DocOf(s.file)) != Ok(s.pcs[a].next)
    case StatFails(a) => EmptyFrom(s.versions, LastSeen(s, a)) == |s.versions|
    case _ => false
  }

  lemma StepKeepsHistory(s: State, step: Step)
    requires Inv(s) && Enabled(s, step) && !Harmful(s, step)
    ensures HistoryInv(Do(s, step))
  {
    hide ReadsInv, TicketInv, MutexInv, ReaderInv, HoldsMutex, Apply, EmptyFrom;
  }

  lemma StepCounts(s: State, step: Step)
    requires Locks(s) && Enabled(s, step)
    ensures Counted(Do(s, step)) && FileStays(Do(s, step))
  {
    hide TicketInv, FlockInv, MutexInv, HolderInv, HoldsMutex, Apply, EmptyFrom, BlindVersion, InCritical;
  }

  /** How a step other than a crash moves its actor and the two locks. */
  ghost predicate Moves(s: State, t: State, a: Actor) {
    && a.process !in s.dead && t.dead == s.dead
    && a in t.pcs && t.pcs == s.pcs[a := t.pcs[a]]
    && (if InCritical(t.pcs[a]) == InCritical(PcOf(s, a)) then t.flock == s.flock
        else if InCritical(t.pcs[a]) then s.flock == None && t.flock == Some(a)
        else t.flock == None)
    && (if HoldsMutex(t.pcs[a]) == HoldsMutex(PcOf(s, a)) then t.mutexes == s.mutexes
        else if HoldsMutex(t.pcs[a]) then HandleOf(a) !in s.mutexes && t.mutexes == s.mutexes[HandleOf(a) := a]
        else t.mutexes == s.mutexes - {HandleOf(a)})
  }

  /** A step that takes or releases one of the two locks. */
  ghost predicate Locking(step: Step) {
    step.LockMutex? || step.LockFileFails? || step.Flock? || step.Unflock? || step.UnlockMutex?
  }

  lemma LockMoves(s: State, step: Step)
    requires Enabled(s, step) && Locking(step)
    ensures Moves(s, Do(s, step), step.a)
  {
    hide Apply, EmptyFrom, BlindVersion;
  }

  lemma WriterMoves(s: State, step: Step)
    requires Enabled(s, step) && !Locking(step) && !step.Crash? && InCritical(PcOf(s, step.a))
    ensures Moves(s, Do(s, step), step.a)
  {
    hide Apply, EmptyFrom, BlindVersion;
  }

  lemma OtherMoves(s: State, step: Step)
    requires Enabled(s, step) && !Locking(step) && !step.Crash? && !InCritical(PcOf(s, step.a))
    ensures Moves(s, Do(s, step), step.a)
  {
    hide Apply, EmptyFrom, BlindVersion;
  }

  lemma StepMoves(s: State, step: Step)
    requires Enabled(s, step) && !step.Crash?
    ensures Moves(s, Do(s, step), step.a)
  {
    hide Do, Enabled, Moves, InCritical;
    if Locking(step) {
      LockMoves(s, step);
    } else if InCritical(PcOf(s, step.a)) {
      WriterMoves(s, step);
    } else {
      OtherMoves(s, step);
    }
  }

  lemma MoveKeepsFlock(s: State, t: State, a: Actor)
    requires FlockInv(s) && Moves(s, t, a)
    ensures FlockInv(t)
  {}

  lemma MoveKeepsMutex(s: State, t: State, a: Actor)
    requires MutexInv(s) && Moves(s, t, a)
    ensures MutexInv(t)
  {}

  lemma CrashKeepsFlock(s: State, p: nat)
    requires FlockInv(s) && Enabled(s, Crash(p))
    ensures FlockInv(Do(s, Crash(p)))
  {}

  lemma CrashKeepsMutex(s: State, p: nat)
    requires MutexInv(s) && Enabled(s, Crash(p))
    ensures MutexInv(Do(s, Crash(p)))
  {}

  lemma StepKeepsTheTwo(s: State, step: Step)
    requires Locks(s) && Enabled(s, step)
    ensures FlockInv(Do(s, step)) && MutexInv(Do(s, step))
  {
    if step.Crash? {
      CrashKeepsFlock(s, step.process);
      CrashKeepsMutex(s, step.process);
    } else {
      StepMoves(s, step);
      MoveKeepsFlock(s, Do(s, step), step.a);
      MoveKeepsMutex(s, Do(s, step), step.a);
    }
  }

  lemma SilentStep(s: State, step: Step)
    requires Enabled(s, step) && !step.Rename? && !step.Unflock?
    ensures Do(s, step).log == s.log && Do(s, step).finished == s.finished && Do(s, step).tickets >= s.tickets
  {}

  lemma RenameKeepsTickets(s: State, a: Actor)
    requires Locks(s) && Enabled(s, Rename(a))
    ensures TicketInv(Do(s, Rename(a)))
  {
    hide HoldsMutex, MutexInv;
    assert s.flock == Some(a);
    var t := Do(s, Rename(a));
    assert forall i | 0 <= i < |s.log| :: t.log[i] == s.log[i];
  }

  lemma UnflockKeepsTickets(s: State, a: Actor)
    requires Locks(s) && Enabled(s, Unflock(a))
    ensures TicketInv(Do(s, Unflock(a)))
  {
    hide HoldsMutex, MutexInv, Apply;
    assert s.flock == Some(a);
    var pc := s.pcs[a];
    if pc.Committed? {
      assert s.log[|s.log| - 1] == Commit(pc.ticket, a, pc.op);
    }
  }

  lemma StepKeepsTickets(s: State, step: Step)
    requires Locks(s) && Enabled(s, step)
    ensures TicketInv(Do(s, step))
  {
    if step.Rename? {
      RenameKeepsTickets(s, step.a);
    } else if step.Unflock? {
      UnflockKeepsTickets(s, step.a);
    } else {
      SilentStep(s, step);
    }
  }

  lemma BystanderLeavesHistory(s: State, step: Step)
    requires FlockInv(s) && Enabled(s, step) && !step.Crash?
    requires s.flock.Some? && s.flock.value != step.a
    ensures var t := Do(s, step);
            && t.flock == s.flock && t.tickets == s.tickets && t.versions == s.versions
            && t.log == s.log && t.finished == s.finished && t.file == s.file
  {}

  lemma HolderRenames(s: State, a: Actor)
    requires Locks(s) && Enabled(s, Rename(a)) && s.flock == Some(a)
    ensures HolderInv(Do(s, Rename(a)))
  {
    hide HoldsMutex, HandleOf, MutexInv, TicketInv, Apply;
  }

  lemma HolderWorks(s: State, step: Step)
    requires FlockInv(s) && Enabled(s, step) && !step.Crash? && !step.Rename? && !step.Unflock?
    requires s.flock == Some(step.a)
    ensures var t := Do(s, step);
            && t.flock == s.flock && t.tickets == s.tickets && t.log == s.log && t.finished == s.finished
            && InCritical(t.pcs[step.a]) && !t.pcs[step.a].Committed? && !s.pcs[step.a].Committed?
            && t.pcs[step.a].ticket == s.pcs[step.a].ticket
  {
    hide Apply, EmptyFrom, BlindVersion;
  }

  lemma HolderSteps(s: State, step: Step)
    requires Locks(s) && Enabled(s, step) && !step.Crash?
    requires s.flock == Some(step.a)
    ensures HolderInv(Do(s, step))
  {
    hide HoldsMutex, HandleOf, MutexInv, TicketInv, Apply, EmptyFrom, BlindVersion;
    if step.Rename? {
      HolderRenames(s, step.a);
      hide Do;
    } else if !step.Unflock? {
      HolderWorks(s, step);
      hide Do;
    }
  }

  lemma TakingKeepsHolder(s: State, a: Actor)
    requires Locks(s) && Enabled(s, Flock(a))
    ensures HolderInv(Do(s, Flock(a)))
  {
    hide HoldsMutex, HandleOf, MutexInv, Apply;
  }

  lemma CrashKeepsHolder(s: State, p: nat)
    requires Locks(s) && Enabled(s, Crash(p))
    ensures HolderInv(Do(s, Crash(p)))
  {
    hide HoldsMutex, HandleOf, MutexInv, Apply;
  }

  lemma BystanderKeepsHolder(s: State, step: Step)
    requires Locks(s) && Enabled(s, step) && !step.Crash? && s.flock.Some? && s.flock.value != step.a
    ensures HolderInv(Do(s, step))
  {
    hide HoldsMutex, HandleOf, MutexInv, TicketInv, Apply;
    BystanderLeavesHistory(s, step);
    StepMoves(s, step);
    hide Do;
  }

  lemma StepKeepsHolder(s: State, step: Step)
    requires Locks(s) && Enabled(s, step)
    ensures HolderInv(Do(s, step))
  {
    hide HoldsMutex, HandleOf, MutexInv, TicketInv, Apply, Do;
    if step.Crash? {
      CrashKeepsHolder(s, step.process);
    } else if s.flock == Some(step.a) {
      HolderSteps(s, step);
    } else if s.flock.Some? {
      BystanderKeepsHolder(s, step);
    } else if step.Flock? {
      TakingKeepsHolder(s, step.a);
    } else {
      NobodyHolds(s, step);
    }
  }

  lemma NobodyHolds(s: State, step: Step)
    requires FlockInv(s) && Enabled(s, step) && !step.Crash? && !step.Flock? && s.flock.None?
    ensures Do(s, step).flock == None
  {
    hide Apply;
  }

  /** Every step of every actor, whatever the disk does. */
  lemma StepKeepsLocks(s: State, step: Step)
    requires Locks(s) && Enabled(s, step)
    ensures Locks(Do(s, step))
  {
    hide Do, HolderInv, TicketInv, MutexInv, FlockInv, Counted, FileStays;
    StepKeepsTheTwo(s, step);
    StepKeepsTickets(s, step);
    StepKeepsHolder(s, step);
    StepCounts(s, step);
  }

  // ---------------------------------------------------------------------
  // What the holder has read
  // ---------------------------------------------------------------------

  lemma HolderComputes(s: State, a: Actor)
    requires Inv(s) && Enabled(s, RunClosure(a))
    ensures HolderDocs(Do(s, RunClosure(a)))
  {
    hide HoldsMutex, HandleOf, MutexInv, ReaderInv, ReadsInv, TicketInv, HolderInv;
  }

  lemma HolderOtherwise(s: State, step: Step)
    requires Inv(s) && Enabled(s, step) && !step.RunClosure? && !step.Crash?
    ensures HolderDocs(Do(s, step))
  {
    hide HoldsMutex, HandleOf, MutexInv, ReaderInv, ReadsInv, TicketInv, HolderInv, Apply, EmptyFrom;
  }

  lemma StepKeepsHolderDocs(s: State, step: Step)
    requires Inv(s) && Enabled(s, step)
    ensures HolderDocs(Do(s, step))
  {
    hide HoldsMutex, HandleOf, MutexInv, ReaderInv, ReadsInv, TicketInv, HolderInv, Apply, EmptyFrom, Harmful;
    if step.RunClosure? {
      HolderComputes(s, step.a);
      hide Do;
    } else if !step.Crash? {
      HolderOtherwise(s, step);
      hide Do;
    }
  }

  // ---------------------------------------------------------------------
  // Readers
  // ---------------------------------------------------------------------

  /** The only steps that touch what readers have: opening the file, and the three ways a read
      completes. */
  ghost predicate ReadsNothing(s: State, step: Step) {
    !step.OpenFile? && !step.Parse? && !step.StatFails? && !(step.TestExists? && s.file.None?)
  }

  lemma OtherReads(s: State, step: Step)
    requires Enabled(s, step) && ReadsNothing(s, step)
    ensures var t := Do(s, step);
            && t.readLog == s.readLog && t.seen == s.seen && s.versions <= t.versions && s.log <= t.log
            && (forall a | a in t.pcs && t.pcs[a].Opened? :: a in s.pcs && s.pcs[a] == t.pcs[a])
  {
    hide Apply, EmptyFrom;
  }

  lemma OpenKeepsReaders(s: State, a: Actor)
    requires Inv(s) && Enabled(s, OpenFile(a))
    ensures ReaderInv(Do(s, OpenFile(a)))
  {
    hide HoldsMutex, MutexInv, TicketInv, HolderInv, HolderDocs, FlockInv, Apply, EmptyFrom;
  }

  /** A read completes and counts as a version no older than the reader's last. */
  ghost predicate Completes(s: State, t: State, a: Actor, doc: Doc, version: nat) {
    && t == To(s, a, Idle).(readLog := s.readLog + [Read(a, doc, version)], seen := s.seen[a := version])
    && version <= |s.log| && version < |s.versions| && doc == s.versions[version]
    && (a in s.seen ==> s.seen[a] <= version)
  }

  lemma ParseCompletes(s: State, a: Actor)
    requires Inv(s) && Enabled(s, Parse(a))
    ensures Completes(s, Do(s, Parse(a)), a, s.pcs[a].content.doc, s.pcs[a].version)
  {
    hide HoldsMutex, MutexInv, TicketInv, HolderInv, HolderDocs, FlockInv, Apply, EmptyFrom;
  }

  lemma AbsentCompletes(s: State, a: Actor)
    requires Inv(s) && Enabled(s, TestExists(a)) && s.file.None?
    ensures Completes(s, Do(s, TestExists(a)), a, EMPTY_DOC, 0)
  {
    hide HoldsMutex, MutexInv, TicketInv, HolderInv, HolderDocs, FlockInv, Apply, EmptyFrom;
    assert s.log == [] && s.versions[0] == EMPTY_DOC;
    assert a in s.seen ==> s.seen[a] <= |s.log|;
  }

  lemma BlindCompletes(s: State, a: Actor)
    requires Inv(s) && Enabled(s, StatFails(a)) && !Harmful(s, StatFails(a))
    ensures Completes(s, Do(s, StatFails(a)), a, EMPTY_DOC, BlindVersion(s, a))
  {
    hide HoldsMutex, MutexInv, TicketInv, HolderInv, HolderDocs, FlockInv, Apply, EmptyFrom;
  }

  lemma CompletedKeepsReads(s: State, t: State, a: Actor, doc: Doc, version: nat)
    requires Inv(s) && Completes(s, t, a, doc, version)
    ensures ReaderInv(t) && ReadsInv(t)
  {
    hide HoldsMutex, MutexInv, TicketInv, HolderInv, HolderDocs, FlockInv, HistoryInv, Apply, EmptyFrom;
  }

  lemma OpenKeepsReads(s: State, a: Actor)
    requires Inv(s) && Enabled(s, OpenFile(a))
    ensures ReadsInv(Do(s, OpenFile(a)))
  {
    hide HoldsMutex, HandleOf, MutexInv, TicketInv, HolderInv, HolderDocs, FlockInv, Apply, EmptyFrom;
  }

  lemma OtherKeepsReads(s: State, step: Step)
    requires Inv(s) && Enabled(s, step) && ReadsNothing(s, step)
    ensures ReaderInv(Do(s, step)) && ReadsInv(Do(s, step))
  {
    hide HoldsMutex, HandleOf, MutexInv, TicketInv, HolderInv, HolderDocs, FlockInv, HistoryInv, Do;
    OtherReads(s, step);
  }

  lemma StepKeepsReads(s: State, step: Step)
    requires Inv(s) && Enabled(s, step) && !Harmful(s, step)
    ensures ReaderInv(Do(s, step)) && ReadsInv(Do(s, step))
  {
    hide Inv, ReaderInv, ReadsInv, Harmful, Completes;
    if step.OpenFile? {
      OpenKeepsReads(s, step.a);
      OpenKeepsReaders(s, step.a);
    } else if step.Parse? {
      ParseCompletes(s, step.a);
      CompletedKeepsReads(s, Do(s, step), step.a, s.pcs[step.a].content.doc, s.pcs[step.a].version);
    } else if step.StatFails? {
      BlindCompletes(s, step.a);
      CompletedKeepsReads(s, Do(s, step), step.a, EMPTY_DOC, BlindVersion(s, step.a));
    } else if step.TestExists? && s.file.None? {
      AbsentCompletes(s, step.a);
      CompletedKeepsReads(s, Do(s, step), step.a, EMPTY_DOC, 0);
    } else {
      OtherKeepsReads(s, step);
    }
  }

  lemma StepKeepsInv(s: State, step: Step)
    requires Inv(s) && Enabled(s, step) && !Harmful(s, step)
    ensures Inv(Do(s, step))
  {
    hide Do, Harmful, Locks, HistoryInv, HolderDocs, ReaderInv, ReadsInv;
    StepKeepsLocks(s, step);
    StepKeepsHistory(s, step);
    StepKeepsHolderDocs(s, step);
    StepKeepsReads(s, step);
  }

  /** Every state of every schedule, from any initial registry.json, whatever the disk does. */
  lemma {:induction false} RunKeepsLocks(s: State, steps: seq<Step>)
    requires Locks(s) && CanRun(s, steps)
    ensures Locks(Run(s, steps))
    decreases |steps|
  {
    hide Do, Enabled, Locks;
    if steps != [] {
      StepKeepsLocks(s, steps[0]);
      RunKeepsLocks(Do(s, steps[0]), steps[1..]);
    }
  }

  lemma InitInv(s: State)
    requires Init(s)
    ensures Inv(s)
  {}

  // ---------------------------------------------------------------------
  // Safety over whole runs
  // ---------------------------------------------------------------------

  /** The left fold of closures over a document. */
  ghost function Fold(doc: Doc, log: seq<Commit>): Result<Doc, RegistryError> {
    if log == [] then Ok(doc)
    else match Fold(doc, log[..|log| - 1])
      case Ok(d) => Apply(log[|log| - 1].op, d)
      case Err(e) => Err(e)
  }

  lemma {:induction false} HistoryIsFold(s: State, i: nat)
    requires HistoryInv(s) && i <= |s.log|
    ensures Fold(s.versions[0], s.log[..i]) == Ok(s.versions[i])
    decreases i
  {
    if i > 0 {
      HistoryIsFold(s, i - 1);
      assert s.log[..i][..i - 1] == s.log[..i - 1];
    }
  }

  lemma StepExtendsHistory(s: State, step: Step)
    requires Enabled(s, step)
    ensures s.log <= Do(s, step).log && s.versions <= Do(s, step).versions
  {}

  lemma {:induction false} HistoryOnlyGrows(s: State, steps: seq<Step>)
    requires CanRun(s, steps)
    ensures s.log <= Run(s, steps).log && s.versions <= Run(s, steps).versions
    decreases |steps|
  {
    if steps != [] {
      StepExtendsHistory(s, steps[0]);
      HistoryOnlyGrows(Do(s, steps[0]), steps[1..]);
    }
  }

  /** The registry is what it should be: registry.json parses and is the fold of the committed
      closures over the document at the start; every document that a read has handed back is
      the fold of the first so many; and the versions one reader got never go back. */
  ghost predicate Sound(start: Doc, s: State) {
    && Parses(s.file) && Fold(start, s.log) == Ok(DocOf(s.file))
    && (forall i | 0 <= i < |s.readLog| ::
          s.readLog[i].version <= |s.log| && Fold(start, s.log[..s.readLog[i].version]) == Ok(s.readLog[i].doc))
    && (forall i, j | 0 <= i < j < |s.readLog| && s.readLog[i].actor == s.readLog[j].actor ::
          s.readLog[i].version <= s.readLog[j].version)
  }

  lemma InvIsSound(s: State)
    requires Inv(s)
    ensures Sound(s.versions[0], s)
  {
    hide TicketInv, MutexInv, FlockInv, HolderInv, HolderDocs, ReaderInv, HoldsMutex, Apply;
    HistoryIsFold(s, |s.log|);
    assert s.log[..|s.log|] == s.log;
    forall i | 0 <= i < |s.readLog|
      ensures s.readLog[i].version <= |s.log|
      ensures Fold(s.versions[0], s.log[..s.readLog[i].version]) == Ok(s.readLog[i].doc)
    {
      HistoryIsFold(s, s.readLog[i].version);
    }
  }

  lemma FoldSnoc(start: Doc, log: seq<Commit>, c: Commit, doc: Doc)
    requires Fold(start, log) == Ok(doc)
    ensures Fold(start, log + [c]) == Apply(c.op, doc)
  {
    assert (log + [c])[..|log|] == log;
  }

  lemma HarmfulRename(s: State, a: Actor)
    requires Inv(s) && Enabled(s, Rename(a)) && Harmful(s, Rename(a))
    ensures !Sound(s.versions[0], Do(s, Rename(a)))
  {
    hide TicketInv, MutexInv, FlockInv, HolderInv, HolderDocs, ReaderInv, ReadsInv, HoldsMutex, Apply, Fold;
    var pc := s.pcs[a];
    var commit := Commit(pc.ticket, a, pc.op);
    HistoryIsFold(s, |s.log|);
    assert s.log[..|s.log|] == s.log;
    FoldSnoc(s.versions[0], s.log, commit, DocOf(s.file));
    assert Do(s, Rename(a)).log == s.log + [commit];
  }

  lemma HarmfulStat(s: State, a: Actor)
    requires Inv(s) && Enabled(s, StatFails(a)) && Harmful(s, StatFails(a))
    ensures !Sound(s.versions[0], Do(s, StatFails(a)))
  {
    hide TicketInv, MutexInv, FlockInv, HolderInv, HolderDocs, HoldsMutex, Apply, Fold;
    var t := Do(s, StatFails(a));
    var n := |s.readLog|;
    assert t.readLog[n] == Read(a, EMPTY_DOC, |s.log|);
    HistoryIsFold(s, |s.log|);
    assert s.versions[|s.log|] != EMPTY_DOC;
  }

  /** A step keeps the registry sound exactly when it is not one of the harmful ones. */
  lemma SoundExactly(s: State, step: Step)
    requires Inv(s) && Enabled(s, step)
    ensures Sound(s.versions[0], Do(s, step)) <==> !Harmful(s, step)
    ensures s.versions[0] == Do(s, step).versions[0]
  {
    StepExtendsHistory(s, step);
    hide Sound, Do, TicketInv, MutexInv, FlockInv, HolderInv, HolderDocs, ReaderInv, ReadsInv, Apply, Fold;
    if !Harmful(s, step) {
      StepKeepsInv(s, step);
      InvIsSound(Do(s, step));
    } else if step.Rename? {
      HarmfulRename(s, step.a);
    } else {
      HarmfulStat(s, step.a);
    }
  }

  /** No step of the schedule does harm. */
  ghost predicate NeverHarmful(s: State, steps: seq<Step>)
    requires CanRun(s, steps)
    decreases |steps|
  {
    steps == [] || (!Harmful(s, steps[0]) && NeverHarmful(Do(s, steps[0]), steps[1..]))
  }

  /** The registry is sound at every moment of the schedule. */
  ghost predicate AlwaysSound(start: Doc, s: State, steps: seq<Step>)
    requires CanRun(s, steps)
    decreases |steps|
  {
    Sound(start, s) && (steps == [] || AlwaysSound(start, Do(s, steps[0]), steps[1..]))
  }

  lemma {:induction false} RunSoundExactly(s: State, steps: seq<Step>)
    requires Inv(s) && CanRun(s, steps)
    ensures AlwaysSound(s.versions[0], s, steps) <==> NeverHarmful(s, steps)
    ensures NeverHarmful(s, steps) ==> Inv(Run(s, steps))
    decreases |steps|
  {
    InvIsSound(s);
    hide Sound, Do, Harmful, Inv, Enabled;
    if steps != [] {
      var step := steps[0];
      SoundExactly(s, step);
      if Harmful(s, step) {
        assert !AlwaysSound(s.versions[0], Do(s, step), steps[1..]);
      } else {
        StepKeepsInv(s, step);
        RunSoundExactly(Do(s, step), steps[1..]);
      }
    }
  }

  /** From every initial registry: at every moment of a schedule, crashes and faults included,
      registry.json is the fold of the committed closures and every read was of a committed
      version, in order, exactly when no step of the schedule does harm. */
  lemma RegistryIsFoldOfCommits(init: State, steps: seq<Step>)
    requires Init(init) && CanRun(init, steps)
    ensures AlwaysSound(DocOf(init.file), init, steps) <==> NeverHarmful(init, steps)
    ensures NeverHarmful(init, steps) ==> Sound(DocOf(init.file), Run(init, steps))
  {
    InitInv(init);
    RunSoundExactly(init, steps);
    HistoryOnlyGrows(init, steps);
    hide Sound, AlwaysSound, NeverHarmful, Run, Inv;
    if NeverHarmful(init, steps) {
      assert Run(init, steps).versions[0] == init.versions[0];
      InvIsSound(Run(init, steps));
    }
  }

  /** The disk neither loses bytes of a temp file nor fails a stat. */
  predicate Quiet(step: Step) {
    !step.WriteTorn? && !step.ReadBlind? && !step.StatFails?
  }

  /** The caller works on what is in registry.json, and its temp file is not torn. */
  ghost predicate Sighted(pc: Pc, doc: Doc) {
    && !pc.HasTorn?
    && (pc.HasDoc? ==> pc.doc == doc)
    && (pc.Computed? || pc.HasTemp? ==> Apply(pc.op, doc) == Ok(pc.next))
  }

  ghost predicate AllSighted(s: State) {
    forall a | a in s.pcs :: Sighted(s.pcs[a], DocOf(s.file))
  }

  lemma QuietRename(s: State, a: Actor)
    requires FlockInv(s) && AllSighted(s) && Enabled(s, Rename(a))
    ensures AllSighted(Do(s, Rename(a)))
  {
    hide Apply;
  }

  lemma QuietMove(s: State, step: Step)
    requires AllSighted(s) && Enabled(s, step) && Quiet(step) && !step.Rename? && !step.Crash?
    ensures var t := Do(s, step);
            t.file == s.file && step.a in t.pcs && Sighted(t.pcs[step.a], DocOf(s.file))
  {
    hide Apply, EmptyFrom, BlindVersion;
  }

  lemma QuietStep(s: State, step: Step)
    requires FlockInv(s) && AllSighted(s) && Enabled(s, step) && Quiet(step)
    ensures AllSighted(Do(s, step)) && !Harmful(s, step)
  {
    hide FlockInv, Apply, EmptyFrom, BlindVersion;
    if step.Rename? {
      QuietRename(s, step.a);
      hide Do;
    } else if !step.Crash? {
      QuietMove(s, step);
      StepMoves(s, step);
      assert Do(s, step).pcs == s.pcs[step.a := Do(s, step).pcs[step.a]];
      hide Do, Sighted;
    }
  }

  lemma {:induction false} QuietRunDoesNoHarm(s: State, steps: seq<Step>)
    requires Locks(s) && AllSighted(s) && CanRun(s, steps) && forall k | 0 <= k < |steps| :: Quiet(steps[k])
    ensures NeverHarmful(s, steps)
    decreases |steps|
  {
    hide Do, Enabled, AllSighted, Harmful, Quiet, TicketInv, FlockInv, MutexInv, HolderInv, Counted, FileStays;
    if steps != [] {
      QuietStep(s, steps[0]);
      StepKeepsLocks(s, steps[0]);
      QuietRunDoesNoHarm(Do(s, steps[0]), steps[1..]);
    }
  }

  /** Crashes, failing calls and any interleaving do no harm by themselves: without a torn temp
      file and without a failing stat the registry is sound at every moment. */
  lemma QuietScheduleIsSound(init: State, steps: seq<Step>)
    requires Init(init) && CanRun(init, steps) && forall k | 0 <= k < |steps| :: Quiet(steps[k])
    ensures AlwaysSound(DocOf(init.file), init, steps) && Sound(DocOf(init.file), Run(init, steps))
  {
    InitInv(init);
    QuietRunDoesNoHarm(init, steps);
    RegistryIsFoldOfCommits(init, steps);
  }

  /** No step makes the version that a reader got last older. */
  lemma SeenNeverGoesBack(s: State, step: Step, a: Actor)
    requires Inv(s) && Enabled(s, step) && a in s.seen
    ensures a in Do(s, step).seen && s.seen[a] <= Do(s, step).seen[a]
  {
    hide TicketInv, FlockInv, MutexInv, HolderInv, FileStays, HistoryInv, HolderDocs, ReadsInv, Apply, EmptyFrom;
    if step.TestExists? && s.file.None? {
      AbsentCompletes(s, step.a);
      hide Do;
    }
  }

  /** At every moment of every schedule, whatever the disk does: at most one caller is between
      lock and unlock, and commits are in the order their callers took the flock. */
  lemma MutualExclusion(init: State, steps: seq<Step>)
    requires Init(init) && CanRun(init, steps)
    ensures var s := Run(init, steps);
            && (forall i, j | 0 <= i < j < |s.log| :: s.log[i].ticket < s.log[j].ticket)
            && (forall a, b | a in s.pcs && b in s.pcs && InCritical(s.pcs[a]) && InCritical(s.pcs[b]) :: a == b)
  {
    InitInv(init);
    RunKeepsLocks(init, steps);
  }

  /** Whatever the disk does, a call that reported success has its closure in the log, once, and
      a call that failed has none. */
  lemma CallsMatchCommits(init: State, steps: seq<Step>, f: Finished)
    requires Init(init) && CanRun(init, steps)
    requires f in Run(init, steps).finished
    ensures var s := Run(init, steps);
            && (f.ok <==> exists i :: 0 <= i < |s.log| && s.log[i] == Commit(f.ticket, f.actor, f.op))
            && (forall i | 0 <= i < |s.log| && s.log[i].ticket == f.ticket :: f.ok)
            && (forall i, j | 0 <= i < j < |s.log| :: s.log[i].ticket != s.log[j].ticket)
  {
    InitInv(init);
    RunKeepsLocks(init, steps);
  }

  /** A closure that finds nothing to remove goes straight to failure, and the failing
      caller releases the flock and then the mutex with registry.json unchanged. */
  lemma NotFoundChangesNothing(s: State, a: Actor)
    requires Locks(s) && Enabled(s, RunClosure(a))
    requires Apply(s.pcs[a].op, s.pcs[a].doc).Err?
    ensures CanRun(s, [RunClosure(a), Unflock(a), UnlockMutex(a)])
    ensures var t := Run(s, [RunClosure(a), Unflock(a), UnlockMutex(a)]);
            && t.file == s.file && t.log == s.log && t.versions == s.versions
            && t.flock == None && HandleOf(a) !in t.mutexes && PcOf(t, a) == Idle
            && t.finished == s.finished + [Finished(s.pcs[a].ticket, a, s.pcs[a].op, false)]
  {
    hide HolderInv, TicketInv;
    var s1 := Do(s, RunClosure(a));
    var s2 := Do(s1, Unflock(a));
    var s3 := Do(s2, UnlockMutex(a));
    assert [UnlockMutex(a)][1..] == [];
    assert CanRun(s3, []) && Run(s3, []) == s3;
    assert CanRun(s2, [UnlockMutex(a)]) && Run(s2, [UnlockMutex(a)]) == s3;
    assert [Unflock(a), UnlockMutex(a)][1..] == [UnlockMutex(a)];
    assert CanRun(s1, [Unflock(a), UnlockMutex(a)]) && Run(s1, [Unflock(a), UnlockMutex(a)]) == s3;
    assert [RunClosure(a), Unflock(a), UnlockMutex(a)][1..] == [Unflock(a), UnlockMutex(a)];
  }

  // ---------------------------------------------------------------------
  // Crashes and progress
  // ---------------------------------------------------------------------

  /** A crash leaves registry.json, disables no step of any other process, and frees the
      flock if the crashed process held it. */
  lemma CrashBlocksNobody(s: State, p: nat, step: Step)
    requires Locks(s) && Enabled(s, Crash(p))
    requires Enabled(s, step) && (if step.Crash? then step.process != p else step.a.process != p)
    ensures var t := Do(s, Crash(p));
            && t.file == s.file && t.versions == s.versions && t.log == s.log
            && (s.flock.Some? && s.flock.value.process == p ==> t.flock == None)
            && Enabled(t, step)
  {}

  /** How many more steps a flock holder needs, at most, until it releases the flock. */
  function StepsToRelease(pc: Pc): nat {
    match pc
    case HasFlock(_, _) => 5
    case HasDoc(_, _, _) => 4
    case Computed(_, _, _) => 3
    case HasTemp(_, _, _) => 2
    case HasTorn(_, _, _) => 2
    case Committed(_, _) => 1
    case Failed(_, _) => 1
    case _ => 0
  }

  /** The holder is never stuck: each of its steps brings it closer to the release,
      whatever the outcome of the disk operation. */
  lemma HolderAdvances(s: State, step: Step)
    requires Locks(s) && Enabled(s, step) && !step.Crash? && s.flock == Some(step.a)
    ensures StepsToRelease(PcOf(Do(s, step), step.a)) < StepsToRelease(PcOf(s, step.a))
    ensures StepsToRelease(PcOf(Do(s, step), step.a)) == 0 ==> Do(s, step).flock == None
  {
    hide MutexInv, TicketInv, HolderInv;
  }

  ghost function NextOf(s: State, a: Actor): Step
    requires a in s.pcs
  {
    match s.pcs[a]
    case Calling(_) => LockMutex(a)
    case HasMutex(_) => Flock(a)
    case HasFlock(_, _) => if Parses(s.file) then ReadDoc(a) else ReadFails(a)
    case HasDoc(_, _, _) => RunClosure(a)
    case Computed(_, _, _) => WriteTemp(a)
    case HasTemp(_, _, _) => Rename(a)
    case HasTorn(_, _, _) => Rename(a)
    case Committed(_, _) => Unflock(a)
    case Failed(_, _) => Unflock(a)
    case Unflocked => UnlockMutex(a)
    case Reading => TestExists(a)
    case SawFile => OpenFile(a)
    case Opened(content, _) => if content.Whole? then Parse(a) else ReadError(a)
    case Idle => StartRead(a)
  }

  /** No deadlock: whenever some live caller is part way through, some live caller can
      take its next step, and without failing unless registry.json does not parse. */
  lemma NoDeadlock(s: State, a: Actor)
    requires Locks(s) && a in s.pcs && !s.pcs[a].Idle?
    ensures exists b :: b in s.pcs && !s.pcs[b].Idle? && Enabled(s, NextOf(s, b))
  {
    hide HolderInv, TicketInv;
    if s.flock.Some? {
      assert Enabled(s, NextOf(s, s.flock.value));
    } else if s.pcs[a].Calling? && HandleOf(a) in s.mutexes {
      var b := s.mutexes[HandleOf(a)];
      assert Enabled(s, NextOf(s, b));
    } else {
      assert Enabled(s, NextOf(s, a));
    }
  }

  // ---------------------------------------------------------------------
  // Check-then-insert clients
  // ---------------------------------------------------------------------

  /** The last closure in the slice that touches a fork key inserts it. */
  ghost predicate LastForkOpInserts(log: seq<Commit>, key: Key)
  {
    log != [] &&
    var op := log[|log| - 1].op;
    if (op.InsertFork? || op.RemoveFork?) && op.key == key then op.InsertFork?
    else LastForkOpInserts(log[..|log| - 1], key)
  }

  /** `fork_base` looks the key up in one read and inserts it in a later critical
      section. When the read saw version `i` without the key and the insert lands on
      version `j`, it overwrites somebody's entry exactly when the commits in between
      leave the key inserted. */
  lemma {:induction false} CheckThenInsertOverwrites(s: State, i: nat, j: nat, key: Key)
    requires HistoryInv(s) && i <= j <= |s.log|
    requires key !in s.versions[i].forks
    ensures key in s.versions[j].forks <==> LastForkOpInserts(s.log[i..j], key)
    decreases j - i
  {
    if i < j {
      CheckThenInsertOverwrites(s, i, j - 1, key);
      assert s.log[i..j][..j - i - 1] == s.log[i..j - 1];
      assert Apply(s.log[j - 1].op, s.versions[j - 1]) == Ok(s.versions[j]);
    }
  }
}
