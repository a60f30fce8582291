/** What every run of supervisor operations keeps, whatever the environment answers. */
module SupervisorInvariants {
  import opened Wrappers
  import opened Supervisor

  ghost function Run(w: World, ops: seq<Op>): World
    decreases |ops|
  {
    if ops == [] then w else Run(Exec(w, ops[0]).0, ops[1..])
  }

  /** The world of a supervisor that has done nothing yet. */
  const START := World(map[], map[], map[], map[], 0, [])

  // ---------------------------------------------------------------------
  // Records
  // ---------------------------------------------------------------------

  ghost predicate DistinctSecrets(xs: seq<SecretLease>) {
    forall i, j | 0 <= i < j < |xs| :: xs[i].secretName != xs[j].secretName
  }

  ghost predicate DistinctArtifacts(xs: seq<Artifact>) {
    forall i, j | 0 <= i < j < |xs| :: xs[i].name != xs[j].name
  }

  ghost predicate RecordInv(id: Id, r: Record) {
    && r.projectId == id && r.layout == LayoutOf(id) && ValidProjectId(id)
    && DistinctSecrets(r.secrets) && DistinctArtifacts(r.artifacts)
  }

  ghost predicate StoreInv(w: World) {
    forall id | id in w.store :: RecordInv(id, w.store[id])
  }

  lemma {:induction false} WithoutSecretKeeps(xs: seq<SecretLease>, name: string)
    ensures forall x :: x in WithoutSecret(xs, name) <==> x in xs && x.secretName != name
    ensures DistinctSecrets(xs) ==> DistinctSecrets(WithoutSecret(xs, name))
  {
    if xs != [] {
      WithoutSecretKeeps(xs[1..], name);
      assert xs == [xs[0]] + xs[1..];
      var ys := WithoutSecret(xs[1..], name);
      if DistinctSecrets(xs) {
        forall j | 0 <= j < |ys| ensures xs[0].secretName != ys[j].secretName {
          assert ys[j] in xs[1..];
          var k :| 0 <= k < |xs[1..]| && xs[1..][k] == ys[j];
          assert xs[k + 1] == ys[j];
        }
      }
    }
  }

  lemma {:induction false} WithoutArtifactKeeps(xs: seq<Artifact>, name: string)
    ensures forall x :: x in WithoutArtifact(xs, name) <==> x in xs && x.name != name
    ensures DistinctArtifacts(xs) ==> DistinctArtifacts(WithoutArtifact(xs, name))
  {
    if xs != [] {
      WithoutArtifactKeeps(xs[1..], name);
      assert xs == [xs[0]] + xs[1..];
      var ys := WithoutArtifact(xs[1..], name);
      if DistinctArtifacts(xs) {
        forall j | 0 <= j < |ys| ensures xs[0].name != ys[j].name {
          assert ys[j] in xs[1..];
          var k :| 0 <= k < |xs[1..]| && xs[1..][k] == ys[j];
          assert xs[k + 1] == ys[j];
        }
      }
    }
  }

  lemma AppendSecretDistinct(xs: seq<SecretLease>, lease: SecretLease)
    requires DistinctSecrets(xs)
    ensures DistinctSecrets(WithoutSecret(xs, lease.secretName) + [lease])
  {
    WithoutSecretKeeps(xs, lease.secretName);
    var ys := WithoutSecret(xs, lease.secretName);
    assert forall i | 0 <= i < |ys| :: ys[i] in ys;
  }

  lemma AppendArtifactDistinct(xs: seq<Artifact>, artifact: Artifact)
    requires DistinctArtifacts(xs)
    ensures DistinctArtifacts(WithoutArtifact(xs, artifact.name) + [artifact])
  {
    WithoutArtifactKeeps(xs, artifact.name);
    var ys := WithoutArtifact(xs, artifact.name);
    assert forall i | 0 <= i < |ys| :: ys[i] in ys;
  }

  ghost predicate WritesOnly(w: World, t: World, id: Id) {
    t.store == w.store || (id in t.store && t.store == w.store[id := t.store[id]])
  }

  lemma ProvisionWrites(w: World, op: Op)
    requires StoreInv(w) && op.Provision?
    ensures WritesOnly(w, Exec(w, op).0, Subject(op))
  {
    hide LayoutOf, ValidProjectId;
  }

  lemma TransitionWrites(w: World, op: Op)
    requires StoreInv(w) && (op.ToRunning? || op.ToStopped? || op.ToProvisioned?)
    ensures WritesOnly(w, Exec(w, op).0, Subject(op))
  {
    hide BootTrace, StopTrace, StaysAlive, Ended, BootSucceeds, LayoutOf, ValidProjectId;
  }

  /** Every operation but destroy writes at most the record of its own project. */
  lemma WritesOneRecord(w: World, op: Op)
    requires StoreInv(w) && !op.Destroy?
    ensures WritesOnly(w, Exec(w, op).0, Subject(op))
  {
    hide ExecProvision, ExecRunning, ExecStopped, LayoutOf, ValidProjectId, WithoutSecret, WithoutArtifact;
    if op.Provision? {
      ProvisionWrites(w, op);
    } else if op.ToRunning? || op.ToStopped? || op.ToProvisioned? {
      TransitionWrites(w, op);
    }
  }

  lemma OwnRecordInv(w: World, op: Op)
    requires StoreInv(w) && !op.Destroy? && Subject(op) in Exec(w, op).0.store
    ensures RecordInv(Subject(op), Exec(w, op).0.store[Subject(op)])
  {
    hide ExecProvision, ExecRunning, ExecStopped, LayoutOf, ValidProjectId, WithoutSecret, WithoutArtifact;
    if op.Provision? {
      ProvisionRecordInv(w, op);
    } else if op.ToRunning? || op.ToStopped? {
      TransitionRecordInv(w, op);
    } else if op.InjectSecret? && op.id in w.store {
      AppendSecretDistinct(w.store[op.id].secrets, op.lease);
    } else if op.CollectArtifact? && op.id in w.store {
      AppendArtifactDistinct(w.store[op.id].artifacts, op.artifact);
    }
  }

  lemma ProvisionRecordInv(w: World, op: Op)
    requires StoreInv(w) && op.Provision? && Subject(op) in Exec(w, op).0.store
    ensures RecordInv(Subject(op), Exec(w, op).0.store[Subject(op)])
  {
    hide LayoutOf, ValidProjectId;
  }

  lemma TransitionRecordInv(w: World, op: Op)
    requires StoreInv(w) && (op.ToRunning? || op.ToStopped?) && op.id in Exec(w, op).0.store
    ensures RecordInv(op.id, Exec(w, op).0.store[op.id])
  {
    hide BootTrace, StopTrace, StaysAlive, Ended, BootSucceeds, LayoutOf, ValidProjectId;
  }

  lemma StepKeepsStore(w: World, op: Op)
    requires StoreInv(w)
    ensures StoreInv(Exec(w, op).0)
  {
    hide ExecProvision, ExecRunning, ExecStopped, RecordInv;
    if !op.Destroy? {
      WritesOneRecord(w, op);
      if Subject(op) in Exec(w, op).0.store {
        OwnRecordInv(w, op);
      }
    }
  }

  /** In every reachable store each record sits under its own id with its derived paths,
      and its secret names and artifact names are pairwise distinct. */
  lemma {:induction false} RunKeepsStore(w: World, ops: seq<Op>)
    requires StoreInv(w)
    ensures StoreInv(Run(w, ops))
    decreases |ops|
  {
    if ops != [] {
      StepKeepsStore(w, ops[0]);
      RunKeepsStore(Exec(w, ops[0]).0, ops[1..]);
    }
  }

  /** In every reachable store. */
  lemma ReachableStore(ops: seq<Op>)
    ensures StoreInv(Run(START, ops))
  {
    RunKeepsStore(START, ops);
  }

  /** The lease injected last is the one on record for its name; the others stay. */
  lemma LatestSecretWins(w: World, id: Id, lease: SecretLease, disk: Disk, other: SecretLease)
    requires Exec(w, InjectSecret(id, lease, disk)).1 && StoreInv(w)
    ensures var secrets := Exec(w, InjectSecret(id, lease, disk)).0.store[id].secrets;
            && lease in secrets
            && (other.secretName == lease.secretName && other in secrets ==> other == lease)
            && (other.secretName != lease.secretName ==> (other in secrets <==> other in w.store[id].secrets))
  {
    WithoutSecretKeeps(w.store[id].secrets, lease.secretName);
  }

  lemma LatestArtifactWins(w: World, id: Id, artifact: Artifact, disk: Disk, other: Artifact)
    requires Exec(w, CollectArtifact(id, artifact, disk)).1 && StoreInv(w)
    ensures var artifacts := Exec(w, CollectArtifact(id, artifact, disk)).0.store[id].artifacts;
            && artifact in artifacts
            && (other.name == artifact.name && other in artifacts ==> other == artifact)
            && (other.name != artifact.name ==> (other in artifacts <==> other in w.store[id].artifacts))
  {
    WithoutArtifactKeeps(w.store[id].artifacts, artifact.name);
  }

  // ---------------------------------------------------------------------
  // What success means
  // ---------------------------------------------------------------------

  /** Provisioning sets kernel, seed data and policy; a project seen for the first time starts
      Provisioned, with nothing attached to it. */
  lemma ProvisionSucceeds(w: World, spec: Spec, layoutOk: bool, disk: Disk)
    requires StoreInv(w) && Exec(w, Provision(spec, layoutOk, disk)).1
    ensures var id, t := spec.projectId, Exec(w, Provision(spec, layoutOk, disk)).0;
            && ValidProjectId(id) && id in t.store
            && t.store[id].kernelRef == spec.kernelRef && t.store[id].seedDataRefs == spec.seedDataRefs
            && t.store[id].networkPolicy == spec.networkPolicy && t.store[id].updatedAt == disk.now
            && (id !in w.store ==>
                  && t.store[id].state == Provisioned && t.store[id].createdAt == disk.now
                  && t.store[id].secrets == [] && t.store[id].artifacts == [] && t.store[id].ebpf == None)
  {
    hide ValidProjectId, LayoutOf;
  }

  /** A transition that succeeds ends in the state asked for: Running with a new child, Stopped
      without those the stop ended, Provisioned with the same children. */
  lemma TransitionSucceeds(w: World, op: Op)
    requires StoreInv(w) && (op.ToRunning? || op.ToStopped? || op.ToProvisioned?) && Exec(w, op).1
    ensures var id, t := op.id, Exec(w, op).0;
            && id in w.store && id in t.store
            && (op.ToRunning? ==> t.store[id].state == Running && Live(t, id) == Live(w, id) + {w.next})
            && (op.ToStopped? ==> t.store[id].state == Stopped)
            && (op.ToStopped? && w.store[id].state == Running ==> Live(t, id) == Live(w, id) - Ended(w, id, op.stop))
            && (op.ToProvisioned? ==> t.store[id].state == Provisioned && Live(t, id) == Live(w, id))
  {
    hide ValidProjectId, LayoutOf, BootTrace, StopTrace, Ended;
  }

  lemma PolicySucceeds(w: World, op: Op)
    requires StoreInv(w) && (op.AttachPolicy? || op.LoadEbpf?) && Exec(w, op).1
    ensures var id, t := op.id, Exec(w, op).0;
            && id in w.store && id in t.store
            && (op.AttachPolicy? ==> t.store[id] == w.store[id].(networkPolicy := op.policy, updatedAt := op.disk.now))
            && (op.LoadEbpf? ==> op.loadsProgram
                                 && t.store[id] == w.store[id].(ebpf := Some(op.ebpf), updatedAt := op.disk.now))
  {
    hide ValidProjectId, LayoutOf;
  }

  // ---------------------------------------------------------------------
  // What stays the same
  // ---------------------------------------------------------------------

  ghost predicate SameIdentity(op: Op, r: Record, r': Record) {
    && r'.createdAt == r.createdAt && r'.layout == r.layout && r'.projectId == r.projectId
    && (!op.InjectSecret? ==> r'.secrets == r.secrets)
    && (!op.CollectArtifact? ==> r'.artifacts == r.artifacts)
    && (!op.LoadEbpf? ==> r'.ebpf == r.ebpf)
    && (!op.ToRunning? && !op.ToStopped? && !op.ToProvisioned? ==> r'.state == r.state)
  }

  lemma TransitionKeepsIdentity(w: World, op: Op)
    requires StoreInv(w) && (op.ToRunning? || op.ToStopped?) && op.id in w.store
    ensures op.id in Exec(w, op).0.store && SameIdentity(op, w.store[op.id], Exec(w, op).0.store[op.id])
  {
    hide BootTrace, StopTrace, StaysAlive, Ended, BootSucceeds, LayoutOf, ValidProjectId;
  }

  lemma ProvisionKeepsIdentity(w: World, op: Op)
    requires StoreInv(w) && op.Provision? && Subject(op) in w.store
    ensures Subject(op) in Exec(w, op).0.store
    ensures SameIdentity(op, w.store[Subject(op)], Exec(w, op).0.store[Subject(op)])
  {
    hide ExecRunning, ExecStopped, LayoutOf, ValidProjectId, WithoutSecret, WithoutArtifact;
  }

  lemma EditKeepsIdentity(w: World, op: Op)
    requires StoreInv(w) && Subject(op) in w.store
    requires !op.Destroy? && !op.ToRunning? && !op.ToStopped? && !op.Provision?
    ensures Subject(op) in Exec(w, op).0.store
    ensures SameIdentity(op, w.store[Subject(op)], Exec(w, op).0.store[Subject(op)])
  {
    hide ExecProvision, ExecRunning, ExecStopped, LayoutOf, ValidProjectId, WithoutSecret, WithoutArtifact;
  }

  lemma OwnRecordKeepsIdentity(w: World, op: Op)
    requires StoreInv(w) && Subject(op) in w.store && !op.Destroy?
    ensures Subject(op) in Exec(w, op).0.store
    ensures SameIdentity(op, w.store[Subject(op)], Exec(w, op).0.store[Subject(op)])
  {
    hide Exec, StoreInv, SameIdentity;
    if op.ToRunning? || op.ToStopped? {
      TransitionKeepsIdentity(w, op);
    } else if op.Provision? {
      ProvisionKeepsIdentity(w, op);
    } else {
      EditKeepsIdentity(w, op);
    }
  }

  lemma DestroyRemovesOnly(w: World, op: Op, id: Id)
    requires op.Destroy? && id in Exec(w, op).0.store
    ensures id in w.store && Exec(w, op).0.store[id] == w.store[id]
  {
  }

  /** A record that is there before and after a step keeps its creation time and paths;
      only the operations on secrets, artifacts and state change those. */
  lemma StepKeepsIdentity(w: World, op: Op, id: Id)
    requires StoreInv(w)
    requires id in w.store && id in Exec(w, op).0.store
    ensures SameIdentity(op, w.store[id], Exec(w, op).0.store[id])
  {
    hide Exec, StoreInv;
    if id != Subject(op) {
      OtherRecordOrGone(w, op, id);
    } else if op.Destroy? {
      DestroyRemovesOnly(w, op, id);
    } else {
      OwnRecordKeepsIdentity(w, op);
    }
  }

  /** From its creation to its destruction a record's creation time and paths are fixed. */
  lemma {:induction false} IdentityIsFixed(w: World, ops: seq<Op>, id: Id)
    requires StoreInv(w) && id in w.store
    requires forall k | 0 <= k <= |ops| :: id in Run(w, ops[..k]).store
    ensures id in Run(w, ops).store
    ensures Run(w, ops).store[id].createdAt == w.store[id].createdAt
    ensures Run(w, ops).store[id].layout == w.store[id].layout
    decreases |ops|
  {
    assert ops[..|ops|] == ops;
    if ops != [] {
      var next := Exec(w, ops[0]).0;
      assert ops[..1][1..] == [] && ops[..1][0] == ops[0];
      assert Run(next, []) == next;
      assert Run(w, ops[..1]) == next;
      StepKeepsIdentity(w, ops[0], id);
      StepKeepsStore(w, ops[0]);
      forall k | 0 <= k <= |ops[1..]| ensures id in Run(next, ops[1..][..k]).store {
        assert ops[..k + 1][1..] == ops[1..][..k];
        assert Run(w, ops[..k + 1]) == Run(next, ops[1..][..k]);
      }
      IdentityIsFixed(next, ops[1..], id);
    }
  }

  /** The operation gets as far as removing directories, and fails after unlinking a
      state file. */
  ghost predicate LosesStateOnFailure(w: World, op: Op) {
    && op.Destroy? && op.id in w.store && op.disk.loads && w.store[op.id].state != Running
    && op.removal.RemovalFails? && op.removal.gone * Subtree(w, op.id) * w.store.Keys != {}
  }

  /** A failed operation leaves every state.json alone, except a destroy whose removal
      fails half way. */
  lemma FailureLeavesStore(w: World, op: Op)
    requires !Exec(w, op).1
    ensures Exec(w, op).0.store == w.store <==> !LosesStateOnFailure(w, op)
  {
    hide BootTrace, StopTrace, StaysAlive, Ended, BootSucceeds, LayoutOf, ValidProjectId, WithoutSecret, WithoutArtifact;
    var t := Exec(w, op).0;
    if op.Destroy? && op.id in w.store && op.disk.loads && w.store[op.id].state != Running {
      assert Exec(w, op) == ExecDestroy(w, op.id, w.store[op.id], op.removal);
      assert op.removal.RemovalFails?;
      var lost := op.removal.gone * Subtree(w, op.id);
      assert t.store == w.store - lost;
      if lost * w.store.Keys == {} {
        forall id | id in w.store ensures id !in lost {
          assert id in lost ==> id in lost * w.store.Keys;
        }
      } else {
        var id :| id in lost * w.store.Keys;
        assert id in w.store && id !in t.store;
      }
    }
  }

  /** The operation removes the directory that holds every project's directory. */
  ghost predicate RemovesEverything(w: World, op: Op) {
    op.Destroy? && op.id == "." && op.id in w.store && op.disk.loads && w.store[op.id].state != Running
  }

  ghost predicate SameRecord(w: World, t: World, id: Id) {
    (id in t.store <==> id in w.store) && (id in w.store ==> t.store[id] == w.store[id])
  }

  /** The operation takes the record of another project with it. */
  ghost predicate TakesAlong(w: World, op: Op, other: Id) {
    && RemovesEverything(w, op) && other in w.store
    && (op.removal.RemovalFails? ==> other in op.removal.gone)
  }

  /** No operation on one project touches the record of another: this holds exactly when the
      operation is not a destroy of the project called ".", whose directory contains all the
      others, that gets as far as the other's state file. */
  lemma IsolatedExactly(w: World, op: Op, other: Id)
    requires StoreInv(w) && other != Subject(op)
    ensures SameRecord(w, Exec(w, op).0, other) <==> !TakesAlong(w, op, other)
  {
    hide ExecProvision, ExecRunning, ExecStopped, StoreInv;
    if op.Destroy? {
      DestroyTakesAlong(w, op, other);
    } else {
      WritesOneRecord(w, op);
    }
  }

  lemma DestroyTakesAlong(w: World, op: Op, other: Id)
    requires op.Destroy? && other != op.id
    ensures SameRecord(w, Exec(w, op).0, other) <==> !TakesAlong(w, op, other)
  {
  }

  ghost predicate SameProcesses(w: World, t: World) {
    t.children == w.children && t.owner == w.owner && t.pidFile == w.pidFile && t.next == w.next
  }

  /** The operations that start no process, end none and remove no directory. */
  ghost predicate Quiet(op: Op) {
    !op.ToRunning? && !op.ToStopped? && !op.Destroy? && !op.ChildExits?
  }

  lemma QuietProcesses(w: World, op: Op)
    requires Quiet(op)
    ensures SameProcesses(w, Exec(w, op).0)
  {
    hide LayoutOf, ValidProjectId, WithoutSecret, WithoutArtifact;
  }

  /** No operation on one project touches the children of another, not even a destroy of ".". */
  lemma OtherChildrenStay(w: World, op: Op, other: Id)
    requires other != Subject(op)
    ensures Live(Exec(w, op).0, other) == Live(w, other)
    ensures other in w.owner <==> other in Exec(w, op).0.owner
    ensures other in w.owner ==> Exec(w, op).0.owner[other] == w.owner[other]
  {
    hide ExecProvision, BootTrace, StopTrace, BootSucceeds, StaysAlive, Ended;
    if Quiet(op) {
      QuietProcesses(w, op);
      hide Exec;
    }
  }

  lemma OtherPidFileStays(w: World, op: Op, other: Id)
    requires other != Subject(op)
    ensures other in Exec(w, op).0.pidFile ==> other in w.pidFile && Exec(w, op).0.pidFile[other] == w.pidFile[other]
  {
    hide ExecProvision, BootTrace, StopTrace, BootSucceeds, StaysAlive, Ended;
    if Quiet(op) {
      QuietProcesses(w, op);
      hide Exec;
    }
  }

  /** The two together. */
  lemma ProjectsAreIsolated(w: World, op: Op, other: Id)
    requires StoreInv(w) && other != Subject(op)
    ensures SameRecord(w, Exec(w, op).0, other) && Live(Exec(w, op).0, other) == Live(w, other)
            <==> !TakesAlong(w, op, other)
  {
    hide Exec, TakesAlong, SameRecord;
    IsolatedExactly(w, op, other);
    OtherChildrenStay(w, op, other);
  }

  /** "." passes validation, and destroying it takes another project with it exactly when the
      removal reaches that project's state file. */
  lemma DestroyingDotRemovesOthers(w: World, removal: Removal, disk: Disk, other: Id)
    requires StoreInv(w) && other != "." && other in w.store
    requires "." in w.store && w.store["."].state != Running && disk.loads
    ensures ValidProjectId(".")
    ensures other !in Exec(w, Destroy(".", removal, disk)).0.store <==> removal.Removed? || other in removal.gone
  {
    IsolatedExactly(w, Destroy(".", removal, disk), other);
    assert "."[0] == '.';
    assert !IsWhitespace('.');
  }

  // ---------------------------------------------------------------------
  // State transitions
  // ---------------------------------------------------------------------

  ghost predicate Transition(e: Event) { e.Persisted? }

  /** Wherever the event log shows a record becoming Running from another state, the five
      boot actions come right before it, in order; Stopped is entered only from Running;
      a first record is Provisioned. */
  ghost predicate LogInv(events: seq<Event>) {
    forall k | 0 <= k < |events| && Transition(events[k]) :: GoodTransition(events, k)
  }

  ghost predicate GoodTransition(events: seq<Event>, k: nat)
    requires k < |events| && Transition(events[k])
  {
    var e := events[k];
    && (e.to == Running && e.from != Some(Running) ==>
          k >= 5 && events[k - 5..k] == [Spawned(e.id), Accepted(e.id, BootSource), Accepted(e.id, DrivesRootfs),
                                         Accepted(e.id, MachineConfig), Accepted(e.id, InstanceStart)])
    && (e.to == Stopped && e.from != Some(Stopped) ==> e.from == Some(Running))
    && (e.from == None ==> e.to == Provisioned)
  }

  lemma BootTraceShape(id: Id, env: BootEnv)
    ensures BootSucceeds(env) ==> BootTrace(id, env) == BootSequence(id)
    ensures forall i | 0 <= i < |BootTrace(id, env)| :: !Transition(BootTrace(id, env)[i])
  {
    var calls := BootCalls(env);
    assert calls[1..] == [calls[1], calls[2], calls[3]];
    assert calls[1..][1..] == [calls[2], calls[3]];
    assert calls[1..][1..][1..] == [calls[3]];
    assert calls[1..][1..][1..][1..] == [];
    ApiTraceShape(id, calls);
    if BootSucceeds(env) {
      assert ApiTrace(id, []) == [];
      assert ApiTrace(id, [calls[3]]) == [Accepted(id, InstanceStart)];
      assert ApiTrace(id, [calls[2], calls[3]]) == [Accepted(id, MachineConfig), Accepted(id, InstanceStart)];
      assert ApiTrace(id, calls[1..]) == [Accepted(id, DrivesRootfs)] + ApiTrace(id, [calls[2], calls[3]]);
    }
  }

  lemma {:induction false} ApiTraceShape(id: Id, calls: seq<(Endpoint, bool)>)
    ensures forall i | 0 <= i < |ApiTrace(id, calls)| :: !Transition(ApiTrace(id, calls)[i])
  {
    if calls != [] {
      ApiTraceShape(id, calls[1..]);
    }
  }

  lemma QuietExtension(events: seq<Event>, more: seq<Event>)
    requires LogInv(events) && forall i | 0 <= i < |more| :: !Transition(more[i])
    ensures LogInv(events + more)
  {
    var all := events + more;
    forall k | 0 <= k < |all| && Transition(all[k]) ensures GoodTransition(all, k) {
      assert k < |events| && all[k] == events[k];
      assert k >= 5 ==> all[k - 5..k] == events[k - 5..k];
    }
  }

  lemma PersistExtension(events: seq<Event>, e: Event)
    requires LogInv(events) && Transition(e)
    requires GoodTransition(events + [e], |events|)
    ensures LogInv(events + [e])
  {
    var all := events + [e];
    forall k | 0 <= k < |all| && Transition(all[k]) ensures GoodTransition(all, k) {
      if k < |events| {
        assert all[k] == events[k];
        assert k >= 5 ==> all[k - 5..k] == events[k - 5..k];
      }
    }
  }

  lemma BootKeepsLog(w: World, id: Id, r: Record, env: BootEnv, disk: Disk)
    requires LogInv(w.events) && id in w.store && r == w.store[id] && r.projectId == id
    ensures LogInv(ExecRunning(w, id, r, env, disk).0.events)
  {
    BootTraceShape(id, env);
    QuietExtension(w.events, BootTrace(id, env));
    if r.state != Running && BootSucceeds(env) && disk.persists {
      var before := w.events + BootTrace(id, env);
      var e := Persisted(id, Some(r.state), Running);
      assert (before + [e])[|before| - 5..|before|] == BootTrace(id, env);
      PersistExtension(before, e);
    }
  }

  lemma StopKeepsLog(w: World, id: Id, r: Record, stop: StopEnv, disk: Disk)
    requires LogInv(w.events) && id in w.store && r == w.store[id] && r.projectId == id
    ensures LogInv(ExecStopped(w, id, r, stop, disk).0.events)
  {
    hide LogInv, GoodTransition;
    QuietExtension(w.events, StopTrace(w, id, stop));
    if r.state == Running {
      StoppingIsGood(w.events + StopTrace(w, id, stop), id);
    }
  }

  lemma StoppingIsGood(events: seq<Event>, id: Id)
    requires LogInv(events)
    ensures LogInv(events + [Persisted(id, Some(Running), Stopped)])
  {
    PersistExtension(events, Persisted(id, Some(Running), Stopped));
  }

  /** The other operations write at most one event: a record that keeps its state, or is made or
      reset to Provisioned. */
  lemma OtherEvents(w: World, op: Op)
    requires StoreInv(w) && !op.ToRunning? && !op.ToStopped?
    ensures var events := Exec(w, op).0.events;
            events == w.events || exists e ::
              events == w.events + [e] && Transition(e) && (Some(e.to) == e.from || e.to == Provisioned)
  {
    hide LayoutOf, ValidProjectId, WithoutSecret, WithoutArtifact;
    if !op.Destroy? && Exec(w, op).0.events != w.events {
      var e := Exec(w, op).0.events[|w.events|];
      assert Exec(w, op).0.events == w.events + [e];
    }
  }

  lemma OtherKeepsLog(w: World, op: Op)
    requires LogInv(w.events) && StoreInv(w) && !op.ToRunning? && !op.ToStopped?
    ensures LogInv(Exec(w, op).0.events)
  {
    OtherEvents(w, op);
    hide Exec, StoreInv, LogInv;
    var events := Exec(w, op).0.events;
    if events != w.events {
      var e :| events == w.events + [e] && Transition(e) && (Some(e.to) == e.from || e.to == Provisioned);
      PersistExtension(w.events, e);
    }
  }

  lemma StepKeepsLog(w: World, op: Op)
    requires LogInv(w.events) && StoreInv(w)
    ensures LogInv(Exec(w, op).0.events)
  {
    hide ExecProvision, ExecRunning, ExecStopped, LogInv;
    if op.ToRunning? {
      if op.id in w.store && op.disk.loads {
        BootKeepsLog(w, op.id, w.store[op.id], op.boot, op.disk);
      }
    } else if op.ToStopped? {
      if op.id in w.store && op.disk.loads {
        StopKeepsLog(w, op.id, w.store[op.id], op.stop, op.disk);
      }
    } else {
      OtherKeepsLog(w, op);
    }
  }

  /** Over every run, with any outcomes of spawn, socket, API and disk. */
  lemma {:induction false} RunKeepsLog(w: World, ops: seq<Op>)
    requires LogInv(w.events) && StoreInv(w)
    ensures LogInv(Run(w, ops).events)
    decreases |ops|
  {
    if ops != [] {
      StepKeepsLog(w, ops[0]);
      StepKeepsStore(w, ops[0]);
      RunKeepsLog(Exec(w, ops[0]).0, ops[1..]);
    }
  }

  /** From the first operation on. */
  lemma ReachableLog(ops: seq<Op>)
    ensures LogInv(Run(START, ops).events)
  {
    RunKeepsLog(START, ops);
  }

  /** The recorded state changes only as the log says: a record is Running after a step
      and was not before only through a boot in which every action succeeded. */
  lemma RunningOnlyByBoot(w: World, op: Op, id: Id)
    requires StoreInv(w)
    requires id in Exec(w, op).0.store
    ensures var after := Exec(w, op).0.store[id].state;
            && (id !in w.store ==> after == Provisioned)
            && (id in w.store && after == Running && w.store[id].state != Running ==>
                  op.ToRunning? && op.id == id && BootSucceeds(op.boot) && Exec(w, op).1)
            && (id in w.store && after == Stopped && w.store[id].state != Stopped ==>
                  op.ToStopped? && op.id == id && w.store[id].state == Running)
  {
    hide ExecProvision, ExecRunning, ExecStopped, StoreInv;
    if !op.Destroy? {
      WritesOneRecord(w, op);
      if id == Subject(op) {
        OwnStateMoves(w, op);
      }
    }
  }

  lemma OwnStateMoves(w: World, op: Op)
    requires StoreInv(w) && !op.Destroy? && Subject(op) in Exec(w, op).0.store
    ensures var id := Subject(op);
            var after := Exec(w, op).0.store[id].state;
            && (id !in w.store ==> after == Provisioned)
            && (id in w.store && after == Running && w.store[id].state != Running ==>
                  op.ToRunning? && BootSucceeds(op.boot) && Exec(w, op).1)
            && (id in w.store && after == Stopped && w.store[id].state != Stopped ==>
                  op.ToStopped? && w.store[id].state == Running)
  {
    hide BootTrace, StopTrace, StaysAlive, Ended, BootSucceeds, LayoutOf, ValidProjectId, WithoutSecret, WithoutArtifact;
  }

  // ---------------------------------------------------------------------
  // Live children
  // ---------------------------------------------------------------------

  /** Children are numbered in the order they are spawned. */
  ghost predicate Numbered(w: World) {
    && (forall id, c | c in Live(w, id) :: c < w.next)
    && (forall id | id in w.owner :: w.owner[id] < w.next)
    && (forall id | id in w.pidFile :: w.pidFile[id] < w.next)
  }

  lemma LiveMoves(w: World, op: Op, id: Id)
    ensures Live(Exec(w, op).0, id) <= Live(w, id) + if Exec(w, op).0.next > w.next then {w.next} else {}
    ensures w.next <= Exec(w, op).0.next <= w.next + 1
  {
    hide BootTrace, StopTrace, BootSucceeds, StaysAlive, LayoutOf, ValidProjectId, WithoutSecret, WithoutArtifact, Ended;
    if Quiet(op) {
      QuietProcesses(w, op);
      hide Exec;
    }
  }

  lemma OwnerMoves(w: World, op: Op, id: Id)
    requires id in Exec(w, op).0.owner
    ensures || (Exec(w, op).0.owner[id] == w.next && Exec(w, op).0.next > w.next)
            || (id in w.owner && Exec(w, op).0.owner[id] == w.owner[id])
  {
    hide BootTrace, StopTrace, BootSucceeds, StaysAlive, LayoutOf, ValidProjectId, WithoutSecret, WithoutArtifact, Ended;
    if Quiet(op) {
      QuietProcesses(w, op);
      hide Exec;
    }
  }

  lemma PidFileMoves(w: World, op: Op, id: Id)
    requires id in Exec(w, op).0.pidFile
    ensures || (Exec(w, op).0.pidFile[id] == w.next && Exec(w, op).0.next > w.next)
            || (id in w.pidFile && Exec(w, op).0.pidFile[id] == w.pidFile[id])
  {
    hide BootTrace, StopTrace, StaysAlive, LayoutOf, ValidProjectId, WithoutSecret, WithoutArtifact, Ended;
    if Quiet(op) {
      QuietProcesses(w, op);
      hide Exec;
    }
  }

  lemma StepKeepsNumbers(w: World, op: Op)
    requires Numbered(w)
    ensures Numbered(Exec(w, op).0)
  {
    hide Exec;
    var t := Exec(w, op).0;
    LiveMoves(w, op, "");
    forall id, c | c in Live(t, id) ensures c < t.next {
      LiveMoves(w, op, id);
    }
    forall id | id in t.owner ensures t.owner[id] < t.next {
      OwnerMoves(w, op, id);
    }
    forall id | id in t.pidFile ensures t.pidFile[id] < t.next {
      PidFileMoves(w, op, id);
    }
  }

  lemma {:induction false} RunKeepsNumbers(w: World, ops: seq<Op>)
    requires Numbered(w)
    ensures Numbered(Run(w, ops))
    decreases |ops|
  {
    if ops != [] {
      StepKeepsNumbers(w, ops[0]);
      RunKeepsNumbers(Exec(w, ops[0]).0, ops[1..]);
    }
  }

  /** The operation gets as far as booting a child. */
  ghost predicate Boots(w: World, op: Op) {
    op.ToRunning? && op.id in w.store && op.disk.loads && w.store[op.id].state != Running && Spawns(op.boot)
  }

  /** The operation gets as far as stopping. */
  ghost predicate Stops(w: World, op: Op) {
    op.ToStopped? && op.id in w.store && op.disk.loads && w.store[op.id].state == Running
  }

  /** A boot that fails leaves a live child exactly when it spawned one and then the poll of the
      child failed, an API call was rejected, or the wait timed out and the kill had no effect. */
  lemma FailedBootLeavesChild(w: World, op: Op)
    requires Numbered(w) && op.ToRunning? && op.id in w.store && op.disk.loads && w.store[op.id].state != Running
    requires !BootSucceeds(op.boot)
    ensures var wait := WaitOutcome(op.boot.polls, op.boot.extra, op.boot.timeoutMs, 0, 0);
            w.next in Live(Exec(w, op).0, op.id)
            <==> Spawns(op.boot) && (wait == PollError || (wait == Ready && !ApiAccepts(op.boot))
                                     || (wait == TimedOut && !op.boot.killWorks))
    ensures !Exec(w, op).1 && Exec(w, op).0.store == w.store
  {
    hide BootTrace, WaitOutcome;
  }

  /** Which children a step brings to life: the one it spawned, when it lived through the boot. */
  lemma BornExactly(w: World, op: Op, id: Id, c: nat)
    requires Numbered(w) && c !in Live(w, id)
    ensures c in Live(Exec(w, op).0, id) <==> Boots(w, op) && id == op.id && c == w.next && StaysAlive(op.boot)
  {
    hide BootTrace, StopTrace, LayoutOf, ValidProjectId, WithoutSecret, WithoutArtifact, Ended, WaitOutcome;
    if Quiet(op) {
      QuietProcesses(w, op);
      hide Exec;
    }
    if id != Subject(op) {
      OtherChildrenStay(w, op, id);
    }
  }

  /** Which live children a step ends: those a stop ends, and one that goes by itself. */
  lemma EndedExactly(w: World, op: Op, id: Id, c: nat)
    requires c in Live(w, id)
    ensures c !in Live(Exec(w, op).0, id) <==>
            || (Stops(w, op) && id == op.id && c in Ended(w, id, op.stop))
            || op == ChildExits(id, c)
  {
    hide BootTrace, StopTrace, BootSucceeds, LayoutOf, ValidProjectId, WithoutSecret, WithoutArtifact, Ended;
    if Quiet(op) {
      QuietProcesses(w, op);
      hide Exec;
    }
    if id != Subject(op) {
      OtherChildrenStay(w, op, id);
    }
  }

  /** Step k of the run brings the child to life. */
  ghost predicate BornAt(w: World, ops: seq<Op>, k: nat, id: Id, c: nat)
    requires k < |ops|
  {
    var before := Run(w, ops[..k]);
    Boots(before, ops[k]) && id == ops[k].id && c == before.next && StaysAlive(ops[k].boot)
  }

  /** Step k of the run ends the child, by a stop that reaches it, or the child ends by itself. */
  ghost predicate EndsAt(w: World, ops: seq<Op>, k: nat, id: Id, c: nat)
    requires k < |ops|
  {
    var before := Run(w, ops[..k]);
    (Stops(before, ops[k]) && id == ops[k].id && c in Ended(before, id, ops[k].stop)) || ops[k] == ChildExits(id, c)
  }

  lemma {:induction false} RunLast(w: World, ops: seq<Op>)
    requires ops != []
    ensures Run(w, ops) == Exec(Run(w, ops[..|ops| - 1]), ops[|ops| - 1]).0
    decreases |ops|
  {
    hide Exec;
    if |ops| > 1 {
      RunLast(Exec(w, ops[0]).0, ops[1..]);
      assert ops[1..][..|ops| - 2] == ops[..|ops| - 1][1..];
    }
  }

  ghost predicate NotEndedFrom(w: World, ops: seq<Op>, from: nat, id: Id, c: nat) {
    forall j | from <= j < |ops| :: !EndsAt(w, ops, j, id, c)
  }

  ghost predicate BornAndNotEnded(w: World, ops: seq<Op>, id: Id, c: nat) {
    exists k | 0 <= k < |ops| :: BornAt(w, ops, k, id, c) && NotEndedFrom(w, ops, k + 1, id, c)
  }

  lemma SameStep(w: World, ops: seq<Op>, k: nat, id: Id, c: nat)
    requires k < |ops| - 1
    ensures BornAt(w, ops, k, id, c) <==> BornAt(w, ops[..|ops| - 1], k, id, c)
    ensures EndsAt(w, ops, k, id, c) <==> EndsAt(w, ops[..|ops| - 1], k, id, c)
  {
    hide Run, Boots, Stops;
    assert ops[..|ops| - 1][..k] == ops[..k];
  }

  lemma NotEndedLast(w: World, ops: seq<Op>, from: nat, id: Id, c: nat)
    requires from < |ops|
    ensures NotEndedFrom(w, ops, from, id, c) <==>
            NotEndedFrom(w, ops[..|ops| - 1], from, id, c) && !EndsAt(w, ops, |ops| - 1, id, c)
  {
    hide BornAt, EndsAt;
    var init := ops[..|ops| - 1];
    forall j | from <= j < |init| ensures EndsAt(w, ops, j, id, c) <==> EndsAt(w, init, j, id, c) {
      SameStep(w, ops, j, id, c);
    }
    if NotEndedFrom(w, init, from, id, c) && !EndsAt(w, ops, |ops| - 1, id, c) {
      forall j | from <= j < |ops| ensures !EndsAt(w, ops, j, id, c) {
        assert j == |ops| - 1 || !EndsAt(w, init, j, id, c);
      }
    }
    if NotEndedFrom(w, ops, from, id, c) {
      forall j | from <= j < |init| ensures !EndsAt(w, init, j, id, c) {
        assert !EndsAt(w, ops, j, id, c);
      }
    }
  }

  lemma BornLast(w: World, ops: seq<Op>, id: Id, c: nat)
    requires ops != []
    ensures var n := |ops| - 1;
            BornAndNotEnded(w, ops, id, c) <==>
            (BornAndNotEnded(w, ops[..n], id, c) && !EndsAt(w, ops, n, id, c)) || BornAt(w, ops, n, id, c)
  {
    hide BornAt, EndsAt;
    var n := |ops| - 1;
    var init := ops[..n];
    if BornAt(w, ops, n, id, c) {
      assert NotEndedFrom(w, ops, n + 1, id, c);
    }
    hide NotEndedFrom;
    if BornAndNotEnded(w, init, id, c) && !EndsAt(w, ops, n, id, c) {
      var k :| 0 <= k < n && BornAt(w, init, k, id, c) && NotEndedFrom(w, init, k + 1, id, c);
      SameStep(w, ops, k, id, c);
      NotEndedLast(w, ops, k + 1, id, c);
    }
    if BornAndNotEnded(w, ops, id, c) && !BornAt(w, ops, n, id, c) {
      var k :| 0 <= k < |ops| && BornAt(w, ops, k, id, c) && NotEndedFrom(w, ops, k + 1, id, c);
      SameStep(w, ops, k, id, c);
      NotEndedLast(w, ops, k + 1, id, c);
    }
  }

  /** Exactly which children are alive after a run: those alive at first or brought to life at some
      step that no later step ends. */
  lemma {:induction false} LiveAfterRun(w: World, ops: seq<Op>, id: Id, c: nat)
    requires Numbered(w)
    ensures c in Live(Run(w, ops), id) <==>
            (c in Live(w, id) && NotEndedFrom(w, ops, 0, id, c)) || BornAndNotEnded(w, ops, id, c)
    decreases |ops|
  {
    if ops != [] {
      var n := |ops| - 1;
      var before := Run(w, ops[..n]);
      RunLast(w, ops);
      RunKeepsNumbers(w, ops[..n]);
      LiveAfterRun(w, ops[..n], id, c);
      BornLast(w, ops, id, c);
      NotEndedLast(w, ops, 0, id, c);
      hide Run, Exec, NotEndedFrom, BornAndNotEnded, Boots, Stops, Numbered, Ended;
      if c in Live(before, id) {
        EndedExactly(before, ops[n], id, c);
        assert c in Live(Run(w, ops), id) <==> !EndsAt(w, ops, n, id, c);
        NumbersGo(before, id, c);
      } else {
        BornExactly(before, ops[n], id, c);
      }
    }
  }

  lemma NumbersGo(w: World, id: Id, c: nat)
    requires Numbered(w) && c in Live(w, id)
    ensures c < w.next
  {
  }

  // ---------------------------------------------------------------------
  // A child left behind
  // ---------------------------------------------------------------------

  /** A live child the supervisor has lost sight of: the PID file names another one or none,
      and if it was given the socket last, the record does not say Running. */
  ghost predicate OutOfSight(w: World, id: Id, c: nat) {
    && c in Live(w, id) && c < w.next
    && (id in w.pidFile ==> w.pidFile[id] != c)
    && (id in w.owner && w.owner[id] == c ==> id in w.store ==> w.store[id].state != Running)
  }

  lemma OutOfSightInBoot(w: World, op: Op, c: nat)
    requires StoreInv(w) && op.ToRunning? && OutOfSight(w, op.id, c)
    ensures OutOfSight(Exec(w, op).0, op.id, c)
  {
    hide BootTrace, WaitOutcome, ApiAccepts, LayoutOf, ValidProjectId;
  }

  lemma OutOfSightInStop(w: World, op: Op, c: nat)
    requires StoreInv(w) && op.ToStopped? && OutOfSight(w, op.id, c)
    ensures OutOfSight(Exec(w, op).0, op.id, c)
  {
    hide StopTrace, StillThere, LayoutOf, ValidProjectId;
  }

  lemma OutOfSightOtherwise(w: World, op: Op, c: nat)
    requires StoreInv(w) && OutOfSight(w, Subject(op), c) && op != ChildExits(Subject(op), c)
    requires !op.ToRunning? && !op.ToStopped?
    ensures OutOfSight(Exec(w, op).0, Subject(op), c)
  {
    hide LayoutOf, ValidProjectId, WithoutSecret, WithoutArtifact;
  }

  lemma OutOfSightStays(w: World, op: Op, id: Id, c: nat)
    requires StoreInv(w) && OutOfSight(w, id, c) && op != ChildExits(id, c)
    ensures OutOfSight(Exec(w, op).0, id, c)
  {
    hide Exec, OutOfSight, StoreInv;
    if id != Subject(op) {
      OutOfSightElsewhere(w, op, id, c);
    } else if op.ToRunning? {
      OutOfSightInBoot(w, op, c);
    } else if op.ToStopped? {
      OutOfSightInStop(w, op, c);
    } else {
      OutOfSightOtherwise(w, op, c);
    }
  }

  lemma OutOfSightElsewhere(w: World, op: Op, id: Id, c: nat)
    requires StoreInv(w) && OutOfSight(w, id, c) && id != Subject(op)
    ensures OutOfSight(Exec(w, op).0, id, c)
  {
    hide Exec, StoreInv, TakesAlong;
    OtherChildrenStay(w, op, id);
    OtherPidFileStays(w, op, id);
    LiveMoves(w, op, id);
    if id in Exec(w, op).0.store {
      OtherRecordOrGone(w, op, id);
    }
  }

  lemma OtherRecordOrGone(w: World, op: Op, id: Id)
    requires StoreInv(w) && id != Subject(op) && id in Exec(w, op).0.store
    ensures id in w.store && Exec(w, op).0.store[id] == w.store[id]
  {
    hide ExecProvision, ExecRunning, ExecStopped, StoreInv;
    if !op.Destroy? {
      WritesOneRecord(w, op);
    }
  }

  /** Over every run, a child left by a failed boot is never ended by the supervisor, whatever is
      booted, stopped or destroyed afterwards. */
  lemma {:induction false} LeftChildStays(w: World, ops: seq<Op>, id: Id, c: nat)
    requires StoreInv(w) && OutOfSight(w, id, c) && ChildExits(id, c) !in ops
    ensures c in Live(Run(w, ops), id)
    decreases |ops|
  {
    if ops != [] {
      assert ops[0] in ops && forall op | op in ops[1..] :: op in ops;
      StepKeepsStore(w, ops[0]);
      OutOfSightStays(w, ops[0], id, c);
      LeftChildStays(Exec(w, ops[0]).0, ops[1..], id, c);
    }
  }

  /** A failed boot that leaves a child leaves it out of sight. */
  lemma LeftOutOfSight(w: World, op: Op)
    requires Numbered(w) && op.ToRunning? && op.id in w.store && op.disk.loads && w.store[op.id].state != Running
    requires !BootSucceeds(op.boot) && Spawns(op.boot) && StaysAlive(op.boot)
    ensures OutOfSight(Exec(w, op).0, op.id, w.next)
  {
    hide BootTrace, StaysAlive, BootSucceeds;
  }

  // ---------------------------------------------------------------------
  // At most one instance
  // ---------------------------------------------------------------------

  ghost predicate Alive(w: World, id: Id) { Live(w, id) != {} }

  /** The project has no live child, or one: the child that was given the socket last, with
      the record saying Running. */
  ghost predicate Attended(w: World, id: Id) {
    Alive(w, id) ==>
      id in w.owner && Live(w, id) == {w.owner[id]} && id in w.store && w.store[id].state == Running
  }

  ghost predicate OneInstance(w: World) {
    forall id :: Attended(w, id)
  }

  /** The stop reaches the child that has the socket: it goes with its socket, or the PID file
      can be read and names it, and the forced kill takes effect. */
  ghost predicate StopReaches(w: World, id: Id, env: StopEnv)
    requires id in w.owner
  {
    if Lingers(env) then env.pidReadable && id in w.pidFile && w.pidFile[id] == w.owner[id] && env.killWorks
    else env.goneWithSocket
  }

  /** The step that loses a live child: a boot that fails and leaves its child, or succeeds and
      is not recorded; a stop that does not reach the child and is recorded; a reset to
      Provisioned of a project that has one; a destroy of "." that takes the record of one. */
  ghost predicate Orphans(w: World, op: Op) {
    match op
    case ToRunning(id, env, disk) =>
      Boots(w, op) && if BootSucceeds(env) then !disk.persists else StaysAlive(env)
    case ToStopped(id, env, disk) =>
      Stops(w, op) && disk.persists && Alive(w, id) && id in w.owner && !StopReaches(w, id, env)
    case ToProvisioned(id, disk) =>
      id in w.store && disk.loads && disk.persists && Alive(w, id)
    case Destroy(id, removal, disk) =>
      RemovesEverything(w, op) &&
      exists other :: Alive(w, other) && (removal.RemovalFails? ==> other in removal.gone)
    case _ => false
  }

  lemma OthersAttended(w: World, op: Op)
    requires StoreInv(w) && OneInstance(w) && !op.Destroy?
    ensures forall id | id != Subject(op) :: Attended(Exec(w, op).0, id)
  {
    hide Exec, StoreInv;
    forall id | id != Subject(op) ensures Attended(Exec(w, op).0, id) {
      assert Attended(w, id);
      OtherChildrenStay(w, op, id);
      NotTaken(w, op, id);
      IsolatedExactly(w, op, id);
    }
  }

  lemma NotTaken(w: World, op: Op, id: Id)
    requires !op.Destroy?
    ensures !TakesAlong(w, op, id)
  {
  }

  lemma BootOneInstance(w: World, op: Op)
    requires StoreInv(w) && OneInstance(w) && op.ToRunning?
    ensures Attended(Exec(w, op).0, op.id) <==> !Orphans(w, op)
  {
    hide BootTrace, WaitOutcome, LayoutOf, ValidProjectId;
    assert Attended(w, op.id);
  }

  lemma StopOneInstance(w: World, op: Op)
    requires StoreInv(w) && OneInstance(w) && op.ToStopped?
    ensures Attended(Exec(w, op).0, op.id) <==> !Orphans(w, op)
  {
    hide StopTrace, LayoutOf, ValidProjectId, Lingers;
    assert Attended(w, op.id);
  }

  lemma ResetOneInstance(w: World, op: Op)
    requires StoreInv(w) && OneInstance(w) && op.ToProvisioned?
    ensures Attended(Exec(w, op).0, op.id) <==> !Orphans(w, op)
  {
    hide LayoutOf, ValidProjectId;
    assert Attended(w, op.id);
  }

  lemma QuietOneInstance(w: World, op: Op)
    requires StoreInv(w) && OneInstance(w)
    requires !op.ToRunning? && !op.ToStopped? && !op.ToProvisioned? && !op.Destroy?
    ensures Attended(Exec(w, op).0, Subject(op))
  {
    hide LayoutOf, ValidProjectId, WithoutSecret, WithoutArtifact;
    assert Attended(w, Subject(op));
  }

  lemma DestroyOneInstance(w: World, op: Op)
    requires StoreInv(w) && OneInstance(w) && op.Destroy?
    ensures OneInstance(Exec(w, op).0) <==> !Orphans(w, op)
  {
    hide ExecProvision, ExecRunning, ExecStopped, StoreInv, BootTrace, StopTrace;
    var t := Exec(w, op).0;
    assert forall id :: Live(t, id) == Live(w, id) && Attended(w, id);
    if Orphans(w, op) {
      var other :| Alive(w, other) && (op.removal.RemovalFails? ==> other in op.removal.gone);
      assert !Attended(t, other);
    } else {
      forall id ensures Attended(t, id) {
        assert Alive(t, id) ==> Alive(w, id) && id in t.store && t.store[id] == w.store[id];
      }
    }
  }

  /** A step keeps the one-instance property exactly when it loses no child. */
  lemma OneInstanceExactly(w: World, op: Op)
    requires StoreInv(w) && OneInstance(w)
    ensures OneInstance(Exec(w, op).0) <==> !Orphans(w, op)
  {
    hide Exec, Orphans, Attended, StoreInv;
    if op.Destroy? {
      DestroyOneInstance(w, op);
    } else {
      OthersAttended(w, op);
      OwnAttended(w, op);
      assert OneInstance(Exec(w, op).0) ==> Attended(Exec(w, op).0, Subject(op));
    }
  }

  lemma OwnAttended(w: World, op: Op)
    requires StoreInv(w) && OneInstance(w) && !op.Destroy?
    ensures Attended(Exec(w, op).0, Subject(op)) <==> !Orphans(w, op)
  {
    hide Exec, Attended, StoreInv;
    match op
    case ToRunning(_, _, _) => BootOneInstance(w, op);
    case ToStopped(_, _, _) => StopOneInstance(w, op);
    case ToProvisioned(_, _) => ResetOneInstance(w, op);
    case _ => QuietOneInstance(w, op);
  }

  ghost predicate NeverOrphans(w: World, ops: seq<Op>)
    decreases |ops|
  {
    ops == [] || (!Orphans(w, ops[0]) && NeverOrphans(Exec(w, ops[0]).0, ops[1..]))
  }

  /** The property holds at every moment of the run. */
  ghost predicate AlwaysOneInstance(w: World, ops: seq<Op>)
    decreases |ops|
  {
    OneInstance(w) && (ops == [] || AlwaysOneInstance(Exec(w, ops[0]).0, ops[1..]))
  }

  lemma {:induction false} RunKeepsOneInstance(w: World, ops: seq<Op>)
    requires StoreInv(w) && OneInstance(w)
    ensures AlwaysOneInstance(w, ops) <==> NeverOrphans(w, ops)
    ensures NeverOrphans(w, ops) ==> OneInstance(Run(w, ops))
    decreases |ops|
  {
    hide Exec, Orphans, Attended, StoreInv;
    if ops != [] {
      OneInstanceExactly(w, ops[0]);
      StepKeepsStore(w, ops[0]);
      if OneInstance(Exec(w, ops[0]).0) {
        RunKeepsOneInstance(Exec(w, ops[0]).0, ops[1..]);
      }
    }
  }

  /** From the first operation on: at every moment of a run each project has at most one live
      child, and only while its record says Running, exactly when no step of the run loses one. */
  lemma ReachableOneInstance(ops: seq<Op>)
    ensures AlwaysOneInstance(START, ops) <==> NeverOrphans(START, ops)
    ensures NeverOrphans(START, ops) ==> forall id :: |Live(Run(START, ops), id)| <= 1
  {
    RunKeepsOneInstance(START, ops);
    var t := Run(START, ops);
    if NeverOrphans(START, ops) {
      forall id ensures |Live(t, id)| <= 1 {
        assert Attended(t, id);
      }
    }
  }

  /** A boot of a project that already has a live child leaves two. */
  lemma BootDoubles(w: World, op: Op)
    requires Numbered(w) && Boots(w, op) && BootSucceeds(op.boot) && |Live(w, op.id)| == 1
    ensures |Live(Exec(w, op).0, op.id)| == 2
  {
    hide BootTrace, WaitOutcome;
    assert w.next !in Live(w, op.id);
  }

  /** A reset to Provisioned of a running project lets a second instance be booted. */
  lemma ResetThenBootDoubles(w: World, id: Id, env: BootEnv, disk: Disk)
    requires StoreInv(w) && Numbered(w) && OneInstance(w) && Alive(w, id)
    requires disk.loads && disk.persists && BootSucceeds(env)
    ensures |Live(Run(w, [ToProvisioned(id, disk), ToRunning(id, env, disk)]), id)| == 2
  {
    hide BootTrace, WaitOutcome, ApiAccepts;
    var reset, boot := ToProvisioned(id, disk), ToRunning(id, env, disk);
    assert Attended(w, id);
    TwoSteps(w, reset, boot);
    var mid := Exec(w, reset).0;
    assert Live(mid, id) == {w.owner[id]};
    assert |Live(mid, id)| == 1;
    StepKeepsNumbers(w, reset);
    BootDoubles(mid, boot);
  }

  lemma TwoSteps(w: World, first: Op, second: Op)
    ensures Run(w, [first, second]) == Exec(Exec(w, first).0, second).0
  {
    hide Exec;
    assert [first, second][1..] == [second] && [second][1..] == [];
    assert Run(Exec(w, first).0, [second]) == Run(Exec(Exec(w, first).0, second).0, []);
  }

  /** A stop that the guest ignores, with no PID file to go by: it reports success, records
      Stopped, and ends nothing. */
  lemma UnkillableStop(w: World, id: Id, stop: StopEnv, disk: Disk)
    requires StoreInv(w) && OneInstance(w) && Alive(w, id)
    requires id !in w.pidFile && Lingers(stop) && disk.loads && disk.persists
    ensures var (t, ok) := Exec(w, ToStopped(id, stop, disk));
            ok && id in t.store && t.store[id].state == Stopped && Live(t, id) == Live(w, id)
  {
    hide StopTrace, Lingers, LayoutOf, ValidProjectId;
    assert Attended(w, id);
  }

  /** So a boot after it leaves two instances, although no reset was involved. */
  lemma UnkillableThenBootDoubles(w: World, id: Id, stop: StopEnv, env: BootEnv, disk: Disk)
    requires StoreInv(w) && Numbered(w) && OneInstance(w) && Alive(w, id)
    requires id !in w.pidFile && Lingers(stop) && disk.loads && disk.persists && BootSucceeds(env)
    ensures |Live(Run(w, [ToStopped(id, stop, disk), ToRunning(id, env, disk)]), id)| == 2
  {
    hide Exec, WaitOutcome, ApiAccepts, Lingers, StoreInv;
    var halt, boot := ToStopped(id, stop, disk), ToRunning(id, env, disk);
    assert Attended(w, id);
    assert |Live(w, id)| == |{w.owner[id]}| == 1;
    TwoSteps(w, halt, boot);
    UnkillableStop(w, id, stop, disk);
    StepKeepsNumbers(w, halt);
    BootDoubles(Exec(w, halt).0, boot);
  }

  /** From a project that is not running, three operations that all report success are enough:
      boot it with the PID file not written, stop it, boot it again. */
  lemma PidWriteFailureDoubles(w: World, id: Id, first: BootEnv, stop: StopEnv, second: BootEnv, disk: Disk)
    requires StoreInv(w) && Numbered(w) && OneInstance(w)
    requires id in w.store && w.store[id].state != Running && disk.loads && disk.persists
    requires BootSucceeds(first) && first.pid == PidLost && Lingers(stop) && BootSucceeds(second)
    ensures var mid := Exec(w, ToRunning(id, first, disk)).0;
            |Live(Run(mid, [ToStopped(id, stop, disk), ToRunning(id, second, disk)]), id)| == 2
  {
    var boot := ToRunning(id, first, disk);
    OneInstanceExactly(w, boot);
    StepKeepsStore(w, boot);
    StepKeepsNumbers(w, boot);
    FirstBoot(w, id, first, disk);
    hide Exec, Run, StoreInv, Numbered, OneInstance;
    UnkillableThenBootDoubles(Exec(w, boot).0, id, stop, second, disk);
  }

  lemma FirstBoot(w: World, id: Id, env: BootEnv, disk: Disk)
    requires StoreInv(w) && id in w.store && w.store[id].state != Running && disk.loads && disk.persists
    requires BootSucceeds(env) && env.pid == PidLost
    ensures var (t, ok) := Exec(w, ToRunning(id, env, disk));
            ok && Alive(t, id) && id !in t.pidFile && !Orphans(w, ToRunning(id, env, disk))
  {
    hide BootTrace, WaitOutcome, ApiAccepts, LayoutOf, ValidProjectId;
    assert w.next in Live(Exec(w, ToRunning(id, env, disk)).0, id);
  }
}
