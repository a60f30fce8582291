/** When each supervisor operation succeeds, and what it leaves behind, in terms of what the
    environment answers. */
module SupervisorOutcomes {
  import opened Wrappers
  import opened Supervisor
  import opened SupervisorInvariants
  import ForkPaths

  // ---------------------------------------------------------------------
  // When operations succeed
  // ---------------------------------------------------------------------

  /** The record the operation is about is there and can be read. */
  predicate OnRecord(w: World, op: Op)
    requires !op.Provision? && !op.ChildExits?
  {
    op.id in w.store && op.disk.loads
  }

  /** Exactly when an operation reports success. A stop of a project that has been stopped writes
      nothing. */
  lemma SucceedsExactly(w: World, op: Op)
    ensures Exec(w, op).1 <==> match op
      case Provision(spec, layoutOk, disk) =>
        ValidProjectId(spec.projectId) && layoutOk && (spec.projectId in w.store ==> disk.loads) && disk.persists
      case ToRunning(id, env, disk) =>
        && OnRecord(w, op) && w.store[id].state != Running
        && env.binaryExists && env.kvmAccessible && env.staleSocketRemoved && env.logOpens && env.spawns
        && SocketInTime(env)
        && env.bootSource && env.rootfs && env.machineConfig && env.instanceStart
        && disk.persists
      case ToStopped(id, _, disk) =>
        OnRecord(w, op) && (w.store[id].state == Stopped || (w.store[id].state == Running && disk.persists))
      case ToProvisioned(_, disk) => OnRecord(w, op) && disk.persists
      case AttachPolicy(_, _, disk) => OnRecord(w, op) && disk.persists
      case InjectSecret(_, _, disk) => OnRecord(w, op) && disk.persists
      case CollectArtifact(_, artifact, disk) => OnRecord(w, op) && !IsBlank(artifact.name) && disk.persists
      case LoadEbpf(_, _, loadsProgram, disk) => OnRecord(w, op) && loadsProgram && disk.persists
      case Destroy(id, removal, _) => OnRecord(w, op) && w.store[id].state != Running && removal.Removed?
      case ChildExits(_, _) => true
  {
    hide ValidProjectId, LayoutOf, ExecBoot, ExecStop, IsBlank, SocketInTime, BootSucceeds;
    if op.ToRunning? {
      BootSucceedsExactly(op.boot);
    }
  }

  lemma {:induction false} SleepsAddUp(stepMs: nat, extra: nat -> nat, j: nat, k: nat)
    requires j <= k
    ensures Slept(stepMs, extra, j) <= Slept(stepMs, extra, k)
    decreases k - j
  {
    if j < k {
      SleepsAddUp(stepMs, extra, j, k - 1);
    }
  }

  /** A healthy child is not given up early: when the first look that finds anything finds the
      socket, less than the timeout after the start of the last sleep before it, and the calls are
      accepted, the project is Running with the new child alive, whatever the PID file. */
  lemma HealthyBootRuns(w: World, op: Op, k: nat)
    requires op.ToRunning? && OnRecord(w, op) && w.store[op.id].state != Running && op.disk.persists
    requires w.store[op.id].projectId == op.id
    requires Spawns(op.boot) && ApiAccepts(op.boot)
    requires (forall j | 0 <= j < k :: op.boot.polls(j) == NotYet) && op.boot.polls(k) == SocketThere
    requires k > 0 ==> Slept(100, op.boot.extra, k - 1) < op.boot.timeoutMs
    ensures var (t, ok) := Exec(w, op);
            && ok && op.id in t.store && t.store[op.id].state == Running
            && Live(t, op.id) == Live(w, op.id) + {w.next} && t.owner[op.id] == w.next
  {
    var env := op.boot;
    forall j | 0 <= j < k ensures env.polls(j) == NotYet && Slept(100, env.extra, j) < env.timeoutMs {
      SleepsAddUp(100, env.extra, j, k - 1);
    }
    assert LooksAt(env.polls, env.extra, env.timeoutMs, k);
    WaitExactly(env.polls, env.extra, env.timeoutMs, k);
    hide WaitOutcome, BootTrace, LooksAt, Slept;
    BootEffect(w, op.id, env);
  }

  // ---------------------------------------------------------------------
  // What a boot and a stop leave
  // ---------------------------------------------------------------------

  /** After a start that got as far as spawning, the socket belongs to the new child. The PID file
      names it when the boot succeeded and the file was written; after a boot that failed it is as
      it was. */
  lemma PidFileAfterBoot(w: World, op: Op)
    requires op.ToRunning? && OnRecord(w, op) && w.store[op.id].state != Running && Spawns(op.boot)
    ensures var t := Exec(w, op).0;
            && op.id in t.owner && t.owner[op.id] == w.next && t.next == w.next + 1
            && (BootSucceeds(op.boot) && op.boot.pid.PidWritten? ==> t.pidFile == w.pidFile[op.id := w.next])
            && (!BootSucceeds(op.boot) || op.boot.pid.PidKept? ==> t.pidFile == w.pidFile)
            && (BootSucceeds(op.boot) && op.boot.pid.PidLost? ==> t.pidFile == w.pidFile - {op.id})
  {
    hide BootSucceeds, BootTrace;
    if BootSucceeds(op.boot) {
      BootEffect(w, op.id, op.boot);
      hide ExecBoot;
    } else {
      FailedBootEffect(w, op.id, op.boot);
      hide ExecBoot;
    }
  }

  /** Which children a stop of a running project ends. Look `k` is the one its wait ends with; what
      counts is one more look. The socket is gone: the child that owns it, if it is gone too. The
      socket is still there: the child that the PID file names, if that can be read and the kill
      takes effect. There never was a socket: as if it had gone. */
  lemma StopEndsExactly(w: World, op: Op, k: nat, c: nat)
    requires op.ToStopped? && OnRecord(w, op) && w.store[op.id].state == Running && c in Live(w, op.id)
    requires StopLooksAt(op.stop.socketThere, op.stop.extra, op.stop.timeoutMs, k)
    requires op.stop.socketThere(k) ==> Slept(200, op.stop.extra, k) >= op.stop.timeoutMs
    ensures var (env, t) := (op.stop, Exec(w, op).0);
            && (c !in Live(t, op.id) <==>
                  if env.socketExists && env.socketThere(k + 1)
                  then op.id in w.pidFile && w.pidFile[op.id] == c && env.pidReadable && env.killWorks
                  else op.id in w.owner && w.owner[op.id] == c && env.goneWithSocket)
            && t.pidFile == (if env.socketExists && env.pidRemoved then w.pidFile - {op.id} else w.pidFile)
            && t.owner == w.owner && t.next == w.next
  {
    StillThereExactly(op.stop.socketThere, op.stop.extra, op.stop.timeoutMs, k);
    hide StillThere, StopLooksAt, Slept, StopTrace;
  }

  // ---------------------------------------------------------------------
  // What is written
  // ---------------------------------------------------------------------

  /** Every operation that writes a record stamps it with the time of the write, and a new record
      also with its creation. */
  lemma WritesAreStamped(w: World, op: Op)
    requires StoreInv(w) && Exec(w, op).1 && !op.Destroy? && !op.ChildExits?
    requires op.ToStopped? ==> w.store[op.id].state != Stopped
    ensures var id, t := Subject(op), Exec(w, op).0;
            && id in t.store && t.store[id].updatedAt == op.disk.now
            && (id !in w.store ==> t.store[id].createdAt == op.disk.now)
  {
    hide ValidProjectId, LayoutOf, ExecBoot, ExecStop, BootSucceeds, WithoutSecret, WithoutArtifact;
  }

  /** A project that is running is never destroyed, and one that is not goes with its record. */
  lemma DestroyExactly(w: World, id: Id, removal: Removal, disk: Disk)
    requires id in w.store && disk.loads
    ensures var t := Exec(w, Destroy(id, removal, disk)).0;
            && (w.store[id].state == Running ==> t == w)
            && (w.store[id].state != Running ==> (id !in t.store <==> removal.Removed? || id in removal.gone))
            && t.children == w.children && t.owner == w.owner
  {
  }

  // ---------------------------------------------------------------------
  // Project ids
  // ---------------------------------------------------------------------

  lemma {:induction false} NoSlashNoSplit(s: string)
    ensures ForkPaths.Split(s) == [s] <==> '/' !in s
  {
    if s != "" {
      NoSlashNoSplit(s[1..]);
      assert [s[0]] + s[1..] == s;
      assert '/' in s <==> s[0] == '/' || '/' in s[1..];
    }
  }

  /** The directory of an accepted id is a directory of its own directly below the one for all
      projects, or, for ".", that one itself. */
  lemma AcceptedIdsStayBelow(root: ForkPaths.Components, id: Id)
    requires ValidProjectId(id)
    ensures ForkPaths.Follow(root + ["vms"], ForkPaths.Split(id)) ==
            if id == "." then root + ["vms"] else root + ["vms"] + [id]
  {
    NoSlashNoSplit(id);
    assert id != "" && id != "..";
    var from := root + ["vms"];
    assert [id][..0] == [];
    assert ForkPaths.Follow(from, []) == from;
    assert ForkPaths.Follow(from, [id]) == ForkPaths.Step(from, id);
  }

  /** What is refused: a text of blanks, a slash or backslash anywhere, two dots in a row. */
  lemma RefusedIdsExactly(id: Id)
    ensures !ValidProjectId(id) <==>
            || (forall c | c in id :: IsWhitespace(c))
            || (exists a: string, b: string :: id == a + "/" + b || id == a + "\\" + b || id == a + ".." + b)
  {
    if i :| 0 <= i < |id| && (id[i] == '/' || id[i] == '\\') {
      assert id == id[..i] + [id[i]] + id[i + 1..];
    } else if i :| 0 <= i < |id| - 1 && id[i] == '.' && id[i + 1] == '.' {
      assert id == id[..i] + ".." + id[i + 2..];
    }
    if a: string, b: string :| id == a + "/" + b || id == a + "\\" + b || id == a + ".." + b {
      assert id[|a|] == '/' || id[|a|] == '\\' || (id[|a|] == '.' && id[|a| + 1] == '.');
    }
    assert forall i | 0 <= i < |id| :: id[i] in id;
  }
}
