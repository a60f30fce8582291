/** The host-side VM supervisor: one persisted record per project, a boot that can fail at
    every step, a stop that forces its way through, and destroy. */
module Supervisor {
  import opened Wrappers

  type Id = string

  datatype VmState = Provisioned | Running | Stopped

  datatype NetworkPolicy =
    | NoNetwork
    | PackageMirrorOnly(mirror: Option<string>)
    | Allowlist(hosts: seq<string>)
    | AuditedEgress(allowlist: seq<string>)

  datatype SecretLease = SecretLease(secretName: string, scope: string, expiresAt: string, secretValue: string)
  datatype Artifact = Artifact(name: string, kind: string, path: string, digest: Option<string>)
  datatype EbpfPolicy = EbpfPolicy(name: string, attachPoint: string, objectPath: string,
                                   tcHandle: Option<string>, pinPath: Option<string>, loadedAt: Option<string>)

  datatype Spec = Spec(projectId: Id, kernelRef: Option<string>, seedDataRefs: seq<string>, networkPolicy: NetworkPolicy)

  /** The paths derived from the project id when the record is created. */
  datatype Layout = Layout(vmDir: string, sock: string, kernel: string, rootfs: string, workspace: string,
                           cache: string, logs: string, artifacts: string, statePath: string)

  datatype Record = Record(
    projectId: Id, layout: Layout, state: VmState,
    kernelRef: Option<string>, seedDataRefs: seq<string>, networkPolicy: NetworkPolicy,
    secrets: seq<SecretLease>, artifacts: seq<Artifact>, ebpf: Option<EbpfPolicy>,
    createdAt: string, updatedAt: string)

  function LayoutOf(id: Id): Layout {
    var d := "vms/" + id;
    Layout(d, d + "/firecracker.sock", d + "/kernel", d + "/rootfs.img", d + "/workspace.img",
           d + "/cache", d + "/logs", d + "/artifacts", d + "/state.json")
  }

  // ---------------------------------------------------------------------
  // Project ids
  // ---------------------------------------------------------------------

  predicate IsWhitespace(c: char) {
    || '\t' <= c <= '\r' || c == ' ' || c == '\U{85}' || c == '\U{A0}' || c == '\U{1680}'
    || '\U{2000}' <= c <= '\U{200A}' || c == '\U{2028}' || c == '\U{2029}' || c == '\U{202F}'
    || c == '\U{205F}' || c == '\U{3000}'
  }

  predicate IsBlank(s: string) {
    forall i | 0 <= i < |s| :: IsWhitespace(s[i])
  }

  predicate HasDotDot(s: string) {
    exists i | 0 <= i < |s| - 1 :: s[i] == '.' && s[i + 1] == '.'
  }

  /** What `validate_project_id` accepts. Note that it accepts ".". */
  predicate ValidProjectId(id: Id) {
    !IsBlank(id) && '/' !in id && '\\' !in id && !HasDotDot(id)
  }

  // ---------------------------------------------------------------------
  // The environment's answers
  // ---------------------------------------------------------------------

  datatype Poll = SocketThere | ChildExited | PollFails | NotYet
  datatype Wait = Ready | ExitedEarly | PollError | TimedOut

  const SOCKET_POLL_MS: nat := 100
  const STOP_POLL_MS: nat := 200

  /** What becomes of the PID file when it is written: a failed write may leave the old
      content, or nothing that parses. */
  datatype PidWrite = PidWritten | PidKept | PidLost

  /** What happens while booting. `polls` answers successive looks at the socket and the
      child, `extra` is how much longer than asked each sleep takes, `killWorks` says
      whether the kill after a timeout ends the child. */
  datatype BootEnv = BootEnv(
    binaryExists: bool, kvmAccessible: bool, staleSocketRemoved: bool, logOpens: bool, spawns: bool,
    timeoutMs: nat, polls: nat -> Poll, extra: nat -> nat, killWorks: bool,
    bootSource: bool, rootfs: bool, machineConfig: bool, instanceStart: bool, pid: PidWrite)

  /** What happens while stopping. `goneWithSocket` says whether a child whose socket has gone
      is gone itself, `pidReadable` whether the PID file can be read and parsed, `killWorks`
      whether the forced kill ends the process it names, `pidRemoved` whether the PID file
      goes away at the end. */
  datatype StopEnv = StopEnv(
    socketExists: bool, timeoutMs: nat, socketThere: nat -> bool, extra: nat -> nat,
    goneWithSocket: bool, pidReadable: bool, killWorks: bool, pidRemoved: bool)

  datatype Disk = Disk(loads: bool, persists: bool, now: string)

  /** The outcome of `remove_dir_all`: done, or failed after unlinking some state files and
      some PID files. */
  datatype Removal = Removed | RemovalFails(gone: set<Id>, pidsGone: set<Id>)

  datatype Endpoint = BootSource | DrivesRootfs | MachineConfig | InstanceStart | SendCtrlAltDel

  datatype Event =
    | Spawned(id: Id)
    | ChildKilled(id: Id)
    | ExitSeen(id: Id)
    | Accepted(id: Id, endpoint: Endpoint)
    | Rejected(id: Id, endpoint: Endpoint)
    | Requested(id: Id, endpoint: Endpoint)   // sent, answer ignored
    | ForceKilled(id: Id, child: nat)
    | Persisted(id: Id, from: Option<VmState>, to: VmState)

  /** The persisted records; the child processes of each project that are alive; the child
      that was given the socket last; the child the PID file names; the next child's number;
      and what was done. */
  datatype World = World(
    store: map<Id, Record>, children: map<Id, set<nat>>, owner: map<Id, nat>, pidFile: map<Id, nat>,
    next: nat, events: seq<Event>)

  function Live(w: World, id: Id): set<nat> { if id in w.children then w.children[id] else {} }

  datatype Op =
    | Provision(spec: Spec, layoutOk: bool, disk: Disk)
    | ToRunning(id: Id, boot: BootEnv, disk: Disk)
    | ToStopped(id: Id, stop: StopEnv, disk: Disk)
    | ToProvisioned(id: Id, disk: Disk)
    | AttachPolicy(id: Id, policy: NetworkPolicy, disk: Disk)
    | InjectSecret(id: Id, lease: SecretLease, disk: Disk)
    | CollectArtifact(id: Id, artifact: Artifact, disk: Disk)
    | LoadEbpf(id: Id, ebpf: EbpfPolicy, loadsProgram: bool, disk: Disk)
    | Destroy(id: Id, removal: Removal, disk: Disk)
    | ChildExits(id: Id, child: nat)   // not the supervisor's doing

  function Subject(op: Op): Id {
    if op.Provision? then op.spec.projectId else op.id
  }

  // ---------------------------------------------------------------------
  // Boot and stop
  // ---------------------------------------------------------------------

  /** How long the first `k` sleeps of a polling loop take: each what was asked and a bit more. */
  function Slept(stepMs: nat, extra: nat -> nat, k: nat): nat {
    if k == 0 then 0 else Slept(stepMs, extra, k - 1) + stepMs + extra(k - 1)
  }

  lemma OneMoreSleep(stepMs: nat, extra: nat -> nat, k: nat)
    ensures Slept(stepMs, extra, 0) == 0
    ensures Slept(stepMs, extra, k + 1) == Slept(stepMs, extra, k) + stepMs + extra(k)
  {
  }

  /** The socket poll makes look `k`: all looks before it found nothing, and before each of the
      sleeps between them less than the timeout had passed. */
  ghost predicate LooksAt(polls: nat -> Poll, extra: nat -> nat, timeoutMs: nat, k: nat) {
    forall j | 0 <= j < k :: polls(j) == NotYet && Slept(100, extra, j) < timeoutMs
  }

  /** The exit poll makes look `k`: the socket was there at all looks before it, and before each of
      the sleeps between them less than the timeout had passed. */
  ghost predicate StopLooksAt(there: nat -> bool, extra: nat -> nat, timeoutMs: nat, k: nat) {
    forall j | 0 <= j < k :: there(j) && Slept(200, extra, j) < timeoutMs
  }

  function WaitOutcome(polls: nat -> Poll, extra: nat -> nat, timeoutMs: nat, i: nat, elapsed: nat): Wait
    decreases if elapsed < timeoutMs then timeoutMs - elapsed else 0
  {
    match polls(i)
    case SocketThere => Ready
    case ChildExited => ExitedEarly
    case PollFails => PollError
    case NotYet =>
      if elapsed >= timeoutMs then TimedOut
      else WaitOutcome(polls, extra, timeoutMs, i + 1, elapsed + SOCKET_POLL_MS + extra(i))
  }

  /** Poll for the API socket every 100 ms. The loop sleeps fewer than timeout/100 + 1 times, looks
      again as long as it has slept for less than the timeout, and times out only after that. */
  method WaitForSocket(polls: nat -> Poll, extra: nat -> nat, timeoutMs: nat) returns (r: Wait, sleeps: nat)
    ensures r == WaitOutcome(polls, extra, timeoutMs, 0, 0)
    ensures sleeps * 100 < timeoutMs + 100
    ensures LooksAt(polls, extra, timeoutMs, sleeps)
    ensures r == TimedOut ==> Slept(100, extra, sleeps) >= timeoutMs
    ensures polls(sleeps) == match r
                             case Ready => SocketThere
                             case ExitedEarly => ChildExited
                             case PollError => PollFails
                             case TimedOut => NotYet
  {
    OneMoreSleep(100, extra, 0);
    hide Slept;
    var elapsed := 0;
    sleeps := 0;
    while true
      invariant WaitOutcome(polls, extra, timeoutMs, sleeps, elapsed) == WaitOutcome(polls, extra, timeoutMs, 0, 0)
      invariant sleeps * 100 <= elapsed == Slept(100, extra, sleeps)
      invariant sleeps * 100 < timeoutMs + 100
      invariant LooksAt(polls, extra, timeoutMs, sleeps)
      decreases if elapsed < timeoutMs then timeoutMs - elapsed else 0
    {
      match polls(sleeps) {
        case SocketThere => return Ready, sleeps;
        case ChildExited => return ExitedEarly, sleeps;
        case PollFails => return PollError, sleeps;
        case NotYet =>
      }
      if elapsed >= timeoutMs {
        return TimedOut, sleeps;
      }
      OneMoreSleep(100, extra, sleeps);
      elapsed := elapsed + SOCKET_POLL_MS + extra(sleeps);
      sleeps := sleeps + 1;
    }
  }

  function StillThere(there: nat -> bool, extra: nat -> nat, timeoutMs: nat, i: nat, elapsed: nat): bool
    decreases if elapsed < timeoutMs then timeoutMs - elapsed else 0
  {
    if there(i) && elapsed < timeoutMs
    then StillThere(there, extra, timeoutMs, i + 1, elapsed + STOP_POLL_MS + extra(i))
    else there(i + 1)
  }

  /** Poll every 200 ms until the socket is gone or the timeout has passed, then look once more. */
  method WaitForExit(there: nat -> bool, extra: nat -> nat, timeoutMs: nat) returns (stillThere: bool, sleeps: nat)
    ensures stillThere == StillThere(there, extra, timeoutMs, 0, 0) == there(sleeps + 1)
    ensures sleeps * 200 < timeoutMs + 200
    ensures StopLooksAt(there, extra, timeoutMs, sleeps)
    ensures there(sleeps) ==> Slept(200, extra, sleeps) >= timeoutMs
  {
    OneMoreSleep(200, extra, 0);
    hide Slept;
    var elapsed := 0;
    sleeps := 0;
    while there(sleeps) && elapsed < timeoutMs
      invariant StillThere(there, extra, timeoutMs, sleeps, elapsed) == StillThere(there, extra, timeoutMs, 0, 0)
      invariant sleeps * 200 <= elapsed == Slept(200, extra, sleeps)
      invariant sleeps * 200 < timeoutMs + 200
      invariant StopLooksAt(there, extra, timeoutMs, sleeps)
      decreases if elapsed < timeoutMs then timeoutMs - elapsed else 0
    {
      OneMoreSleep(200, extra, sleeps);
      elapsed := elapsed + STOP_POLL_MS + extra(sleeps);
      sleeps := sleeps + 1;
    }
    stillThere := there(sleeps + 1);
  }

  // ---------------------------------------------------------------------
  // How the two waits end
  // ---------------------------------------------------------------------

  lemma {:induction false} WaitFrom(polls: nat -> Poll, extra: nat -> nat, timeoutMs: nat, i: nat, k: nat)
    requires i <= k && LooksAt(polls, extra, timeoutMs, k)
    ensures WaitOutcome(polls, extra, timeoutMs, i, Slept(100, extra, i))
            == WaitOutcome(polls, extra, timeoutMs, k, Slept(100, extra, k))
    decreases k - i
  {
    if i < k {
      assert polls(i) == NotYet;
      WaitFrom(polls, extra, timeoutMs, i + 1, k);
    }
  }

  /** The wait ends with the first look that finds something, if it is made, and times out at the
      first look that finds nothing once the timeout has passed. */
  lemma WaitExactly(polls: nat -> Poll, extra: nat -> nat, timeoutMs: nat, k: nat)
    requires LooksAt(polls, extra, timeoutMs, k)
    requires polls(k) == NotYet ==> Slept(100, extra, k) >= timeoutMs
    ensures WaitOutcome(polls, extra, timeoutMs, 0, 0) == match polls(k)
                                                          case SocketThere => Ready
                                                          case ChildExited => ExitedEarly
                                                          case PollFails => PollError
                                                          case NotYet => TimedOut
  {
    WaitFrom(polls, extra, timeoutMs, 0, k);
  }

  /** Every wait ends at some look. */
  lemma WaitEnds(polls: nat -> Poll, extra: nat -> nat, timeoutMs: nat, i: nat) returns (k: nat)
    requires LooksAt(polls, extra, timeoutMs, i)
    ensures LooksAt(polls, extra, timeoutMs, k) && (polls(k) == NotYet ==> Slept(100, extra, k) >= timeoutMs)
    decreases if Slept(100, extra, i) < timeoutMs then timeoutMs - Slept(100, extra, i) else 0
  {
    if polls(i) == NotYet && Slept(100, extra, i) < timeoutMs {
      k := WaitEnds(polls, extra, timeoutMs, i + 1);
    } else {
      k := i;
    }
  }

  /** The socket is seen in time: at some look that the wait makes. */
  ghost predicate SocketInTime(env: BootEnv) {
    exists k :: LooksAt(env.polls, env.extra, env.timeoutMs, k) && env.polls(k) == SocketThere
  }

  /** A boot succeeds exactly when everything before the spawn goes well, the socket is seen in
      time and before anything else is, and all four calls are accepted. */
  lemma BootSucceedsExactly(env: BootEnv)
    ensures BootSucceeds(env) <==>
            && env.binaryExists && env.kvmAccessible && env.staleSocketRemoved && env.logOpens && env.spawns
            && SocketInTime(env)
            && env.bootSource && env.rootfs && env.machineConfig && env.instanceStart
  {
    var k := WaitEnds(env.polls, env.extra, env.timeoutMs, 0);
    WaitExactly(env.polls, env.extra, env.timeoutMs, k);
    hide WaitOutcome;
    if SocketInTime(env) {
      var j :| LooksAt(env.polls, env.extra, env.timeoutMs, j) && env.polls(j) == SocketThere;
      WaitExactly(env.polls, env.extra, env.timeoutMs, j);
    }
  }

  /** A child that was spawned is gone after the boot exactly when it was seen to have exited, or
      nothing was seen for as long as the timeout and the kill took effect. */
  lemma GoneAfterBootExactly(env: BootEnv, k: nat)
    requires LooksAt(env.polls, env.extra, env.timeoutMs, k)
    requires env.polls(k) == NotYet ==> Slept(100, env.extra, k) >= env.timeoutMs
    ensures !StaysAlive(env) <==> env.polls(k) == ChildExited || (env.polls(k) == NotYet && env.killWorks)
  {
    WaitExactly(env.polls, env.extra, env.timeoutMs, k);
    hide WaitOutcome;
  }

  lemma {:induction false} StopFrom(there: nat -> bool, extra: nat -> nat, timeoutMs: nat, i: nat, k: nat)
    requires i <= k && StopLooksAt(there, extra, timeoutMs, k)
    ensures StillThere(there, extra, timeoutMs, i, Slept(200, extra, i))
            == StillThere(there, extra, timeoutMs, k, Slept(200, extra, k))
    decreases k - i
  {
    if i < k {
      assert there(i);
      StopFrom(there, extra, timeoutMs, i + 1, k);
    }
  }

  /** The wait of a stop ends with the first look at which the socket is gone or the timeout has
      passed; what counts is one more look. */
  lemma StillThereExactly(there: nat -> bool, extra: nat -> nat, timeoutMs: nat, k: nat)
    requires StopLooksAt(there, extra, timeoutMs, k)
    requires there(k) ==> Slept(200, extra, k) >= timeoutMs
    ensures StillThere(there, extra, timeoutMs, 0, 0) == there(k + 1)
  {
    StopFrom(there, extra, timeoutMs, 0, k);
  }

  predicate Spawns(env: BootEnv) {
    env.binaryExists && env.kvmAccessible && env.staleSocketRemoved && env.logOpens && env.spawns
  }

  predicate ApiAccepts(env: BootEnv) {
    env.bootSource && env.rootfs && env.machineConfig && env.instanceStart
  }

  predicate BootSucceeds(env: BootEnv) {
    && Spawns(env)
    && WaitOutcome(env.polls, env.extra, env.timeoutMs, 0, 0) == Ready
    && ApiAccepts(env)
  }

  /** Whether a spawned child outlives the boot, successful or not: nothing is undone when a
      poll fails or an API call is rejected. */
  predicate StaysAlive(env: BootEnv) {
    match WaitOutcome(env.polls, env.extra, env.timeoutMs, 0, 0)
    case Ready => true
    case PollError => true
    case TimedOut => !env.killWorks
    case ExitedEarly => false
  }

  /** The five actions of a boot that succeeds, in order. */
  function BootSequence(id: Id): seq<Event> {
    [Spawned(id), Accepted(id, BootSource), Accepted(id, DrivesRootfs),
     Accepted(id, MachineConfig), Accepted(id, InstanceStart)]
  }

  /** The API calls made: in order, up to the first one rejected. */
  function ApiTrace(id: Id, calls: seq<(Endpoint, bool)>): seq<Event> {
    if calls == [] then []
    else if calls[0].1 then [Accepted(id, calls[0].0)] + ApiTrace(id, calls[1..])
    else [Rejected(id, calls[0].0)]
  }

  function BootCalls(env: BootEnv): seq<(Endpoint, bool)> {
    [(BootSource, env.bootSource), (DrivesRootfs, env.rootfs),
     (MachineConfig, env.machineConfig), (InstanceStart, env.instanceStart)]
  }

  /** How the wait for the socket ends badly, if it is seen to. */
  function WaitTrace(id: Id, env: BootEnv): seq<Event> {
    match WaitOutcome(env.polls, env.extra, env.timeoutMs, 0, 0)
    case TimedOut => [ChildKilled(id)]
    case ExitedEarly => [ExitSeen(id)]
    case _ => []
  }

  function BootTrace(id: Id, env: BootEnv): seq<Event> {
    if !Spawns(env) then []
    else if WaitOutcome(env.polls, env.extra, env.timeoutMs, 0, 0) != Ready then [Spawned(id)] + WaitTrace(id, env)
    else [Spawned(id)] + ApiTrace(id, BootCalls(env))
  }

  /** The process a forced kill is aimed at: the one the PID file names, if it can be read. */
  function KillTarget(w: World, id: Id, env: StopEnv): Option<nat> {
    if id in w.pidFile && env.pidReadable then Some(w.pidFile[id]) else None
  }

  /** The socket is still there after the wait. */
  predicate Lingers(env: StopEnv) {
    env.socketExists && StillThere(env.socketThere, env.extra, env.timeoutMs, 0, 0)
  }

  function StopTrace(w: World, id: Id, env: StopEnv): seq<Event> {
    if !env.socketExists then []
    else if Lingers(env) && KillTarget(w, id, env).Some?
    then [Requested(id, SendCtrlAltDel), ForceKilled(id, KillTarget(w, id, env).value)]
    else [Requested(id, SendCtrlAltDel)]
  }

  /** The children a stop ends: the socket's owner when the socket has gone and it with it, or
      the one the PID file names when the forced kill takes effect. */
  function Ended(w: World, id: Id, env: StopEnv): set<nat> {
    if Lingers(env) then
      if KillTarget(w, id, env).Some? && env.killWorks then {KillTarget(w, id, env).value} else {}
    else if id in w.owner && env.goneWithSocket then {w.owner[id]} else {}
  }

  // ---------------------------------------------------------------------
  // Named lists: the latest value wins
  // ---------------------------------------------------------------------

  function WithoutSecret(xs: seq<SecretLease>, name: string): seq<SecretLease> {
    if xs == [] then []
    else (if xs[0].secretName != name then [xs[0]] else []) + WithoutSecret(xs[1..], name)
  }

  function WithoutArtifact(xs: seq<Artifact>, name: string): seq<Artifact> {
    if xs == [] then []
    else (if xs[0].name != name then [xs[0]] else []) + WithoutArtifact(xs[1..], name)
  }

  // ---------------------------------------------------------------------
  // What each operation does to the world
  // ---------------------------------------------------------------------

  /** Write a record back, under the id it carries. */
  function Persist(w: World, r: Record, disk: Disk): (World, bool) {
    if !disk.persists then (w, false)
    else
      var from := if r.projectId in w.store then Some(w.store[r.projectId].state) else None;
      (w.(store := w.store[r.projectId := r.(updatedAt := disk.now)],
          events := w.events + [Persisted(r.projectId, from, r.state)]), true)
  }

  function FreshRecord(spec: Spec, now: string): Record {
    Record(spec.projectId, LayoutOf(spec.projectId), Provisioned, spec.kernelRef, spec.seedDataRefs,
           spec.networkPolicy, [], [], None, now, now)
  }

  /** The records removed with the directory of `id`: its own, or all of them for ".". */
  function Subtree(w: World, id: Id): set<Id> {
    if id == "." then w.store.Keys else {id}
  }

  /** The whole effect of an operation, and whether it reports success. */
  function Exec(w: World, op: Op): (World, bool) {
    match op
    case Provision(spec, layoutOk, disk) => ExecProvision(w, spec, layoutOk, disk)
    case ChildExits(id, child) => (w.(children := w.children[id := Live(w, id) - {child}]), true)
    case _ =>
      if op.id !in w.store || !op.disk.loads then (w, false)
      else ExecLoaded(w, op, w.store[op.id])
  }

  function ExecProvision(w: World, spec: Spec, layoutOk: bool, disk: Disk): (World, bool) {
    var id := spec.projectId;
    if !ValidProjectId(id) || !layoutOk then (w, false)
    else if id in w.store && !disk.loads then (w, false)
    else
      var r := if id in w.store then w.store[id] else FreshRecord(spec, disk.now);
      Persist(w, r.(kernelRef := spec.kernelRef, seedDataRefs := spec.seedDataRefs,
                    networkPolicy := spec.networkPolicy), disk)
  }

  /** Everything a boot does to the world, successful or not. */
  function ExecBoot(w: World, id: Id, env: BootEnv): World {
    if !Spawns(env) then w
    else
      w.(children := w.children[id := if StaysAlive(env) then Live(w, id) + {w.next} else Live(w, id)],
         owner := w.owner[id := w.next],
         pidFile := if !BootSucceeds(env) then w.pidFile
                    else match env.pid
                      case PidWritten => w.pidFile[id := w.next]
                      case PidKept => w.pidFile
                      case PidLost => w.pidFile - {id},
         next := w.next + 1,
         events := w.events + BootTrace(id, env))
  }

  /** A boot that spawned and went no further, field by field. */
  lemma FailedBootEffect(w: World, id: Id, env: BootEnv)
    requires Spawns(env) && !BootSucceeds(env)
    ensures ExecBoot(w, id, env) ==
      World(w.store, w.children[id := if StaysAlive(env) then Live(w, id) + {w.next} else Live(w, id)],
            w.owner[id := w.next], w.pidFile, w.next + 1, w.events + BootTrace(id, env))
  {
    hide BootTrace, WaitOutcome;
  }

  lemma BootEffect(w: World, id: Id, env: BootEnv)
    requires BootSucceeds(env)
    ensures ExecBoot(w, id, env) ==
      World(w.store, w.children[id := Live(w, id) + {w.next}], w.owner[id := w.next],
            match env.pid
            case PidWritten => w.pidFile[id := w.next]
            case PidKept => w.pidFile
            case PidLost => w.pidFile - {id},
            w.next + 1, w.events + BootTrace(id, env))
  {
    hide BootTrace, WaitOutcome;
  }

  function ExecStop(w: World, id: Id, env: StopEnv): World {
    w.(children := w.children[id := Live(w, id) - Ended(w, id, env)],
       pidFile := if env.socketExists && env.pidRemoved then w.pidFile - {id} else w.pidFile,
       events := w.events + StopTrace(w, id, env))
  }

  function ExecRunning(w: World, id: Id, r: Record, env: BootEnv, disk: Disk): (World, bool) {
    if r.state == Running then (w, false)
    else if !BootSucceeds(env) then (ExecBoot(w, id, env), false)
    else Persist(ExecBoot(w, id, env), r.(state := Running), disk)
  }

  function ExecStopped(w: World, id: Id, r: Record, env: StopEnv, disk: Disk): (World, bool) {
    if r.state == Stopped then (w, true)
    else if r.state != Running then (w, false)
    else Persist(ExecStop(w, id, env), r.(state := Stopped), disk)
  }

  function ExecDestroy(w: World, id: Id, r: Record, removal: Removal): (World, bool) {
    if r.state == Running then (w, false)
    else match removal
      case Removed =>
        (w.(store := w.store - Subtree(w, id), pidFile := w.pidFile - Subtree(w, id)), true)
      case RemovalFails(gone, pidsGone) =>
        (w.(store := w.store - (gone * Subtree(w, id)), pidFile := w.pidFile - (pidsGone * Subtree(w, id))), false)
  }

  function ExecLoaded(w: World, op: Op, r: Record): (World, bool)
    requires !op.Provision? && !op.ChildExits?
  {
    match op
    case ToRunning(id, env, disk) => ExecRunning(w, id, r, env, disk)
    case ToStopped(id, env, disk) => ExecStopped(w, id, r, env, disk)
    case ToProvisioned(id, disk) => Persist(w, r.(state := Provisioned), disk)
    case AttachPolicy(id, policy, disk) => Persist(w, r.(networkPolicy := policy), disk)
    case InjectSecret(id, lease, disk) =>
      Persist(w, r.(secrets := WithoutSecret(r.secrets, lease.secretName) + [lease]), disk)
    case CollectArtifact(id, artifact, disk) =>
      if IsBlank(artifact.name) then (w, false)
      else Persist(w, r.(artifacts := WithoutArtifact(r.artifacts, artifact.name) + [artifact]), disk)
    case LoadEbpf(id, ebpf, loadsProgram, disk) =>
      if !loadsProgram then (w, false) else Persist(w, r.(ebpf := Some(ebpf)), disk)
    case Destroy(id, removal, _) => ExecDestroy(w, id, r, removal)
  }

  method RetainSecrets(xs: seq<SecretLease>, name: string) returns (ys: seq<SecretLease>)
    ensures ys == WithoutSecret(xs, name)
  {
    ys := [];
    assert xs[0..] == xs;
    for i := 0 to |xs|
      invariant ys + WithoutSecret(xs[i..], name) == WithoutSecret(xs, name)
    {
      assert xs[i..][1..] == xs[i + 1..];
      if xs[i].secretName != name {
        ys := ys + [xs[i]];
      }
    }
  }

  method RetainArtifacts(xs: seq<Artifact>, name: string) returns (ys: seq<Artifact>)
    ensures ys == WithoutArtifact(xs, name)
  {
    ys := [];
    assert xs[0..] == xs;
    for i := 0 to |xs|
      invariant ys + WithoutArtifact(xs[i..], name) == WithoutArtifact(xs, name)
    {
      assert xs[i..][1..] == xs[i + 1..];
      if xs[i].name != name {
        ys := ys + [xs[i]];
      }
    }
  }

  // ---------------------------------------------------------------------
  // The supervisor
  // ---------------------------------------------------------------------

  class ProjectVmSupervisor {
    var store: map<Id, Record>
    var children: map<Id, set<nat>>
    var owner: map<Id, nat>
    var pidFile: map<Id, nat>
    var next: nat
    var events: seq<Event>

    constructor ()
      ensures Now() == World(map[], map[], map[], map[], 0, [])
    {
      store, children, owner, pidFile, next, events := map[], map[], map[], map[], 0, [];
    }

    function Now(): World
      reads this
    {
      World(store, children, owner, pidFile, next, events)
    }

    method PersistRecord(r: Record, disk: Disk) returns (ok: bool)
      modifies this
      ensures (Now(), ok) == Persist(old(Now()), r, disk)
    {
      if !disk.persists {
        return false;
      }
      var from := if r.projectId in store then Some(store[r.projectId].state) else None;
      store := store[r.projectId := r.(updatedAt := disk.now)];
      events := events + [Persisted(r.projectId, from, r.state)];
      return true;
    }

    method ProvisionProjectVm(spec: Spec, layoutOk: bool, disk: Disk) returns (ok: bool)
      modifies this
      ensures (Now(), ok) == Exec(old(Now()), Provision(spec, layoutOk, disk))
    {
      if !ValidProjectId(spec.projectId) || !layoutOk {
        return false;
      }
      var record;
      if spec.projectId in store {
        if !disk.loads {
          return false;
        }
        record := store[spec.projectId];
      } else {
        record := FreshRecord(spec, disk.now);
      }
      record := record.(kernelRef := spec.kernelRef);
      record := record.(seedDataRefs := spec.seedDataRefs);
      record := record.(networkPolicy := spec.networkPolicy);
      ok := PersistRecord(record, disk);
    }

    /** Pre-flight checks, spawn, wait for the socket, the four API calls, the PID file.
        Nothing is undone on failure: a child whose API call is rejected is left as it is. */
    method BootFirecracker(id: Id, env: BootEnv) returns (ok: bool)
      modifies this
      ensures ok == BootSucceeds(env)
      ensures Now() == ExecBoot(old(Now()), id, env)
    {
      hide ApiTrace, WaitOutcome, ExecBoot;
      if !env.binaryExists || !env.kvmAccessible || !env.staleSocketRemoved || !env.logOpens || !env.spawns {
        NothingSpawned(Now(), id, env);
        return false;
      }
      var child, before := next, Live(Now(), id);
      SpawnChild(id);
      var ready := AwaitSocket(id, env, before);
      if !ready {
        FailedBootEffect(old(Now()), id, env);
        return false;
      }
      var calls := BootCalls(env);
      ok := DriveApi(id, calls);
      assert events == old(events) + BootTrace(id, env);
      assert ok <==> calls[0].1 && calls[1].1 && calls[2].1 && calls[3].1;
      if !ok {
        FailedBootEffect(old(Now()), id, env);
        return;
      }
      BootEffect(old(Now()), id, env);
      match env.pid {
        case PidWritten => pidFile := pidFile[id := child];
        case PidKept =>
        case PidLost => pidFile := pidFile - {id};
      }
    }

    lemma NothingSpawned(w: World, id: Id, env: BootEnv)
      requires !Spawns(env)
      ensures ExecBoot(w, id, env) == w
    {
    }

    /** Wait for the socket of the child just spawned; a child that is seen to be gone, or is
        killed, leaves the `others`. */
    method AwaitSocket(id: Id, env: BootEnv, others: set<nat>) returns (ready: bool)
      modifies `children, `events
      ensures ready <==> WaitOutcome(env.polls, env.extra, env.timeoutMs, 0, 0) == Ready
      ensures children == if StaysAlive(env) then old(children) else old(children)[id := others]
      ensures events == old(events) + WaitTrace(id, env)
    {
      hide WaitOutcome;
      var wait, sleeps := WaitForSocket(env.polls, env.extra, env.timeoutMs);
      if wait == TimedOut {
        events := events + [ChildKilled(id)];
        if env.killWorks {
          children := children[id := others];
        }
      } else if wait == ExitedEarly {
        events := events + [ExitSeen(id)];
        children := children[id := others];
      }
      return wait == Ready;
    }

    /** A new child, with the socket path for its own. */
    method SpawnChild(id: Id)
      modifies `children, `owner, `next, `events
      ensures Now() == old(World(store, children[id := Live(Now(), id) + {next}], owner[id := next], pidFile, next + 1,
                                 events + [Spawned(id)]))
    {
      children := children[id := Live(Now(), id) + {next}];
      owner := owner[id := next];
      next := next + 1;
      events := events + [Spawned(id)];
    }

    /** Make the API calls in order, stopping at the first one rejected. */
    method DriveApi(id: Id, calls: seq<(Endpoint, bool)>) returns (ok: bool)
      modifies `events
      ensures ok <==> forall j | 0 <= j < |calls| :: calls[j].1
      ensures events == old(events) + ApiTrace(id, calls)
    {
      assert calls[0..] == calls;
      for i := 0 to |calls|
        invariant events + ApiTrace(id, calls[i..]) == old(events) + ApiTrace(id, calls)
        invariant forall j | 0 <= j < i :: calls[j].1
      {
        assert calls[i..][1..] == calls[i + 1..];
        if !calls[i].1 {
          events := events + [Rejected(id, calls[i].0)];
          return false;
        }
        events := events + [Accepted(id, calls[i].0)];
      }
      assert calls[|calls|..] == [];
      return true;
    }

    /** Ask for a shutdown, wait, force it if need be and the PID file allows. This reports no
        failure, whatever comes of it. */
    method StopFirecracker(id: Id, env: StopEnv)
      modifies this
      ensures Now() == ExecStop(old(Now()), id, env)
    {
      hide StillThere;
      var alive := Live(Now(), id);
      var byItself := if id in owner && env.goneWithSocket then {owner[id]} else {};
      if !env.socketExists {
        children := children[id := alive - byItself];
        return;
      }
      events := events + [Requested(id, SendCtrlAltDel)];
      var stillThere, sleeps := WaitForExit(env.socketThere, env.extra, env.timeoutMs);
      if !stillThere {
        children := children[id := alive - byItself];
      } else if id in pidFile && env.pidReadable {
        events := events + [ForceKilled(id, pidFile[id])];
        children := children[id := alive - if env.killWorks then {pidFile[id]} else {}];
      } else {
        children := children[id := alive - {}];
      }
      if env.pidRemoved {
        pidFile := pidFile - {id};
      }
    }

    /** A child that ends without the supervisor's doing. */
    method LoseChild(id: Id, child: nat)
      modifies `children
      ensures (Now(), true) == Exec(old(Now()), ChildExits(id, child))
    {
      children := children[id := Live(Now(), id) - {child}];
    }

    method TransitionVmState(id: Id, target: VmState, boot: BootEnv, stop: StopEnv, disk: Disk) returns (ok: bool)
      modifies this
      ensures (Now(), ok) == Exec(old(Now()), match target
                                              case Running => ToRunning(id, boot, disk)
                                              case Stopped => ToStopped(id, stop, disk)
                                              case Provisioned => ToProvisioned(id, disk))
    {
      hide BootSucceeds, ExecBoot, ExecStop;
      if id !in store || !disk.loads {
        return false;
      }
      var record := store[id];
      match target {
        case Running =>
          if record.state == Running {
            return false;
          }
          var started := BootFirecracker(id, boot);
          if !started {
            return false;
          }
          record := record.(state := Running);
        case Stopped =>
          if record.state == Stopped {
            return true;
          }
          if record.state != Running {
            return false;
          }
          StopFirecracker(id, stop);
          record := record.(state := Stopped);
        case Provisioned =>
          record := record.(state := Provisioned);
      }
      ok := PersistRecord(record, disk);
    }

    method AttachNetworkPolicy(id: Id, policy: NetworkPolicy, disk: Disk) returns (ok: bool)
      modifies this
      ensures (Now(), ok) == Exec(old(Now()), AttachPolicy(id, policy, disk))
    {
      if id !in store || !disk.loads {
        return false;
      }
      ok := PersistRecord(store[id].(networkPolicy := policy), disk);
    }

    method Inject(id: Id, lease: SecretLease, disk: Disk) returns (ok: bool)
      modifies this
      ensures (Now(), ok) == Exec(old(Now()), InjectSecret(id, lease, disk))
    {
      if id !in store || !disk.loads {
        return false;
      }
      var record := store[id];
      var kept := RetainSecrets(record.secrets, lease.secretName);
      record := record.(secrets := kept + [lease]);
      ok := PersistRecord(record, disk);
    }

    method Collect(id: Id, artifact: Artifact, disk: Disk) returns (ok: bool)
      modifies this
      ensures (Now(), ok) == Exec(old(Now()), CollectArtifact(id, artifact, disk))
    {
      if IsBlank(artifact.name) || id !in store || !disk.loads {
        return false;
      }
      var record := store[id];
      var kept := RetainArtifacts(record.artifacts, artifact.name);
      record := record.(artifacts := kept + [artifact]);
      ok := PersistRecord(record, disk);
    }

    method LoadHostEbpfPolicy(id: Id, ebpf: EbpfPolicy, loadsProgram: bool, disk: Disk) returns (ok: bool)
      modifies this
      ensures (Now(), ok) == Exec(old(Now()), LoadEbpf(id, ebpf, loadsProgram, disk))
    {
      if id !in store || !disk.loads || !loadsProgram {
        return false;
      }
      ok := PersistRecord(store[id].(ebpf := Some(ebpf)), disk);
    }

    method DestroyProjectVm(id: Id, removal: Removal, disk: Disk) returns (ok: bool)
      modifies this
      ensures (Now(), ok) == Exec(old(Now()), Destroy(id, removal, disk))
    {
      if id !in store || !disk.loads || store[id].state == Running {
        return false;
      }
      var subtree := Subtree(Now(), id);
      match removal {
        case Removed =>
          store, pidFile := store - subtree, pidFile - subtree;
          return true;
        case RemovalFails(gone, pidsGone) =>
          store, pidFile := store - (gone * subtree), pidFile - (pidsGone * subtree);
          return false;
      }
    }
  }
}
