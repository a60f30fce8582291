/** fork, mount-path, unmount and discard, one after another, each able to fail at any step. */
module ForkLifecycle {
  import opened Wrappers
  import opened Workspace
  import opened Registry
  import ForkPaths

  /** The host as these commands see it: the registry document, the directories that exist
      with their contents, and the mounts stacked on each directory, the top one last. */
  datatype Host = Host(doc: Doc, dirs: map<Place, Folder>, mounts: map<Place, seq<Layer>>)

  /** What is mounted: the overlay of a fork over its base, or a directory onto itself. */
  datatype Layer = OverlayOf(base: Key, fork: Key) | SelfBind

  function Stack(h: Host, p: Place): seq<Layer> { if p in h.mounts then h.mounts[p] else [] }

  function Mounts(h: Host, p: Place): nat { |Stack(h, p)| }

  function Mkdir(dirs: map<Place, Folder>, p: Place): map<Place, Folder> {
    if p in dirs then dirs else dirs[p := map[]]
  }

  // ---------------------------------------------------------------------
  // The mount probe
  // ---------------------------------------------------------------------

  /** /proc/mounts separates its fields with blanks, and the kernel writes a blank of a path in
      another form, as it does a backslash. */
  predicate Blank(c: char) {
    var n := c as int;
    || 9 <= n <= 13 || n == 0x20 || n == 0x85 || n == 0xA0 || n == 0x1680 || 0x2000 <= n <= 0x200A
    || n == 0x2028 || n == 0x2029 || n == 0x202F || n == 0x205F || n == 0x3000
  }

  /** The text stands in /proc/mounts as it is: it has no blank and no backslash, and it is the
      form in which the kernel prints a path. */
  predicate Printed(text: string) {
    && (forall i | 0 <= i < |text| :: !Blank(text[i]) && text[i] != '\\')
    && ForkPaths.Plain(ForkPaths.Split(if ForkPaths.Absolute(text) then text[1..] else text))
  }

  predicate Shown(p: Place) {
    match p
    case Lower(base) => Printed(base)
    case Meta(base) => Printed(base)
    case CacheLower(base, name) => Printed(base) && Printed(name)
    case Upper(fork) => Printed(fork)
    case Work(fork) => Printed(fork)
    case Merged(fork) => Printed(fork)
    case Elsewhere(path) => Printed(path)
  }

  /** What `is_mounted` finds: a mount on the path, if its text is there to be found. */
  predicate Probed(h: Host, p: Place) {
    Mounts(h, p) > 0 && Shown(p)
  }

  // ---------------------------------------------------------------------
  // The environment's answers
  // ---------------------------------------------------------------------

  /** The registry faults after which a call still answers truly: not the two that it does not
      notice, a lost flush and a stat that fails. */
  type CleanFault = f: Fault | f != FlushLost && f != StatLost witness NoFault

  datatype ForkFault = ForkRuns | MkUpperFails | MkWorkFails | MkMergedFails | MountFails | QuotaFails

  datatype ForkEnv = ForkEnv(baseLook: Look, forkLook: Look, fault: ForkFault, registry: CleanFault)

  /** How `remove_dir_all` ends: done, or failed with something left behind. */
  datatype Removal = Gone | Left(rest: Folder)

  datatype DiscardEnv = DiscardEnv(
    look: Look, mountsReadable: bool, unmounts: bool, upper: Removal, work: Removal, mergedRemoved: bool, registry: CleanFault)

  const SMOOTH := DiscardEnv(Sees, true, true, Gone, Gone, true, NoFault)

  datatype MountEnv = MountEnv(look: Look, mountsReadable: bool, mkdir: bool, mounts: bool, registry: CleanFault)
  datatype UnmountEnv = UnmountEnv(look: Look, mountsReadable: bool, unmounts: bool, rmdir: bool, registry: CleanFault)

  datatype Op =
    | Fork(base: Key, key: Key, quota: Option<nat>, mode: QuotaMode, now: Stamp, fork: ForkEnv)
    | MountPath(key: Key, mount: MountEnv)
    | Unmount(key: Key, unmount: UnmountEnv)
    | Discard(key: Key, discard: DiscardEnv)

  // ---------------------------------------------------------------------
  // What each command does
  // ---------------------------------------------------------------------

  /** Run one registry closure. */
  function Update(h: Host, op: Closure, fault: CleanFault): (Host, bool) {
    if fault != NoFault then (h, false)
    else match Apply(op, h.doc)
      case Ok(doc) => (h.(doc := doc), true)
      case Err(_) => (h, false)
  }

  lemma CriticalUpdates(file: Option<Content>, op: Closure, fault: CleanFault)
    requires Parses(file)
    ensures var (after, r) := Critical(file, op, fault);
            && Parses(after) && (forall h: Host | h.doc == DocOf(file) :: Update(h, op, fault) == (h.(doc := DocOf(after)), r.Ok?))
  {
  }

  function NewFork(base: Key, key: Key, quota: Option<nat>, mode: QuotaMode, now: Stamp): ForkEntry {
    ForkEntry(base, Upper(key), Work(key), Some(Merged(key)), quota, if quota.Some? then mode else Soft, now, map[])
  }

  /** The three directories of a fork, as far as they can be made. */
  function MadeDirs(dirs: map<Place, Folder>, key: Key, fault: ForkFault): map<Place, Folder> {
    if fault == MkUpperFails then dirs
    else if fault == MkWorkFails then Mkdir(dirs, Upper(key))
    else if fault == MkMergedFails then Mkdir(Mkdir(dirs, Upper(key)), Work(key))
    else Mkdir(Mkdir(Mkdir(dirs, Upper(key)), Work(key)), Merged(key))
  }

  predicate DirsFail(fault: ForkFault) {
    fault == MkUpperFails || fault == MkWorkFails || fault == MkMergedFails
  }

  function ExecFork(h: Host, op: Op): (Host, bool)
    requires op.Fork?
  {
    var env := op.fork;
    if env.baseLook != Sees || op.base !in h.doc.bases then (h, false)
    else if env.forkLook.Unreadable? || (env.forkLook.Sees? && op.key in h.doc.forks) then (h, false)
    else
      var made := h.(dirs := MadeDirs(h.dirs, op.key, env.fault));
      if DirsFail(env.fault) || env.fault == MountFails then (made, false)
      else
        var mounted := made.(mounts := h.mounts[Merged(op.key) := Stack(h, Merged(op.key)) + [OverlayOf(op.base, op.key)]]);
        if op.quota.Some? && env.fault == QuotaFails then (mounted, false)
        else Update(mounted, InsertFork(op.key, NewFork(op.base, op.key, op.quota, op.mode, op.now)), env.registry)
  }

  /** The directories after `remove_dir_all(p)`, skipped when the directory is absent. */
  function RemoveDir(dirs: map<Place, Folder>, p: Place, removal: Removal): map<Place, Folder> {
    if p !in dirs then dirs
    else match removal
      case Gone => dirs - {p}
      case Left(rest) => dirs[p := rest]
  }

  function ExecDiscard(h: Host, key: Key, env: DiscardEnv): (Host, bool) {
    if env.look != Sees || key !in h.doc.forks then (h, false)
    else
      var entry := h.doc.forks[key];
      if entry.mergedPath.Some? && !env.mountsReadable then (h, false)
      else
        var mounted := entry.mergedPath.Some? && Probed(h, entry.mergedPath.value);
        if mounted && !env.unmounts then (h, false)
        else
          ExecRemove(if mounted then Unmounted(h, entry.mergedPath.value) else h, key, entry, env)
  }

  /** The part of discard after the unmount: directories first, the registry last. */
  function ExecRemove(h: Host, key: Key, entry: ForkEntry, env: DiscardEnv): (Host, bool) {
    var h1 := h.(dirs := RemoveDir(h.dirs, entry.upperPath, env.upper));
    if entry.upperPath in h1.dirs then (h1, false)
    else
      var h2 := h1.(dirs := RemoveDir(h1.dirs, entry.workPath, env.work));
      if entry.workPath in h2.dirs then (h2, false)
      else
        var h3 := if entry.mergedPath.Some? && env.mergedRemoved
                  then h2.(dirs := h2.dirs - {entry.mergedPath.value}) else h2;
        Update(h3, RemoveFork(key), env.registry)
  }

  function Unmounted(h: Host, p: Place): Host
    requires Mounts(h, p) > 0
  {
    h.(mounts := h.mounts[p := Stack(h, p)[..Mounts(h, p) - 1]])
  }

  function ExecMount(h: Host, key: Key, env: MountEnv): (Host, bool) {
    if env.look != Sees || key !in h.doc.forks then (h, false)
    else
      var entry := h.doc.forks[key];
      if entry.mergedPath.Some? && !env.mountsReadable then (h, false)
      else if entry.mergedPath.Some? && Probed(h, entry.mergedPath.value) then (h, true)
      else if !env.mkdir then (h, false)
      else
        var h1 := h.(dirs := Mkdir(h.dirs, Merged(key)));
        if !env.mounts then (h1, false)
        else
          var h2 := h1.(mounts := h1.mounts[Merged(key) := Stack(h1, Merged(key)) + [SelfBind]]);
          Update(h2, InsertFork(key, entry.(mergedPath := Some(Merged(key)))), env.registry)
  }

  function ExecUnmount(h: Host, key: Key, env: UnmountEnv): (Host, bool) {
    if env.look != Sees || key !in h.doc.forks then (h, false)
    else
      var entry := h.doc.forks[key];
      if entry.mergedPath.None? || !env.mountsReadable || !Probed(h, entry.mergedPath.value) then (h, false)
      else if !env.unmounts then (h, false)
      else
        var h1 := Unmounted(h, entry.mergedPath.value);
        if entry.mergedPath.value in h1.dirs && !env.rmdir then (h1, false)
        else
          var h2 := h1.(dirs := h1.dirs - {entry.mergedPath.value});
          Update(h2, InsertFork(key, entry.(mergedPath := None)), env.registry)
  }

  function Exec(h: Host, op: Op): (Host, bool) {
    match op
    case Fork(_, _, _, _, _, _) => ExecFork(h, op)
    case MountPath(key, env) => ExecMount(h, key, env)
    case Unmount(key, env) => ExecUnmount(h, key, env)
    case Discard(key, env) => ExecDiscard(h, key, env)
  }

  ghost function Run(h: Host, ops: seq<Op>): Host
    decreases |ops|
  {
    if ops == [] then h else Run(Exec(h, ops[0]).0, ops[1..])
  }

  // ---------------------------------------------------------------------
  // The commands themselves
  // ---------------------------------------------------------------------

  /** The command did what it does; or registry.json does not parse, and it failed before it did
      anything. */
  ghost predicate Performed(before: Option<Content>, h: Host, op: Op, after: Option<Content>, t: Host, ok: bool) {
    if Parses(before) then Parses(after) && (t, ok) == Exec(h, op)
    else after == before && t == h && !ok
  }

  class ForkHost {
    const registry: RegistryHandle
    var dirs: map<Place, Folder>
    var mounts: map<Place, seq<Layer>>

    constructor ()
      ensures Now() == Host(EMPTY_DOC, map[], map[]) && Unforked(Now()) && fresh(registry)
    {
      registry := new RegistryHandle();
      dirs, mounts := map[], map[];
    }

    function Now(): Host
      reads this, registry
    {
      Host(DocOf(registry.file), dirs, mounts)
    }

    method MakeForkDirs(key: Key, fault: ForkFault) returns (ok: bool)
      modifies `dirs
      ensures dirs == MadeDirs(old(dirs), key, fault)
      ensures ok <==> !DirsFail(fault)
    {
      hide Mkdir;
      if fault == MkUpperFails {
        return false;
      }
      dirs := Mkdir(dirs, Upper(key));
      if fault == MkWorkFails {
        return false;
      }
      dirs := Mkdir(dirs, Work(key));
      if fault == MkMergedFails {
        return false;
      }
      dirs := Mkdir(dirs, Merged(key));
      return true;
    }

    method ForkBase(base: Key, key: Key, quota: Option<nat>, mode: QuotaMode, now: Stamp, env: ForkEnv)
      returns (ok: bool)
      modifies this, registry
      ensures Performed(old(registry.file), old(Now()), Fork(base, key, quota, mode, now, env), registry.file, Now(), ok)
    {
      hide Apply, Critical, MadeDirs, Mkdir, Mounts, Printed, Shown;
      var baseEntry := registry.GetBase(base, env.baseLook);
      if baseEntry.Err? {
        return false;
      }
      var existing := registry.GetFork(key, env.forkLook);
      if existing.Ok? || existing.error == Io {
        return false;
      }
      var made := MakeForkDirs(key, env.fault);
      if !made {
        return false;
      }
      if env.fault == MountFails {
        return false;
      }
      mounts := mounts[Merged(key) := Stack(Now(), Merged(key)) + [OverlayOf(base, key)]];
      var quotaMode := Soft;
      if quota.Some? {
        if env.fault == QuotaFails {
          return false;
        }
        quotaMode := mode;
      }
      var entry := ForkEntry(base, Upper(key), Work(key), Some(Merged(key)), quota, quotaMode, now, map[]);
      CriticalUpdates(registry.file, InsertFork(key, entry), env.registry);
      var inserted := registry.WithExclusiveLock(InsertFork(key, entry), env.registry);
      return inserted.Ok?;
    }

    method DiscardFork(key: Key, env: DiscardEnv) returns (ok: bool)
      modifies this, registry
      ensures Performed(old(registry.file), old(Now()), Discard(key, env), registry.file, Now(), ok)
    {
      hide Apply, Critical, Printed, ExecRemove;
      var found := registry.GetFork(key, env.look);
      if found.Err? {
        return false;
      }
      var entry := found.value;
      if entry.mergedPath.Some? {
        if !env.mountsReadable {
          return false;
        }
        if Probed(Now(), entry.mergedPath.value) {
          if !env.unmounts {
            return false;
          }
          mounts := Unmounted(Now(), entry.mergedPath.value).mounts;
        }
      }
      ok := RemoveForkDirs(key, entry, env);
    }

    /** The part of discard after the unmount. */
    method RemoveForkDirs(key: Key, entry: ForkEntry, env: DiscardEnv) returns (ok: bool)
      requires Parses(registry.file)
      modifies this, registry
      ensures Parses(registry.file) && (Now(), ok) == ExecRemove(old(Now()), key, entry, env)
    {
      hide Apply, Critical;
      if entry.upperPath in dirs {
        dirs := RemoveDir(dirs, entry.upperPath, env.upper);
        if env.upper.Left? {
          return false;
        }
      }
      if entry.workPath in dirs {
        dirs := RemoveDir(dirs, entry.workPath, env.work);
        if env.work.Left? {
          return false;
        }
      }
      if entry.mergedPath.Some? && env.mergedRemoved {
        dirs := dirs - {entry.mergedPath.value};
      }
      CriticalUpdates(registry.file, RemoveFork(key), env.registry);
      var removed := registry.WithExclusiveLock(RemoveFork(key), env.registry);
      return removed.Ok?;
    }

    method MountFork(key: Key, env: MountEnv) returns (ok: bool)
      modifies this, registry
      ensures Performed(old(registry.file), old(Now()), MountPath(key, env), registry.file, Now(), ok)
    {
      hide Apply, Critical, Printed;
      var found := registry.GetFork(key, env.look);
      if found.Err? {
        return false;
      }
      var entry := found.value;
      if entry.mergedPath.Some? {
        if !env.mountsReadable {
          return false;
        }
        if Probed(Now(), entry.mergedPath.value) {
          return true;
        }
      }
      if !env.mkdir {
        return false;
      }
      dirs := Mkdir(dirs, Merged(key));
      if !env.mounts {
        return false;
      }
      mounts := mounts[Merged(key) := Stack(Now(), Merged(key)) + [SelfBind]];
      var updated := entry.(mergedPath := Some(Merged(key)));
      CriticalUpdates(registry.file, InsertFork(key, updated), env.registry);
      var inserted := registry.WithExclusiveLock(InsertFork(key, updated), env.registry);
      return inserted.Ok?;
    }

    method UnmountFork(key: Key, env: UnmountEnv) returns (ok: bool)
      modifies this, registry
      ensures Performed(old(registry.file), old(Now()), Unmount(key, env), registry.file, Now(), ok)
    {
      hide Apply, Critical, Printed;
      var found := registry.GetFork(key, env.look);
      if found.Err? {
        return false;
      }
      var entry := found.value;
      if entry.mergedPath.None? || !env.mountsReadable || !Probed(Now(), entry.mergedPath.value) {
        return false;
      }
      var merged := entry.mergedPath.value;
      if !env.unmounts {
        return false;
      }
      mounts := Unmounted(Now(), merged).mounts;
      if merged in dirs {
        if !env.rmdir {
          return false;
        }
      }
      dirs := dirs - {merged};
      var updated := entry.(mergedPath := None);
      CriticalUpdates(registry.file, InsertFork(key, updated), env.registry);
      var inserted := registry.WithExclusiveLock(InsertFork(key, updated), env.registry);
      return inserted.Ok?;
    }
  }

  // ---------------------------------------------------------------------
  // Every sequential run
  // ---------------------------------------------------------------------

  /** Entries record the places the fork command chose. */
  ghost predicate HostInv(h: Host) {
    forall k | k in h.doc.forks :: EntryInv(h, k)
  }

  /** What a step other than a discard does to the registry: nothing, or one entry. */
  ghost predicate WritesEntry(h: Host, t: Host, key: Key) {
    && t.doc.bases == h.doc.bases
    && (t.doc.forks == h.doc.forks ||
        (key in t.doc.forks && t.doc.forks == h.doc.forks[key := t.doc.forks[key]] && EntryInv(t, key)))
  }

  ghost predicate EntryInv(h: Host, k: Key)
    requires k in h.doc.forks
  {
    var e := h.doc.forks[k];
    && e.upperPath == Upper(k) && e.workPath == Work(k)
    && (e.mergedPath.Some? ==> e.mergedPath.value == Merged(k))
    && e.baseKey in h.doc.bases
  }

  lemma ForkWritesEntry(h: Host, op: Op)
    requires op.Fork?
    ensures WritesEntry(h, ExecFork(h, op).0, op.key)
  {}

  lemma MountWritesEntry(h: Host, key: Key, env: MountEnv)
    requires HostInv(h)
    ensures WritesEntry(h, ExecMount(h, key, env).0, key)
  {}

  lemma UnmountWritesEntry(h: Host, key: Key, env: UnmountEnv)
    requires HostInv(h)
    ensures WritesEntry(h, ExecUnmount(h, key, env).0, key)
  {}

  lemma DiscardDropsEntry(h: Host, key: Key, env: DiscardEnv)
    requires HostInv(h)
    ensures var (t, ok) := ExecDiscard(h, key, env);
            && (!ok ==> t.doc == h.doc)
            && (ok ==> key in h.doc.forks && t.doc == h.doc.(forks := h.doc.forks - {key})
                       && Upper(key) !in t.dirs && Work(key) !in t.dirs)
  {}

  lemma StepWrites(h: Host, op: Op)
    requires HostInv(h) && !op.Discard?
    ensures WritesEntry(h, Exec(h, op).0, op.key)
  {
    match op
    case Fork(_, _, _, _, _, _) => ForkWritesEntry(h, op);
    case MountPath(key, env) => MountWritesEntry(h, key, env);
    case Unmount(key, env) => UnmountWritesEntry(h, key, env);
  }

  lemma StepKeepsHost(h: Host, op: Op)
    requires HostInv(h)
    ensures HostInv(Exec(h, op).0)
  {
    if op.Discard? {
      DiscardDropsEntry(h, op.key, op.discard);
    } else {
      StepWrites(h, op);
    }
  }

  lemma {:induction false} RunKeepsHost(h: Host, ops: seq<Op>)
    requires HostInv(h)
    ensures HostInv(Run(h, ops))
    decreases |ops|
  {
    if ops != [] {
      StepKeepsHost(h, ops[0]);
      RunKeepsHost(Exec(h, ops[0]).0, ops[1..]);
    }
  }

  /** A registry entry goes only through a discard, and only when the directories it
      records are gone at that moment. */
  lemma EntryRemovedOnlyWhenDirsGone(h: Host, op: Op, key: Key)
    requires HostInv(h)
    requires key in h.doc.forks && key !in Exec(h, op).0.doc.forks
    ensures op.Discard? && op.key == key && Exec(h, op).1
    ensures Upper(key) !in Exec(h, op).0.dirs && Work(key) !in Exec(h, op).0.dirs
  {
    if op.Discard? {
      DiscardDropsEntry(h, op.key, op.discard);
    } else {
      StepWrites(h, op);
    }
  }

  /** A place that belongs to one fork. */
  predicate OfFork(p: Place, key: Key) {
    p == Upper(key) || p == Work(key) || p == Merged(key)
  }

  ghost predicate SameAt(h: Host, t: Host, p: Place) {
    (p in t.dirs <==> p in h.dirs) && (p in h.dirs ==> t.dirs[p] == h.dirs[p])
  }

  lemma ForkStays(h: Host, op: Op, p: Place)
    requires op.Fork? && !OfFork(p, op.key)
    ensures SameAt(h, ExecFork(h, op).0, p)
  {
    hide Mkdir, Apply, NewFork;
    var d1 := Mkdir(h.dirs, Upper(op.key));
    var d2 := Mkdir(d1, Work(op.key));
    MkdirStays(h.dirs, Upper(op.key), p);
    MkdirStays(d1, Work(op.key), p);
    MkdirStays(d2, Merged(op.key), p);
  }

  lemma MkdirStays(dirs: map<Place, Folder>, q: Place, p: Place)
    requires p != q
    ensures p in Mkdir(dirs, q) <==> p in dirs
    ensures p in dirs ==> Mkdir(dirs, q)[p] == dirs[p]
  {
  }

  lemma MountStays(h: Host, key: Key, env: MountEnv, p: Place)
    requires p != Merged(key)
    ensures SameAt(h, ExecMount(h, key, env).0, p)
  {}

  lemma UnmountStays(h: Host, key: Key, env: UnmountEnv, p: Place)
    requires HostInv(h) && p != Merged(key)
    ensures SameAt(h, ExecUnmount(h, key, env).0, p)
  {}

  lemma RemoveStays(h: Host, key: Key, entry: ForkEntry, env: DiscardEnv, p: Place)
    requires p != entry.upperPath && p != entry.workPath && entry.mergedPath != Some(p)
    ensures SameAt(h, ExecRemove(h, key, entry, env).0, p)
  {}

  lemma DiscardStays(h: Host, key: Key, env: DiscardEnv, p: Place)
    requires HostInv(h) && !OfFork(p, key)
    ensures SameAt(h, ExecDiscard(h, key, env).0, p)
  {
    if key in h.doc.forks {
      var entry := h.doc.forks[key];
      assert EntryInv(h, key);
      RemoveStays(h, key, entry, env, p);
      if entry.mergedPath.Some? && Probed(h, entry.mergedPath.value) {
        RemoveStays(Unmounted(h, entry.mergedPath.value), key, entry, env, p);
      }
    }
  }

  /** Each command works within its own fork: every other entry, every other directory and
      in particular every base entry and lower tree is as it was. */
  lemma StepStaysInItsFork(h: Host, op: Op, p: Place, key: Key)
    requires HostInv(h)
    ensures Exec(h, op).0.doc.bases == h.doc.bases
    ensures !OfFork(p, op.key) ==> SameAt(h, Exec(h, op).0, p)
    ensures key != op.key ==> (key in Exec(h, op).0.doc.forks <==> key in h.doc.forks)
    ensures key != op.key && key in h.doc.forks ==> Exec(h, op).0.doc.forks[key] == h.doc.forks[key]
  {
    if op.Discard? {
      DiscardDropsEntry(h, op.key, op.discard);
    } else {
      StepWrites(h, op);
    }
    if !OfFork(p, op.key) {
      match op
      case Fork(_, _, _, _, _, _) => ForkStays(h, op, p);
      case MountPath(k, env) => MountStays(h, k, env, p);
      case Unmount(k, env) => UnmountStays(h, k, env, p);
      case Discard(k, env) => DiscardStays(h, k, env, p);
    }
  }

  /** Over every run, base entries and lower trees never change. */
  lemma {:induction false} BasesNeverChange(h: Host, ops: seq<Op>, base: Key)
    requires HostInv(h)
    ensures Run(h, ops).doc.bases == h.doc.bases
    ensures SameAt(h, Run(h, ops), Lower(base))
    decreases |ops|
  {
    if ops != [] {
      StepStaysInItsFork(h, ops[0], Lower(base), ops[0].key);
      StepKeepsHost(h, ops[0]);
      BasesNeverChange(Exec(h, ops[0]).0, ops[1..], base);
    }
  }

  // ---------------------------------------------------------------------
  // What success means
  // ---------------------------------------------------------------------

  /** A fork that succeeds was new, unless the lookup did not see the registry, and is registered over its base with its three
      directories there and its merged view mounted once more. */
  lemma ForkSucceeds(h: Host, op: Op)
    requires op.Fork? && Exec(h, op).1
    ensures op.base in h.doc.bases && (op.key !in h.doc.forks || op.fork.forkLook.Missed?)
    ensures var t, key := Exec(h, op).0, op.key;
            && t.doc == h.doc.(forks := h.doc.forks[key := t.doc.forks[key]])
            && t.doc.forks[key].baseKey == op.base && t.doc.forks[key].mergedPath == Some(Merged(key))
            && t.doc.forks[key].upperPath == Upper(key) && t.doc.forks[key].workPath == Work(key)
            && t.doc.forks[key].quotaBytes == op.quota && t.doc.forks[key].createdAt == op.now
            && (op.quota.None? ==> t.doc.forks[key].quotaMode == Soft)
            && Upper(key) in t.dirs && Work(key) in t.dirs && Merged(key) in t.dirs
            && Stack(t, Merged(key)) == Stack(h, Merged(key)) + [OverlayOf(op.base, key)]
            && (forall p | p != Merged(key) :: Stack(t, p) == Stack(h, p))
  {
  }

  /** After a mount that succeeds the fork's recorded merged path is mounted, and nothing
      else of the registry has changed. */
  lemma MountSucceeds(h: Host, key: Key, env: MountEnv)
    requires HostInv(h) && Exec(h, MountPath(key, env)).1
    ensures key in h.doc.forks
    ensures var t := Exec(h, MountPath(key, env)).0;
            && t.doc == h.doc.(forks := h.doc.forks[key := h.doc.forks[key].(mergedPath := Some(Merged(key)))])
            && Mounts(t, Merged(key)) > 0
            && (if Probed(h, Merged(key)) && h.doc.forks[key].mergedPath.Some?
                then Stack(t, Merged(key)) == Stack(h, Merged(key))
                else Merged(key) in t.dirs && Stack(t, Merged(key)) == Stack(h, Merged(key)) + [SelfBind])
            && (forall p | p != Merged(key) :: Stack(t, p) == Stack(h, p))
  {
    assert key in h.doc.forks ==> EntryInv(h, key);
    var entry := h.doc.forks[key];
    if entry.mergedPath.Some? && Probed(h, entry.mergedPath.value) {
      assert entry == entry.(mergedPath := Some(Merged(key)));
      assert h.doc.forks[key := entry] == h.doc.forks;
    }
  }

  /** After an unmount that succeeds the top mount is gone, so is the directory, and the entry
      records no merged path. */
  lemma UnmountSucceeds(h: Host, key: Key, env: UnmountEnv)
    requires HostInv(h) && Exec(h, Unmount(key, env)).1
    ensures key in h.doc.forks && h.doc.forks[key].mergedPath == Some(Merged(key))
    ensures var t := Exec(h, Unmount(key, env)).0;
            && t.doc == h.doc.(forks := h.doc.forks[key := h.doc.forks[key].(mergedPath := None)])
            && Merged(key) !in t.dirs
            && Probed(h, Merged(key))
            && Stack(t, Merged(key)) == Stack(h, Merged(key))[..Mounts(h, Merged(key)) - 1]
            && (forall p | p != Merged(key) :: Stack(t, p) == Stack(h, p))
  {
    assert key in h.doc.forks ==> EntryInv(h, key);
  }

  /** A fork that is on record and mounted can be unmounted exactly when its path is printed as it
      is in /proc/mounts. */
  lemma UnmountPossibleExactly(h: Host, key: Key)
    requires HostInv(h) && key in h.doc.forks
    ensures (exists env :: Exec(h, Unmount(key, env)).1) <==>
            h.doc.forks[key].mergedPath.Some? && Mounts(h, Merged(key)) > 0 && Printed(key)
  {
    assert EntryInv(h, key);
    hide Printed;
    if h.doc.forks[key].mergedPath.Some? && Probed(h, Merged(key)) {
      assert Exec(h, Unmount(key, UnmountEnv(Sees, true, true, true, NoFault))).1;
    }
  }

  /** mount-path leaves a mounted fork as it is exactly when its path is printed as it is in
      /proc/mounts; otherwise it binds the path onto itself once more. */
  lemma MountedAgainExactly(h: Host, key: Key, env: MountEnv)
    requires HostInv(h) && Exec(h, MountPath(key, env)).1
    requires key in h.doc.forks && h.doc.forks[key].mergedPath.Some? && Mounts(h, Merged(key)) > 0
    ensures var t := Exec(h, MountPath(key, env)).0;
            if Printed(key) then t == h else Stack(t, Merged(key)) == Stack(h, Merged(key)) + [SelfBind]
  {
    assert EntryInv(h, key);
    hide Printed;
  }

  /** A discard that succeeds takes the top mount off a mounted fork exactly when its path is
      printed as it is in /proc/mounts; otherwise the overlay outlives its directories. */
  lemma DiscardUnmountsExactly(h: Host, key: Key, env: DiscardEnv)
    requires HostInv(h) && Exec(h, Discard(key, env)).1
    requires key in h.doc.forks && h.doc.forks[key].mergedPath.Some? && Mounts(h, Merged(key)) > 0
    ensures var stack := Stack(Exec(h, Discard(key, env)).0, Merged(key));
            stack == if Printed(key) then Stack(h, Merged(key))[..Mounts(h, Merged(key)) - 1] else Stack(h, Merged(key))
  {
    assert EntryInv(h, key);
    hide Printed, RemoveDir, Apply;
  }

  /** Mounting a fork that records no merged path and unmounting it again undoes the mount:
      the registry and every stack of mounts are as they were. */
  lemma MountThenUnmount(h: Host, key: Key, m: MountEnv, u: UnmountEnv)
    requires HostInv(h) && key in h.doc.forks && h.doc.forks[key].mergedPath.None?
    requires Exec(h, MountPath(key, m)).1
    requires Exec(Exec(h, MountPath(key, m)).0, Unmount(key, u)).1
    ensures var t := Exec(Exec(h, MountPath(key, m)).0, Unmount(key, u)).0;
            && t.doc == h.doc
            && (forall p :: Stack(t, p) == Stack(h, p))
            && (forall p | p != Merged(key) :: SameAt(h, t, p))
  {
    var mid := Exec(h, MountPath(key, m)).0;
    var t := Exec(mid, Unmount(key, u)).0;
    StepKeepsHost(h, MountPath(key, m));
    hide Exec, HostInv, Probed, SameAt;
    MountSucceeds(h, key, m);
    UnmountSucceeds(mid, key, u);
    MountUndone(h, mid, t, key);
    forall p | p != Merged(key) ensures SameAt(h, t, p) {
      MountLeaves(h, key, m, u, p);
    }
  }

  lemma MountUndone(h: Host, mid: Host, t: Host, key: Key)
    requires key in h.doc.forks && h.doc.forks[key].mergedPath.None?
    requires mid.doc == h.doc.(forks := h.doc.forks[key := h.doc.forks[key].(mergedPath := Some(Merged(key)))])
    requires t.doc == mid.doc.(forks := mid.doc.forks[key := mid.doc.forks[key].(mergedPath := None)])
    requires Stack(mid, Merged(key)) == Stack(h, Merged(key)) + [SelfBind]
    requires Stack(t, Merged(key)) == Stack(mid, Merged(key))[..Mounts(mid, Merged(key)) - 1]
    requires forall p | p != Merged(key) :: Stack(mid, p) == Stack(h, p) && Stack(t, p) == Stack(mid, p)
    ensures t.doc == h.doc && forall p :: Stack(t, p) == Stack(h, p)
  {
    assert t.doc.forks == h.doc.forks;
    hide Stack;
  }

  lemma MountLeaves(h: Host, key: Key, m: MountEnv, u: UnmountEnv, p: Place)
    requires HostInv(h) && p != Merged(key)
    ensures SameAt(h, Exec(Exec(h, MountPath(key, m)).0, Unmount(key, u)).0, p)
  {
    hide ExecMount, ExecUnmount;
    StepKeepsHost(h, MountPath(key, m));
    MountStays(h, key, m, p);
    UnmountStays(Exec(h, MountPath(key, m)).0, key, u, p);
  }

  // ---------------------------------------------------------------------
  // What the merged path shows
  // ---------------------------------------------------------------------

  ghost predicate HasOverlay(stack: seq<Layer>, key: Key) {
    exists i | 0 <= i < |stack| :: stack[i].OverlayOf? && stack[i].fork == key
  }

  /** The fork's merged path shows its overlay: some mount on it is the overlay, and every
      bind of the path onto itself shows what was there before. */
  ghost predicate ShowsView(h: Host, key: Key) {
    HasOverlay(Stack(h, Merged(key)), key)
  }

  /** A fork that succeeds shows its view. */
  lemma ForkShowsView(h: Host, op: Op)
    requires op.Fork? && Exec(h, op).1
    ensures ShowsView(Exec(h, op).0, op.key)
  {
    ForkSucceeds(h, op);
    hide Exec;
    var stack := Stack(Exec(h, op).0, Merged(op.key));
    assert stack[|stack| - 1] == OverlayOf(op.base, op.key);
  }

  /** mount-path reports success whether or not the view is there: the path shows the overlay
      afterwards exactly when it did before. */
  lemma MountShowsWhatWasThere(h: Host, key: Key, env: MountEnv)
    requires HostInv(h) && Exec(h, MountPath(key, env)).1
    ensures ShowsView(Exec(h, MountPath(key, env)).0, key) <==> ShowsView(h, key)
  {
    MountSucceeds(h, key, env);
    hide Exec;
    var before, after := Stack(h, Merged(key)), Stack(Exec(h, MountPath(key, env)).0, Merged(key));
    assert after == before + [SelfBind] || after == before;
    assert forall i | 0 <= i < |before| :: after[i] == before[i];
  }

  ghost predicate StackMoves(h: Host, t: Host, key: Key) {
    var before, after := Stack(h, Merged(key)), Stack(t, Merged(key));
    after == before || after == before + [SelfBind] || after < before
  }

  lemma ForkStack(h: Host, op: Op, key: Key)
    requires op.Fork? && op.key != key
    ensures StackMoves(h, ExecFork(h, op).0, key)
  {
    hide Mkdir, Apply, NewFork;
  }

  lemma MountStack(h: Host, k: Key, env: MountEnv, key: Key)
    ensures StackMoves(h, ExecMount(h, k, env).0, key)
  {
    hide Mkdir, Apply;
  }

  lemma UnmountStack(h: Host, k: Key, env: UnmountEnv, key: Key)
    ensures StackMoves(h, ExecUnmount(h, k, env).0, key)
  {
    hide Apply;
  }

  lemma DiscardStack(h: Host, k: Key, env: DiscardEnv, key: Key)
    ensures StackMoves(h, ExecDiscard(h, k, env).0, key)
  {
    hide Apply, RemoveDir;
  }

  /** How one step changes the stack on a fork's merged path, unless it forks that key. */
  lemma StackStep(h: Host, op: Op, key: Key)
    requires !(op.Fork? && op.key == key)
    ensures StackMoves(h, Exec(h, op).0, key)
  {
    hide ExecFork, ExecMount, ExecUnmount, ExecDiscard, StackMoves;
    match op
    case Fork(_, _, _, _, _, _) => ForkStack(h, op, key);
    case MountPath(k, env) => MountStack(h, k, env, key);
    case Unmount(k, env) => UnmountStack(h, k, env, key);
    case Discard(k, env) => DiscardStack(h, k, env, key);
  }

  /** Over every run without a fork of that key, a view once gone never comes back. */
  lemma {:induction false} ViewNeverComesBack(h: Host, ops: seq<Op>, key: Key)
    requires HostInv(h) && !ShowsView(h, key)
    requires forall i | 0 <= i < |ops| :: !(ops[i].Fork? && ops[i].key == key)
    ensures !ShowsView(Run(h, ops), key)
    decreases |ops|
  {
    hide Exec;
    if ops != [] {
      StackStep(h, ops[0], key);
      StepKeepsHost(h, ops[0]);
      ViewNeverComesBack(Exec(h, ops[0]).0, ops[1..], key);
    }
  }

  /** Forking, unmounting and mounting again, all successful, leaves a merged path that is on
      record and mounted, and does not show the fork's view. */
  lemma RemountLosesView(h: Host, op: Op, u: UnmountEnv, m: MountEnv)
    requires HostInv(h) && op.Fork? && Stack(h, Merged(op.key)) == [] && Exec(h, op).1
    requires Exec(Exec(h, op).0, Unmount(op.key, u)).1
    requires Exec(Exec(Exec(h, op).0, Unmount(op.key, u)).0, MountPath(op.key, m)).1
    ensures var t := Exec(Exec(Exec(h, op).0, Unmount(op.key, u)).0, MountPath(op.key, m)).0;
            && ShowsView(Exec(h, op).0, op.key)
            && t.doc.forks[op.key].mergedPath == Some(Merged(op.key))
            && Mounts(t, Merged(op.key)) > 0
            && !ShowsView(t, op.key)
  {
    hide Exec;
    var key := op.key;
    var forked := Exec(h, op).0;
    var unmounted := Exec(forked, Unmount(key, u)).0;
    StepKeepsHost(h, op);
    StepKeepsHost(forked, Unmount(key, u));
    ForkSucceeds(h, op);
    ForkShowsView(h, op);
    UnmountSucceeds(forked, key, u);
    assert Stack(unmounted, Merged(key)) == [];
    MountSucceeds(unmounted, key, m);
    MountShowsWhatWasThere(unmounted, key, m);
  }

  // Debris: what failed fork commands leave behind, and nothing else does.

  ghost predicate NoLeak(h: Host, debris: set<Key>) {
    forall k | Upper(k) in h.dirs || Work(k) in h.dirs :: k in h.doc.forks || k in debris
  }

  ghost function Debris(h: Host, op: Op, debris: set<Key>): set<Key> {
    if op.Fork? && !Exec(h, op).1 then debris + {op.key} else debris
  }

  ghost function DebrisOf(h: Host, ops: seq<Op>, debris: set<Key>): set<Key>
    decreases |ops|
  {
    if ops == [] then debris else DebrisOf(Exec(h, ops[0]).0, ops[1..], Debris(h, ops[0], debris))
  }

  lemma ForkLeavesEntryOrFails(h: Host, op: Op)
    requires op.Fork? && Exec(h, op).1
    ensures op.key in Exec(h, op).0.doc.forks
  {}

  lemma MountMakesNoUpper(h: Host, op: Op, k: Key)
    requires HostInv(h) && (op.MountPath? || op.Unmount?)
    ensures SameAt(h, Exec(h, op).0, Upper(k)) && SameAt(h, Exec(h, op).0, Work(k))
    ensures k in h.doc.forks ==> k in Exec(h, op).0.doc.forks
  {
    StepWrites(h, op);
    match op
    case MountPath(key, env) =>
      MountStays(h, key, env, Upper(k));
      MountStays(h, key, env, Work(k));
    case Unmount(key, env) =>
      UnmountStays(h, key, env, Upper(k));
      UnmountStays(h, key, env, Work(k));
    case _ =>
  }

  lemma DiscardMakesNoDir(h: Host, key: Key, env: DiscardEnv, p: Place)
    requires p !in h.dirs
    ensures p !in ExecDiscard(h, key, env).0.dirs
  {}

  lemma StepLeaksNothing(h: Host, op: Op, debris: set<Key>)
    requires HostInv(h) && NoLeak(h, debris)
    ensures NoLeak(Exec(h, op).0, Debris(h, op, debris))
  {
    var t := Exec(h, op).0;
    forall k | Upper(k) in t.dirs || Work(k) in t.dirs
      ensures k in t.doc.forks || k in Debris(h, op, debris)
    {
      match op
      case Fork(_, _, _, _, _, _) =>
        StepStaysInItsFork(h, op, Upper(k), k);
        StepStaysInItsFork(h, op, Work(k), k);
        if Exec(h, op).1 {
          ForkLeavesEntryOrFails(h, op);
        }
      case MountPath(_, _) => MountMakesNoUpper(h, op, k);
      case Unmount(_, _) => MountMakesNoUpper(h, op, k);
      case Discard(key, env) =>
        DiscardDropsEntry(h, key, env);
        if Upper(k) !in h.dirs && Work(k) !in h.dirs {
          DiscardMakesNoDir(h, key, env, Upper(k));
          DiscardMakesNoDir(h, key, env, Work(k));
        }
    }
  }

  /** Over every run, an upper or work directory without a registry entry belongs to a key
      whose fork command failed. */
  lemma {:induction false} RunLeaksOnlyDebris(h: Host, ops: seq<Op>, debris: set<Key>)
    requires HostInv(h) && NoLeak(h, debris)
    ensures NoLeak(Run(h, ops), DebrisOf(h, ops, debris))
    decreases |ops|
  {
    if ops != [] {
      StepLeaksNothing(h, ops[0], debris);
      StepKeepsHost(h, ops[0]);
      RunLeaksOnlyDebris(Exec(h, ops[0]).0, ops[1..], Debris(h, ops[0], debris));
    }
  }

  /** A host on which nothing has been forked yet, with whatever bases. */
  ghost predicate Unforked(h: Host) {
    h.doc.forks == map[] && forall k :: Upper(k) !in h.dirs && Work(k) !in h.dirs
  }

  /** From there on, over every run: entries keep their own paths, and an upper or work directory
      without an entry belongs to a key whose fork failed. */
  lemma ReachableHost(h: Host, ops: seq<Op>)
    requires Unforked(h)
    ensures HostInv(Run(h, ops)) && NoLeak(Run(h, ops), DebrisOf(h, ops, {}))
  {
    RunKeepsHost(h, ops);
    RunLeaksOnlyDebris(h, ops, {});
  }

  // ---------------------------------------------------------------------
  // Retrying a discard
  // ---------------------------------------------------------------------

  ghost function Attempts(h: Host, key: Key, envs: seq<DiscardEnv>): Host
    decreases |envs|
  {
    if envs == [] then h else Attempts(ExecDiscard(h, key, envs[0]).0, key, envs[1..])
  }

  /** All attempts but the last fail, the last succeeds. */
  ghost predicate SucceedsLast(h: Host, key: Key, envs: seq<DiscardEnv>)
    decreases |envs|
  {
    envs != [] &&
    if |envs| == 1 then ExecDiscard(h, key, envs[0]).1
    else !ExecDiscard(h, key, envs[0]).1 && SucceedsLast(ExecDiscard(h, key, envs[0]).0, key, envs[1..])
  }

  /** What the retried discard reaches: the entry gone, both directories gone, the rest
      of the registry and every directory outside the fork untouched. */
  ghost predicate Discarded(h: Host, t: Host, key: Key) {
    && t.doc == h.doc.(forks := h.doc.forks - {key})
    && Upper(key) !in t.dirs && Work(key) !in t.dirs
    && (forall p | !OfFork(p, key) :: SameAt(h, t, p))
  }

  lemma {:induction false} RetriesDiscard(h: Host, key: Key, envs: seq<DiscardEnv>)
    requires HostInv(h) && SucceedsLast(h, key, envs)
    ensures Discarded(h, Attempts(h, key, envs), key)
    decreases |envs|
  {
    var next := ExecDiscard(h, key, envs[0]).0;
    DiscardDropsEntry(h, key, envs[0]);
    forall p | !OfFork(p, key) ensures SameAt(h, next, p) {
      DiscardStays(h, key, envs[0], p);
    }
    if |envs| == 1 {
      assert Attempts(next, key, envs[1..]) == next;
    } else {
      StepKeepsHost(h, Discard(key, envs[0]));
      RetriesDiscard(next, key, envs[1..]);
    }
  }

  /** Retrying a failed discard until it succeeds reaches the same registry and the same
      upper and work directories as a discard that succeeds at once. */
  lemma RetryReachesSameState(h: Host, key: Key, envs: seq<DiscardEnv>, p: Place)
    requires HostInv(h) && SucceedsLast(h, key, envs)
    requires p != Merged(key)
    ensures ExecDiscard(h, key, SMOOTH).1
    ensures Attempts(h, key, envs).doc == ExecDiscard(h, key, SMOOTH).0.doc
    ensures SameAt(ExecDiscard(h, key, SMOOTH).0, Attempts(h, key, envs), p)
  {
    RetriesDiscard(h, key, envs);
    RetriedEntryExists(h, key, envs);
    SmoothDiscardSucceeds(h, key);
    DiscardDropsEntry(h, key, SMOOTH);
    if !OfFork(p, key) {
      DiscardStays(h, key, SMOOTH, p);
      assert SameAt(h, Attempts(h, key, envs), p);
    }
  }

  lemma SmoothDiscardSucceeds(h: Host, key: Key)
    requires key in h.doc.forks
    ensures ExecDiscard(h, key, SMOOTH).1
  {}

  lemma {:induction false} RetriedEntryExists(h: Host, key: Key, envs: seq<DiscardEnv>)
    requires HostInv(h) && SucceedsLast(h, key, envs)
    ensures key in h.doc.forks
    decreases |envs|
  {
    DiscardDropsEntry(h, key, envs[0]);
    if |envs| > 1 {
      StepKeepsHost(h, Discard(key, envs[0]));
      RetriedEntryExists(ExecDiscard(h, key, envs[0]).0, key, envs[1..]);
    }
  }
}
