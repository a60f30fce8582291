/** The order of the steps of each command on a fork, also when a step fails, and exactly when each
    succeeds. */
module ForkOutcomes {
  import opened Wrappers
  import opened Registry
  import opened ForkLifecycle
  import ForkKeys
  import ForkPaths

  /** The directory is as it was, or as absent as it was. */
  ghost predicate Changed(h: Host, t: Host, p: Place) {
    !SameAt(h, t, p)
  }

  /** Nothing is mounted where the entry says its merged view is, as far as the probe can tell. */
  predicate NothingFound(h: Host, key: Key)
    requires key in h.doc.forks
  {
    h.doc.forks[key].mergedPath.None? || Stack(h, Merged(key)) == [] || !Printed(key)
  }

  // ---------------------------------------------------------------------
  // discard
  // ---------------------------------------------------------------------

  /** A discard that cannot tell whether the fork is mounted, or cannot take the mount down, leaves
      everything as it was. */
  lemma RefusedUnmountChangesNothing(h: Host, key: Key, env: DiscardEnv)
    requires HostInv(h) && key in h.doc.forks && h.doc.forks[key].mergedPath.Some?
    requires !env.mountsReadable || (!NothingFound(h, key) && !env.unmounts)
    ensures Exec(h, Discard(key, env)) == (h, false)
  {
    assert EntryInv(h, key);
    hide Printed, ExecRemove;
  }

  /** Over every discard, failed or not: the fork's directories are touched only once the top mount
      was taken down or none was found; work only once upper is gone; merged and the entry only
      once both are gone; and no other mount changes. */
  lemma DiscardInOrder(h: Host, key: Key, env: DiscardEnv)
    requires HostInv(h)
    ensures var t := Exec(h, Discard(key, env)).0;
            && (Changed(h, t, Upper(key)) || Changed(h, t, Work(key)) || Changed(h, t, Merged(key)) ==>
                  && key in h.doc.forks
                  && (NothingFound(h, key)
                      || Stack(t, Merged(key)) == Stack(h, Merged(key))[..Mounts(h, Merged(key)) - 1]))
            && (Changed(h, t, Work(key)) ==> Upper(key) !in t.dirs)
            && (Changed(h, t, Merged(key)) ==> Upper(key) !in t.dirs && Work(key) !in t.dirs)
            && (t.doc != h.doc ==> Upper(key) !in t.dirs && Work(key) !in t.dirs)
            && (forall p | p != Merged(key) :: Stack(t, p) == Stack(h, p))
            && (key !in h.doc.forks || env.look != Sees ==> t == h)
  {
    hide Printed;
    if key in h.doc.forks && env.look == Sees {
      assert EntryInv(h, key);
      DiscardMounts(h, key, env);
      DiscardDirs(h, key, env);
    }
  }

  /** The part after the unmount. */
  lemma RemoveInOrder(h: Host, key: Key, entry: ForkEntry, env: DiscardEnv)
    requires entry.upperPath == Upper(key) && entry.workPath == Work(key)
    requires entry.mergedPath.Some? ==> entry.mergedPath.value == Merged(key)
    ensures var t := ExecRemove(h, key, entry, env).0;
            && t.mounts == h.mounts
            && (Changed(h, t, Work(key)) ==> Upper(key) !in t.dirs)
            && (Changed(h, t, Merged(key)) || t.doc != h.doc ==> Upper(key) !in t.dirs && Work(key) !in t.dirs)
  {
    hide Apply;
  }

  lemma DiscardMounts(h: Host, key: Key, env: DiscardEnv)
    requires HostInv(h) && key in h.doc.forks && env.look == Sees
    ensures var t := Exec(h, Discard(key, env)).0;
            && (t == h || NothingFound(h, key)
                || Stack(t, Merged(key)) == Stack(h, Merged(key))[..Mounts(h, Merged(key)) - 1])
            && (forall p | p != Merged(key) :: Stack(t, p) == Stack(h, p))
  {
    var entry := h.doc.forks[key];
    assert EntryInv(h, key);
    RemoveInOrder(h, key, entry, env);
    if Probed(h, Merged(key)) {
      RemoveInOrder(Unmounted(h, Merged(key)), key, entry, env);
    }
    hide Printed, ExecRemove, HostInv, EntryInv;
  }

  lemma DiscardDirs(h: Host, key: Key, env: DiscardEnv)
    requires HostInv(h) && key in h.doc.forks && env.look == Sees
    ensures var t := Exec(h, Discard(key, env)).0;
            && (Changed(h, t, Work(key)) ==> Upper(key) !in t.dirs)
            && (Changed(h, t, Merged(key)) || t.doc != h.doc ==> Upper(key) !in t.dirs && Work(key) !in t.dirs)
  {
    var entry := h.doc.forks[key];
    assert EntryInv(h, key);
    RemoveInOrder(h, key, entry, env);
    if Probed(h, Merged(key)) {
      RemoveInOrder(Unmounted(h, Merged(key)), key, entry, env);
    }
    hide Printed, ExecRemove, HostInv, EntryInv;
  }

  /** A discard reports success exactly when the entry can be read, the mount is taken down if one
      is found, upper and work go whole if they are there, and the registry takes the removal. */
  lemma DiscardSucceedsExactly(h: Host, key: Key, env: DiscardEnv)
    requires HostInv(h)
    ensures Exec(h, Discard(key, env)).1 <==>
            && env.look == Sees && key in h.doc.forks
            && (h.doc.forks[key].mergedPath.Some? ==> env.mountsReadable)
            && (!NothingFound(h, key) ==> env.unmounts)
            && (Upper(key) in h.dirs ==> env.upper.Gone?)
            && (Work(key) in h.dirs ==> env.work.Gone?)
            && env.registry == NoFault
  {
    hide Printed, ExecRemove;
    if key in h.doc.forks {
      var entry := h.doc.forks[key];
      assert EntryInv(h, key);
      RemoveSucceedsExactly(h, key, entry, env);
      if Probed(h, Merged(key)) {
        RemoveSucceedsExactly(Unmounted(h, Merged(key)), key, entry, env);
      }
    }
    hide HostInv;
  }

  lemma RemoveSucceedsExactly(h: Host, key: Key, entry: ForkEntry, env: DiscardEnv)
    requires entry.upperPath == Upper(key) && entry.workPath == Work(key) && key in h.doc.forks
    ensures ExecRemove(h, key, entry, env).1 <==>
            && (Upper(key) in h.dirs ==> env.upper.Gone?)
            && (Work(key) in h.dirs ==> env.work.Gone?)
            && env.registry == NoFault
  {
  }

  // ---------------------------------------------------------------------
  // fork
  // ---------------------------------------------------------------------

  /** Over every fork, failed or not: nothing happens unless the base is seen in the registry and
      the key is not; directories that are there keep their content, and no other is made; work is
      made only with upper there, merged only with both, the overlay is mounted only with all
      three, on top of what was mounted, and the entry is written only with the overlay mounted. */
  lemma ForkInOrder(h: Host, op: Op)
    requires op.Fork?
    ensures var (t, key) := (Exec(h, op).0, op.key);
            && ((op.base !in h.doc.bases || op.fork.baseLook != Sees || op.fork.forkLook == Unreadable
                 || (op.fork.forkLook == Sees && key in h.doc.forks)) ==> Exec(h, op) == (h, false))
            && (forall p | p in h.dirs :: p in t.dirs && t.dirs[p] == h.dirs[p])
            && (forall p | p in t.dirs && p !in h.dirs ::
                  (p == Upper(key) || p == Work(key) || p == Merged(key)) && t.dirs[p] == map[])
            && (Changed(h, t, Work(key)) ==> Upper(key) in t.dirs)
            && (Changed(h, t, Merged(key)) ==> Upper(key) in t.dirs && Work(key) in t.dirs)
            && (t.mounts != h.mounts ==>
                  && Upper(key) in t.dirs && Work(key) in t.dirs && Merged(key) in t.dirs
                  && t.mounts == h.mounts[Merged(key) := Stack(h, Merged(key)) + [OverlayOf(op.base, key)]])
            && (t.doc != h.doc ==> t.mounts != h.mounts && Exec(h, op).1)
  {
    hide Apply, MadeDirs;
    MadeDirsInOrder(h, op.key, op.fork.fault);
    var before := Stack(h, Merged(op.key));
    assert |before + [OverlayOf(op.base, op.key)]| == |before| + 1;
  }

  /** The overlay's directories appear in this order. */
  lemma MadeDirsInOrder(h: Host, key: Key, fault: ForkFault)
    ensures var dirs := MadeDirs(h.dirs, key, fault);
            && (forall p | p in h.dirs :: p in dirs && dirs[p] == h.dirs[p])
            && (forall p | p in dirs && p !in h.dirs ::
                  (p == Upper(key) || p == Work(key) || p == Merged(key)) && dirs[p] == map[])
            && (Work(key) in dirs && Work(key) !in h.dirs ==> Upper(key) in dirs)
            && (Merged(key) in dirs && Merged(key) !in h.dirs ==> Upper(key) in dirs && Work(key) in dirs)
            && (!DirsFail(fault) ==> Upper(key) in dirs && Work(key) in dirs && Merged(key) in dirs)
  {
  }

  /** A fork succeeds exactly when the lookups find the base and not the key, the directories and
      the mount go well, and so do the quota, if one is asked for, and the registry; the entry then
      says what was asked for. */
  lemma ForkSucceedsExactly(h: Host, op: Op)
    requires op.Fork?
    ensures var (t, ok) := Exec(h, op);
            && (ok <==>
                  && op.fork.baseLook == Sees && op.base in h.doc.bases
                  && (op.fork.forkLook == Missed || (op.fork.forkLook == Sees && op.key !in h.doc.forks))
                  && (op.fork.fault == ForkRuns || (op.fork.fault == QuotaFails && op.quota.None?))
                  && op.fork.registry == NoFault)
            && (ok ==> t.doc == h.doc.(forks := h.doc.forks[op.key :=
                  ForkEntry(op.base, Upper(op.key), Work(op.key), Some(Merged(op.key)), op.quota,
                            if op.quota.Some? then op.mode else Soft, op.now, map[])]))
  {
    hide MadeDirs;
  }

  // ---------------------------------------------------------------------
  // mount-path and unmount
  // ---------------------------------------------------------------------

  /** Over every mount-path, failed or not: nothing happens without an entry, or when its mount is
      found or cannot be looked for; the directory is made before the bind, and the entry is
      written only with the bind in place. */
  lemma MountInOrder(h: Host, key: Key, env: MountEnv)
    requires HostInv(h)
    ensures var t := Exec(h, MountPath(key, env)).0;
            && ((env.look != Sees || key !in h.doc.forks
                 || (h.doc.forks[key].mergedPath.Some? && !env.mountsReadable)) ==> Exec(h, MountPath(key, env)) == (h, false))
            && (env.look == Sees && key in h.doc.forks && env.mountsReadable && !NothingFound(h, key) ==>
                  Exec(h, MountPath(key, env)) == (h, true))
            && (forall p | p in h.dirs :: p in t.dirs && t.dirs[p] == h.dirs[p])
            && (forall p | p in t.dirs && p !in h.dirs :: p == Merged(key) && t.dirs[p] == map[])
            && (t.mounts != h.mounts ==>
                  && Merged(key) in t.dirs
                  && t.mounts == h.mounts[Merged(key) := Stack(h, Merged(key)) + [SelfBind]])
            && (t.doc != h.doc ==> t.mounts != h.mounts)
  {
    MountRefused(h, key, env);
    hide Apply, HostInv, Printed, Shown;
    var before := Stack(h, Merged(key));
    assert |before + [SelfBind]| == |before| + 1;
  }

  lemma MountRefused(h: Host, key: Key, env: MountEnv)
    requires HostInv(h)
    ensures (env.look != Sees || key !in h.doc.forks
             || (h.doc.forks[key].mergedPath.Some? && !env.mountsReadable)) ==> Exec(h, MountPath(key, env)) == (h, false)
    ensures env.look == Sees && key in h.doc.forks && env.mountsReadable && !NothingFound(h, key) ==>
              Exec(h, MountPath(key, env)) == (h, true)
  {
    if key in h.doc.forks {
      assert EntryInv(h, key);
    }
    hide Apply, Printed;
  }

  lemma MountSucceedsExactly(h: Host, key: Key, env: MountEnv)
    requires HostInv(h)
    ensures Exec(h, MountPath(key, env)).1 <==>
            && env.look == Sees && key in h.doc.forks
            && (h.doc.forks[key].mergedPath.Some? ==> env.mountsReadable)
            && (NothingFound(h, key) ==> env.mkdir && env.mounts && env.registry == NoFault)
  {
    if key in h.doc.forks {
      assert EntryInv(h, key);
    }
    hide Printed;
  }

  /** Over every unmount, failed or not: nothing happens unless a mount is found on the recorded
      path and can be taken down; the directory goes only after that, and the entry is written only
      with both gone. */
  lemma UnmountInOrder(h: Host, key: Key, env: UnmountEnv)
    requires HostInv(h)
    ensures var t := Exec(h, Unmount(key, env)).0;
            && (env.look != Sees || key !in h.doc.forks || NothingFound(h, key) || !env.mountsReadable || !env.unmounts ==>
                  Exec(h, Unmount(key, env)) == (h, false))
            && (t != h ==>
                  && Mounts(h, Merged(key)) > 0
                  && t.mounts == h.mounts[Merged(key) := Stack(h, Merged(key))[..Mounts(h, Merged(key)) - 1]]
                  && (t.dirs == h.dirs || t.dirs == h.dirs - {Merged(key)})
                  && (t.doc != h.doc ==> Merged(key) !in t.dirs))
  {
    if key in h.doc.forks {
      assert EntryInv(h, key);
    }
    hide Printed;
  }

  lemma UnmountSucceedsExactly(h: Host, key: Key, env: UnmountEnv)
    requires HostInv(h)
    ensures Exec(h, Unmount(key, env)).1 <==>
            && env.look == Sees && key in h.doc.forks && !NothingFound(h, key)
            && env.mountsReadable && env.unmounts && (Merged(key) in h.dirs ==> env.rmdir) && env.registry == NoFault
  {
    if key in h.doc.forks {
      assert EntryInv(h, key);
    }
    hide Printed;
  }

  // ---------------------------------------------------------------------
  // Which paths are printed as they are
  // ---------------------------------------------------------------------

  predicate InPlainName(c: char) {
    'a' <= c <= 'z' || 'A' <= c <= 'Z' || '0' <= c <= '9' || c == '-' || c == '_'
  }

  /** A key of letters, digits, dashes and underscores is printed as it is; one with a space, a tab,
      a line feed or a backslash is not, and neither is one with an empty piece, "." or "..". */
  lemma PrintedKeys(key: string)
    ensures key != "" && (forall i | 0 <= i < |key| :: InPlainName(key[i])) ==> Printed(key)
    ensures ' ' in key || '\t' in key || '\n' in key || '\\' in key ==> !Printed(key)
    ensures key == "" || "." in ForkPaths.Split(key) || ".." in ForkPaths.Split(key) ==> !Printed(key)
  {
    hide ForkPaths.Split;
    var text := if ForkPaths.Absolute(key) then key[1..] else key;
    SplitAbsolute(key);
    if key != "" && (forall i | 0 <= i < |key| :: InPlainName(key[i])) {
      assert '/' !in key;
      ForkKeys.SplitPlain(key);
      assert key[0] != '.';
    }
    var pieces := ForkPaths.Split(text);
    if key == "" {
      DotsAreNotPlain(pieces, "");
    } else if "." in ForkPaths.Split(key) {
      DotsAreNotPlain(pieces, ".");
    } else if ".." in ForkPaths.Split(key) {
      DotsAreNotPlain(pieces, "..");
    }
  }

  lemma DotsAreNotPlain(pieces: ForkPaths.Components, dots: string)
    requires dots in pieces && ForkPaths.Dots(dots)
    ensures !ForkPaths.Plain(pieces)
  {
    var i :| 0 <= i < |pieces| && pieces[i] == dots;
  }

  lemma SplitAbsolute(key: string)
    ensures ForkPaths.Absolute(key) ==> ForkPaths.Split(key) == [""] + ForkPaths.Split(key[1..])
    ensures ForkPaths.Split("") == [""]
  {
  }
}
