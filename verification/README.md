# A verified model of fastenv

fastenv keeps copy-on-write forks of base directory trees with overlayfs, records them in a shared
JSON registry, boots one Firecracker VM per project, and watches programs through eBPF. This project
models the parts of it that contain an algorithm or a protocol, and proves what each of them is for.
The kernel, the disk and the network appear as small explicit states and as parameters that answer
"it worked" or "it failed".

| file | what it models |
|---|---|
| `Registry.dfy`, `RegistryProtocol.dfy`, `RegistrySchedules.dfy` | the registry's documents and closures; the locking protocol as a step relation over any number of processes, handles and threads, with failures and crashes; schedules that end badly |
| `PerfRing.dfy` | the perf ring-buffer consumer over a byte array, with the kernel appending between any two of its accesses |
| `Workspace.dfy`, `Overlay.dfy`, `BuildBase.dfy`, `ExportPatch.dfy`, `Diff.dfy`, `Du.dfy` | directory trees, the four recursive walks over them, archives and what unpacking does, the overlay view |
| `Supervisor.dfy`, `SupervisorInvariants.dfy`, `SupervisorOutcomes.dfy` | the per-project VM record and the child processes, boot, stop and destroy; what every run keeps; exactly when each operation succeeds and what it leaves |
| `ForkPaths.dfy`, `ForkKeys.dfy`, `ForkLifecycle.dfy`, `ForkOutcomes.dfy`, `Gc.dfy` | the directories that commands on a fork make and remove on the way, for any key; which keys keep out of the bases and of each other; fork, mount, unmount and discard with a failure injected at any step, the order of their steps and when they succeed; garbage collection on top of them |
| `ElfScan.dfy`, `ElfObject.dfy` | the two ELF-64 scanners and the meaning of their verdict |
| `ProjectIds.dfy`, `Sizes.dfy`, `Percentiles.dfy` | FNV-1a project ids, the size printer against the size parser, interpolated percentiles |
| `Orders.dfy`, `Bytes.dfy`, `Wrappers.dfy` | shared definitions: orders and sorting, bytes and words, `Option` and `Result` |

Code that changes things in place is imperative here too: the ring, the registry handle, the archive
builder, the diff output, the base store, the supervisor and the fork host are classes, and the loops
of the scanners, of `gc`, of the hash and of the percentile are loops. Each such method is proved
against a specification function, and the lemmas below are about those functions. A walk of a tree is
`Workspace.Walk`; what an archive does to a tree is `Overlay.Replay`; what overlayfs shows at a path is
`Overlay.View`, and for any number of layers `Overlay.ViewStack`, which are written path by path and mention
neither walks nor archives.

## What turned out not to hold as one would expect

- `src/registry.rs:9-10` says reads take a shared lock. `read_doc` (190-198) takes none. The model
  follows the code: a read is of the file that was on disk when it was opened.
- `write_doc` (201-209) never flushes its buffer: the last bytes go out when the writer is dropped, which
  ignores errors, and the temp file is renamed over registry.json even if they were lost. `read_doc` takes a
  failing stat for an absent file. So registry.json is not always the fold of the committed closures, and a
  read may hand back an empty document that never was. `RegistryProtocol.SoundExactly` gives the steps that
  do harm and `RegistryIsFoldOfCommits` lifts it to whole runs, in both directions; without a lost flush and
  without a failing stat no schedule does harm (`QuietScheduleIsSound`). `RegistrySchedules` has, from every
  initial registry, a call that reports success and leaves a torn file (`TornHappens`), which no further
  schedule repairs (`TornIsForever`), an insert that empties the registry (`BlindWriteEmpties`) and a read of
  a registry that never was (`BlindReadHappens`). Mutual exclusion and the order of commits hold whatever the
  disk does (`RegistryProtocol.MutualExclusion`).
- `fork_base` checks for the key and inserts it in two separate critical sections. When that overwrites
  somebody's entry is `RegistryProtocol.CheckThenInsertOverwrites`, in both directions, and
  `RegistrySchedules.OverwriteHappens` is a schedule from every initial registry in which it does.
- A project can have two live children. `SupervisorInvariants.OneInstanceExactly` gives the steps that lose
  sight of one, in both directions, and `ReachableOneInstance` the same over whole runs: a failed boot that
  leaves its child, a boot that is not recorded, a stop that does not reach its child, a reset of a running
  project, a destroy of ".". `ResetThenBootDoubles` and `PidWriteFailureDoubles` are runs in which every
  operation reports success and two children are alive at the end; the second involves no reset, only a PID
  file that could not be written and a guest that ignores the shutdown request.
- "." passes `validate_project_id`. An operation leaves another project's record alone exactly when it is
  not a destroy of "." that gets as far as that record (`SupervisorInvariants.IsolatedExactly`).
- A boot that fails leaves a live child exactly when it spawned one and the poll of the child failed, an API
  call was rejected, or the wait timed out and the kill had no effect
  (`SupervisorInvariants.FailedBootLeavesChild`). Nothing the supervisor does later ends that child
  (`LeftChildStays`).
- A failed operation leaves every `state.json` alone except a destroy whose removal fails half way
  (`SupervisorInvariants.FailureLeavesStore`, in both directions).
- A fork key is not validated, and `create_dir_all` makes a directory for every prefix of a path, also before
  a "..". On every disk, the commands on a key leave a tree such as a base's lower tree alone exactly when no
  prefix leads strictly inside it, it is neither at nor below the fork's upper or work directory, and it is
  not its merged one (`ForkPaths.HarmlessExactly`; over runs, `TreeNeverChanges`). Keys that never climb do
  (`ForkKeys.PlainKeysAreClear`); for every base there is a key whose fork is made in the lower tree
  (`CrossingKeyReaches`), and one whose fork is made where an ordinary key's is and which still changes the
  lower tree on the way (`DetourIsNotClear`).
- Two keys may name one directory, as "a" and "./a" do (`ForkKeys.AliasClashes`), or nest, as "a" and "a/upper"
  do (`NestedClashes`). For keys that never climb, neither fork's commands touch the other's directories
  exactly when the two do not clash in one of these ways (`ForksKeepApartExactly`); different keys of one
  ordinary component never do (`OrdinaryKeysKeepApart`).
- `is_mounted` compares a blank-separated field of /proc/mounts with the path as text. For a key with a blank, a
  backslash, a "." or an empty piece the two differ: a mounted fork cannot be unmounted, is bound once more by
  mount-path, and stays mounted over a discard (`ForkLifecycle.UnmountPossibleExactly`, `MountedAgainExactly`,
  `DiscardUnmountsExactly`, each in both directions).
- `mount-path` binds the merged directory onto itself, so it never brings an unmounted overlay back: fork,
  unmount and mount-path, all successful, leave a path that is mounted and on record and does not show the
  fork's view (`ForkLifecycle.MountShowsWhatWasThere`, in both directions, and `RemountLosesView`).
- A fork is mounted over its base's lower tree and the base's cache trees; `diff` looks only in the lower tree.
  A path that a record calls added was absent from the fork at first exactly when no cache tree shows it
  through (`Diff.RecordsAndTheView`); a file of a cache tree is there from the start without a record, and
  overwriting it is reported as adding it (`CacheFilesLookAdded`). Every change of what the fork shows is
  still reported (`EveryChangeIsReported`).
- `export-patch` fails exactly when a directory or a whiteout has a path of more than 100 bytes
  (`ExportPatch.ExportPatch`).
- `diff` reports a regular file named `.wh.x` as deleted, but it is still in the merged view
  (`Diff.MarkerFileStaysVisible`); "deleted" is true of the view exactly for 0:0 nodes.
- The host's check for an empty program can never fire (`ElfObject.EmptyProgramIsNeverReported`).
- A percentile above 100 indexes past the end (`Percentiles.DefinedExactlyWhen`).
- A failed run of `build-base` may leave a partial lower tree. A retry on the same source still ends exact
  (`BuildBase.RetriedBuildIsExact`); over foreign leftovers it succeeds with exactly the source tree just
  when nothing there is foreign in path or in kind (`Overlay.UnpackOverLeftovers`).

## Model

| member | source | states |
|---|---|---|
| Registry.RegistryHandle.WithExclusiveLock | src/registry.rs:201-225 | one call under the lock, for every outcome of lock, stat, read, temp file, last flush and rename: the file and the answer afterwards; NotFound of its key for a remove of an absent key, success of any other closure exactly when neither temp file nor rename is lost, Io otherwise |
| Registry.AnswersExactly | src/registry.rs:213-299 | what a call answers, for every file, closure and fault, on the keys of the document |
| Registry.CriticalExactly | src/registry.rs:190-225 | a call that reports failure has changed nothing; one that reports success has put the closure's result in place exactly when its last flush was not lost and, if the stat failed, the closure does the same to an empty document; after a lost flush the file is torn, after a failed stat it holds only what was inserted |
| Registry.ClosureEffect | src/registry.rs:232-299 | each closure works on its own key of its own map; an insert always succeeds and can be read back; a remove fails, with NotFound of its key, exactly when there is no entry |
| Registry.RegistryHandle.GetBase | src/registry.rs:241-247 | the entry on file, NotFound with the key asked for, also when the stat fails, or a failed read |
| Registry.RegistryHandle.GetFork | src/registry.rs:278-284 | the entry on file, NotFound with the key asked for, also when the stat fails, or a failed read |
| RegistryProtocol.StepKeepsInv | src/registry.rs:129-225 | every step of every actor that does no harm, crashes included, keeps the history of versions, what the holder knows, and what readers have seen |
| RegistryProtocol.StepKeepsLocks | src/registry.rs:129-150 | every step, harmful ones included, keeps mutual exclusion on flock and mutex and the order of commits |
| RegistryProtocol.RunKeepsLocks | src/registry.rs:213-225 | the same over every schedule of any length, for any number of processes, handles and threads |
| RegistryProtocol.MutualExclusion | src/registry.rs:213-225 | at every moment of every schedule, whatever the disk does, at most one actor is between flock and unlock, and commits are in lock-acquisition order |
| RegistryProtocol.SoundExactly | src/registry.rs:190-225 | a step keeps the registry sound (the file parses and is the fold of the commits; each document handed back is the fold of the first so many; one reader's versions never go back) exactly when it renames no torn file, none computed from an unseen registry that comes out otherwise, and answers no read with an empty document that is no version |
| RegistryProtocol.RegistryIsFoldOfCommits | src/registry.rs:190-225 | from every initial registry, the registry is sound at every moment of a schedule exactly when no step of the schedule does harm: no update is lost |
| RegistryProtocol.QuietScheduleIsSound | src/registry.rs:190-225 | without a lost flush and a failing stat every schedule is sound throughout, with crashes, failing calls and any interleaving |
| RegistryProtocol.CallsMatchCommits | src/registry.rs:213-225 | whatever the disk does, a call reported success exactly when its closure's result was renamed into place, once; a failed call left nothing |
| RegistryProtocol.NotFoundChangesNothing | src/registry.rs:255-262 | a closure that finds nothing to remove leaves file and history alone and releases both locks |
| RegistryProtocol.HistoryIsFold | src/registry.rs:201-225 | version i of registry.json is the fold of the first i commits |
| RegistryProtocol.HistoryOnlyGrows | src/registry.rs:201-209 | over every schedule, versions and commits are only appended |
| RegistryProtocol.StepKeepsReads | src/registry.rs:190-198 | every step that does no harm keeps this: an open file holds the version that was on disk when it was opened, whatever is renamed over it since, and so does every document handed back |
| RegistryProtocol.SeenNeverGoesBack | src/registry.rs:190-198 | no single step makes a reader's last version older |
| RegistryProtocol.CrashBlocksNobody | src/registry.rs:145-150 | a crash leaves registry.json as it is, frees the flock if the crashed process held it, and disables no step of any other process |
| RegistryProtocol.HolderAdvances | src/registry.rs:220-225 | every step of the flock's holder, successful or not, brings it strictly closer to the release |
| RegistryProtocol.NoDeadlock | src/registry.rs:213-225 | while some caller is part way through, some caller can take its next step, without failing unless registry.json does not parse |
| RegistryProtocol.CheckThenInsertOverwrites | src/fork.rs:88-93 | when a key was absent from the version read, the later insert meets an entry exactly when the last commit in between that touches the key inserted it |
| RegistrySchedules.OverwriteHappens | src/fork.rs:88-192 | for every initial registry and absent key, a schedule in which two clients both read without the key, both insert it and are both told of success, and the first one's entry is gone |
| RegistrySchedules.TornHappens | src/registry.rs:201-209 | for every initial registry and closure that succeeds on it, a schedule in which the call reports success and registry.json does not parse |
| RegistrySchedules.TornIsForever | src/registry.rs:190-225 | from there on, as long as no stat fails in a critical section, every schedule leaves the file torn and commits nothing more |
| RegistrySchedules.BlindWriteEmpties | src/registry.rs:190-225 | for every initial registry, an insert whose stat fails reports success and leaves nothing but its own entry |
| RegistrySchedules.BlindReadHappens | src/registry.rs:190-198 | for every initial registry that is not empty, a read hands back the empty document, which no version is |
| PerfRing.HeaderRoundTrip | src/host_ebpf.rs:1207-1214 | type and size are read back from the eight header bytes the kernel wrote |
| PerfRing.Ring.KernelAppend | src/host_ebpf.rs:1263-1268 | an append lands in front of the published tail exactly when it fits, and is dropped otherwise; no unread byte is overwritten |
| PerfRing.Ring.HeaderAligned | src/host_ebpf.rs:1193-1205 | no header straddles the end of the buffer, and an unread record is whole |
| PerfRing.Ring.HeaderInPlace | src/host_ebpf.rs:1193-1214 | the header read at the masked offset is that of the next unread record |
| PerfRing.Ring.CopyPayload | src/host_ebpf.rs:1225-1248 | the payload is the record's body, copied in one part or, across the wrap, in two with the kernel appending in between |
| PerfRing.Ring.ConsumeRecord | src/host_ebpf.rs:1193-1261 | from a valid ring exactly one record is consumed, and its body is handed over exactly if it is of type 9 and not empty; from arbitrary bytes the read head moves by the size in the header, or by 8 when that is 0 or over the ring length, which ends the pass |
| PerfRing.Ring.DrainPass | src/host_ebpf.rs:1179-1268 | a pass terminates on arbitrary ring bytes; from a valid ring it takes every record that was there and publishes the tail |
| PerfRing.Ring.Poll | src/host_ebpf.rs:1171-1276 | over any number of passes with the kernel appending at any point, what the decoder was given is the bodies of the records passed that are of type 9 and not empty, in order, each once; tail <= read_head <= data_head <= tail + length throughout; after a quiet pass none is left out |
| PerfRing.PayloadsAreSamples | src/host_ebpf.rs:1222-1251 | for every list of records, what is handed over is the bodies at a strictly increasing list of exactly the indices of its non-empty type-9 records |
| Bytes.MaskIsMod | src/host_ebpf.rs:1194 | masking by 2^k - 1 is reduction modulo 2^k |
| Workspace.WalkLists | src/export_patch.rs:118-190 | the walk lists exactly the nodes of the tree |
| Workspace.NameLessExactly | src/export_patch.rs:130-131 | names are ordered by the first byte in which they differ, a proper prefix first |
| Workspace.WalkIncreasing | src/export_patch.rs:126-131 | sorting each directory by file name lists the whole tree in component-wise path order |
| Workspace.DirectoriesFirst | src/build_base.rs:235-257 | every directory is listed before anything below it |
| BuildBase.CollectEntries | src/build_base.rs:237-257 | in whatever order directories are enumerated, each entry is collected once with its relative path |
| BuildBase.CollectionIsWalk | src/build_base.rs:212-213 | collecting and sorting by relative path gives the same list as the sorted pre-order walk |
| BuildBase.BuildTar | src/build_base.rs:204-233 | the archive is the sorted walk whatever the enumeration order; it fails exactly when the tree holds a 0:0 device, and names one |
| BuildBase.Unpack | src/build_base.rs:106-113 | members are unpacked files first and directories last, up to a clash or a disk failure; what is there then is the members so far; all are unpacked exactly when none clashes and the disk does not fail before the end |
| BuildBase.UnpackedFilesFirst | src/build_base.rs:106-113 | the files of a sorted archive are unpacked in path order before any directory, the directories in reverse path order |
| BuildBase.BaseStore.ExtractCaches | src/build_base.rs:118-160 | each known cache directory of the source is unpacked into its own tree and recorded in order; other caches are untouched; it succeeds exactly when each goes through whole |
| BuildBase.CachesAre | src/build_base.rs:56-57 | the caches extracted are npm, pip and cargo, in this order, each exactly if it is a directory in the source's directory cache |
| BuildBase.BaseStore.Build | src/build_base.rs:67-196 | a registered base is left alone; otherwise it succeeds exactly when the source holds no 0:0 device, the lower tree and every cache go through whole and no step fails; a success registers the base with its caches, and the lower tree and each cache are the archive unpacked onto what was there; a failure registers nothing and leaves the lower tree with some of the members unpacked; other bases are untouched |
| BuildBase.FirstBuildIsExact | src/build_base.rs:106-113 | unpacked into an empty directory, in the archive's order, the result is the source tree |
| BuildBase.RetriedBuildIsExact | src/build_base.rs:106-113 | however many attempts on one source failed part way, whichever members they unpacked and in whatever order, the one that goes through leaves exactly the source tree |
| Overlay.ReplayIsMerge | src/export_patch.rs:96-98 | replaying the archive member by member onto any lower tree is the overlay merge |
| Overlay.ReplayShowsOverlay | src/export_patch.rs:96-98 | at every path the replayed tree shows what the overlay of upper over lower shows: the archive carries the full delta |
| Overlay.MergeView | src/export_patch.rs:96-98 | the merge, computed directory by directory, agrees with the path-by-path overlay rule |
| Overlay.StackIsMerge | src/fork.rs:108-119 | what a stack of any number of layers shows at a path is what the merge of its layers, two at a time from the lowest up, has there |
| Overlay.UnpackRebuilds | src/build_base.rs:106-113 | unpacking into an empty directory rebuilds the tree exactly, empty directories and whiteout nodes included |
| Overlay.ArchiveDeterminesTree | src/export_patch.rs:145-185 | two trees with the same member list are the same tree |
| Overlay.UnpackSucceedsExactly | src/build_base.rs:106-113 | unpacking a whole archive, in any order, succeeds exactly when what is there has the same kind of node wherever both have a path; it then shows the archive there and the old content elsewhere |
| Overlay.UnpackAdds | src/build_base.rs:106-113 | any members, in any order, add themselves and their ancestors and change nothing else |
| Overlay.UnpackOverLeftovers | src/build_base.rs:106-113 | unpacking over an existing directory succeeds with exactly the source tree just when nothing there is foreign, in path or in kind |
| ExportPatch.AppendDirRecursive | src/export_patch.rs:118-190 | the recursion appends the sorted walk of its directory, paths relative to the upper root, up to the first directory or whiteout whose path exceeds 100 bytes, and fails exactly when there is one |
| ExportPatch.AppendUpperToTar | src/export_patch.rs:98-114 | the archive is the walk of the upper tree, cut off there; empty when it was never created |
| ExportPatch.ExportPatch | src/export_patch.rs:48-114 | the export succeeds exactly when every directory and whiteout path has at most 100 bytes; the members, replayed on the layers the fork is mounted over, then give the view of the whole stack at every path, and unpacked alone give back the upper tree |
| Diff.WalkUpper | src/diff.rs:121-177 | the records are those of the exported members in order, without what lies below a ".wh."-named directory |
| Diff.ReportEntry | src/diff.rs:148-174 | one entry's record and, below an unmarked directory, those of its entries |
| Diff.DiffFork | src/diff.rs:77-114 | the whole command: an unknown fork, a missing base, a failed read and an unseen registry each end it before the walk; nothing is reported when the upper directory was never created |
| Diff.DiffOfHas | src/diff.rs:148-174 | a record is reported exactly for the members below no ".wh." directory, with its classification |
| Diff.RecordsInOrder | src/diff.rs:130-137 | the records come in path order, one for each path |
| Diff.MarkerIs | src/diff.rs:148-150 | a name counts as a marker exactly when its first four bytes are ".wh." |
| Diff.EveryChangeIsReported | src/diff.rs:121-177 | for any cache trees below the base: wherever the fork shows something else than it did at first, that path or an ancestor of it is reported |
| Diff.RecordsAndTheView | src/diff.rs:87-158 | added is true of the fork's first view exactly when no cache tree shows the path through the lower tree, modified exactly when the lower tree does not delete it, deleted of its view now exactly for 0:0 nodes; deleted is reported for 0:0 nodes and ".wh." names only |
| Diff.CacheFilesLookAdded | src/diff.rs:87-158 | for every path that a cache tree shows through: the fork has it with nothing written and nothing reported, and a file written over it is reported added |
| Diff.MarkerFileStaysVisible | src/diff.rs:148-150 | a file named ".wh.x" is reported deleted and is in the merged view |
| Du.WalkDir | src/du.rs:147-171 | the running total grows by the bytes of the archive's regular files below the directory |
| Du.WalkUpperBytes | src/du.rs:137-145 | the usage of a fork is the number of file bytes its exported archive carries |
| Du.EnumerationOrderIrrelevant | src/du.rs:147-171 | the total is the same for every enumeration order |
| Supervisor.WaitForSocket | src/host_control_plane.rs:829-868 | at most timeout/100 ms + 1 sleeps; every look but the last found nothing, and was followed by a sleep only while less than the timeout had been slept; the last one is the outcome, a timeout only after the whole timeout |
| Supervisor.WaitForExit | src/host_control_plane.rs:782-790 | at most timeout/200 ms + 1 sleeps, the socket there at every look before, and each sleep begun before the timeout; the wait ends earlier only when the socket is gone; whether it is there at one more look |
| Supervisor.WaitExactly | src/host_control_plane.rs:829-868 | the outcome of the wait is that of the first look that finds something or comes when the timeout has been slept |
| Supervisor.BootSucceedsExactly | src/host_control_plane.rs:626-753 | a boot succeeds exactly when each pre-flight step and the spawn go well, the socket is seen at a look that the wait makes, and all four calls are accepted |
| Supervisor.StillThereExactly | src/host_control_plane.rs:782-790 | whether a stop finds the socket lingering is one look after the first at which the socket is gone or the timeout has been slept |
| Supervisor.RetainSecrets | src/host_control_plane.rs:383-397 | the leases with another name, in order |
| Supervisor.RetainArtifacts | src/host_control_plane.rs:399-437 | the artifacts with another name, in order |
| Supervisor.ProjectVmSupervisor.PersistRecord | src/host_control_plane.rs:1039-1065 | the record is written under the id it carries, with a new update time, or nothing is |
| Supervisor.ProjectVmSupervisor.ProvisionProjectVm | src/host_control_plane.rs:275-294 | creates a record or refreshes kernel, seed data and policy of the one there |
| Supervisor.ProjectVmSupervisor.BootFirecracker | src/host_control_plane.rs:626-753 | what was spawned, asked and killed, in order, which child is alive afterwards, who has the socket and what the PID file names, for every combination of outcomes |
| Supervisor.ProjectVmSupervisor.AwaitSocket | src/host_control_plane.rs:829-868 | a child that is seen to have exited, or is killed after a timeout, is gone; one whose poll failed is not |
| Supervisor.ProjectVmSupervisor.DriveApi | src/host_control_plane.rs:681-723 | the four API calls in order, up to the first one rejected |
| Supervisor.ProjectVmSupervisor.StopFirecracker | src/host_control_plane.rs:769-814 | a shutdown request, a bounded wait and, if the socket is still there and the PID file can be read, a kill of the process it names; which children that ends; no failure is ever reported |
| Supervisor.ProjectVmSupervisor.TransitionVmState | src/host_control_plane.rs:324-368 | the whole effect of each transition, accepted or refused |
| Supervisor.ProjectVmSupervisor.AttachNetworkPolicy | src/host_control_plane.rs:370-381 | only the policy of this project changes |
| Supervisor.ProjectVmSupervisor.Inject | src/host_control_plane.rs:383-397 | the lease replaces the one of its name and goes last |
| Supervisor.ProjectVmSupervisor.Collect | src/host_control_plane.rs:399-437 | the artifact replaces the one of its name and goes last; a blank name is refused |
| Supervisor.ProjectVmSupervisor.LoadHostEbpfPolicy | src/host_control_plane.rs:439-475 | the policy is recorded only after its program was loaded |
| Supervisor.ProjectVmSupervisor.DestroyProjectVm | src/host_control_plane.rs:487-511 | refused while Running; removes the project's directory, all of them for ".", or fails part way |
| SupervisorInvariants.RunKeepsStore | src/host_control_plane.rs:383-417 | every run keeps this: each record is under its own valid id, has its derived paths, and has pairwise distinct secret and artifact names |
| SupervisorInvariants.ReachableStore | src/host_control_plane.rs:383-417 | it holds after every run from an empty store |
| SupervisorInvariants.LatestSecretWins | src/host_control_plane.rs:383-397 | the lease injected last is the one on record for its name, and the others stay |
| SupervisorInvariants.LatestArtifactWins | src/host_control_plane.rs:399-437 | the artifact collected last is the one on record for its name, and the others stay |
| SupervisorInvariants.StepKeepsIdentity | src/host_control_plane.rs:275-294 | a record keeps its creation time, paths and id; provisioning again keeps state, secrets and artifacts |
| SupervisorInvariants.IdentityIsFixed | src/host_control_plane.rs:513-550 | over every run, creation time and paths are fixed from creation to destroy |
| SupervisorInvariants.FailureLeavesStore | src/host_control_plane.rs:487-511 | a failed operation leaves every state.json as it was exactly when it is not a destroy whose removal lost some |
| SupervisorInvariants.WritesOneRecord | src/host_control_plane.rs:1039-1065 | every operation but destroy writes at most its own project's record |
| SupervisorInvariants.IsolatedExactly | src/host_control_plane.rs:487-511 | an operation on one project leaves another's record as it was exactly when it is not a destroy of "." that reaches that record |
| SupervisorInvariants.OtherChildrenStay | src/host_control_plane.rs:626-814 | no operation on one project starts or ends a child of another |
| SupervisorInvariants.ProjectsAreIsolated | src/host_control_plane.rs:487-511 | record and children of another project together, in both directions |
| SupervisorInvariants.DestroyingDotRemovesOthers | src/host_control_plane.rs:993-1003 | "." is accepted as a project id, and destroying it removes another project exactly when the removal reaches that project's record |
| SupervisorInvariants.RunKeepsLog | src/host_control_plane.rs:626-753 | over every run, a record becomes Running from another state only right after spawn, boot-source, drives/rootfs, machine-config and InstanceStart succeeded in that order; Stopped follows Running only |
| SupervisorInvariants.ReachableLog | src/host_control_plane.rs:626-753 | the same for every run from an empty store |
| SupervisorInvariants.RunningOnlyByBoot | src/host_control_plane.rs:324-368 | the recorded state becomes Running only through a successful boot, and Stopped only from Running; a new record is Provisioned |
| SupervisorOutcomes.SucceedsExactly | src/host_control_plane.rs:275-511 | exactly when each operation reports success, in the answers of disk, process, socket and API |
| SupervisorOutcomes.HealthyBootRuns | src/host_control_plane.rs:829-868 | a spawned child whose socket appears before the timeout is not given up: the project ends Running with that child alive |
| SupervisorOutcomes.PidFileAfterBoot | src/host_control_plane.rs:725-743 | the socket belongs to the new child, and the PID file names it after a boot that succeeded and wrote it, and is as it was after one that failed |
| SupervisorOutcomes.StopEndsExactly | src/host_control_plane.rs:769-814 | which child a stop ends: the socket's owner when the socket goes and it with it; when the socket lingers, the one the PID file names, if it can be read and the kill works |
| SupervisorOutcomes.WritesAreStamped | src/host_control_plane.rs:1039-1065 | every record written carries the time of the write, and a new one the same time as its creation |
| SupervisorOutcomes.DestroyExactly | src/host_control_plane.rs:487-511 | a running project is left alone; another loses its record exactly when the removal reaches it; no child is touched |
| SupervisorOutcomes.AcceptedIdsStayBelow | src/host_control_plane.rs:985-1003 | the directory of an accepted id lies directly below the one for all projects, except that of ".", which is that one |
| SupervisorOutcomes.RefusedIdsExactly | src/host_control_plane.rs:993-1003 | an id is refused exactly when it is blank or contains a slash, a backslash or two dots in a row |
| SupervisorInvariants.LiveAfterRun | src/host_control_plane.rs:626-814 | over every run, exactly which children are alive at the end: those alive at first or booted at some step and alive after it, which no later stop reached and which did not go by themselves |
| SupervisorInvariants.LeftChildStays | src/host_control_plane.rs:659-723 | over every run, a child out of sight is never ended by the supervisor |
| SupervisorInvariants.LeftOutOfSight | src/host_control_plane.rs:659-723 | a failed boot that leaves a child leaves it out of sight |
| SupervisorInvariants.OneInstanceExactly | src/host_control_plane.rs:324-368 | a step keeps "at most one live child per project, the one with the socket, only while Running" exactly when it is none of the five that lose a child |
| SupervisorInvariants.RunKeepsOneInstance | src/host_control_plane.rs:324-368 | the property holds at every moment of a run exactly when no step of the run loses a child |
| SupervisorInvariants.ReachableOneInstance | src/host_control_plane.rs:324-368 | the same for every run from an empty store, with the count of live children at most one |
| SupervisorInvariants.ResetThenBootDoubles | src/host_control_plane.rs:359-362 | resetting a running project to Provisioned and booting it again leaves two live children |
| SupervisorInvariants.UnkillableStop | src/host_control_plane.rs:786-813 | a stop that the guest ignores, with no PID file, reports success, records Stopped and ends nothing |
| SupervisorInvariants.UnkillableThenBootDoubles | src/host_control_plane.rs:786-813 | so that a boot after it leaves two live children |
| SupervisorInvariants.PidWriteFailureDoubles | src/host_control_plane.rs:725-743 | from any project that is not running, a boot whose PID file is not written, a stop the guest ignores and a boot leave two live children |
| ForkLifecycle.ForkHost.ForkBase | src/fork.rs:70-207 | the whole effect on registry, directories and mounts, whichever step fails and whether or not the lookups see the registry |
| ForkLifecycle.ForkHost.DiscardFork | src/discard.rs:47-129 | unmount, if the probe finds the mount, upper, work, merged, registry, in that order, stopping at the first failure |
| ForkLifecycle.ForkHost.MountFork | src/mount_path.rs:70-163 | nothing when the probe finds a mount; otherwise directory, mount, registry, whichever step fails |
| ForkLifecycle.ForkHost.UnmountFork | src/mount_path.rs:172-226 | refused unless the probe finds a mount; unmount, remove the mount point, registry, whichever step fails |
| ForkLifecycle.UnmountPossibleExactly | src/mount_path.rs:183-188 | a fork on record and mounted can be unmounted exactly when its path is printed in /proc/mounts as it is |
| ForkLifecycle.MountedAgainExactly | src/mount_path.rs:81-97 | mount-path leaves a mounted fork as it is exactly then, and otherwise stacks one more bind |
| ForkLifecycle.DiscardUnmountsExactly | src/discard.rs:58-71 | a successful discard of a mounted fork takes its top mount off exactly then, and otherwise leaves the mounts as they were |
| ForkOutcomes.RefusedUnmountChangesNothing | src/discard.rs:58-71 | a discard that cannot read the mounts, or cannot take down the one it finds, fails with everything as it was |
| ForkOutcomes.DiscardInOrder | src/discard.rs:47-129 | over every discard, failed or not: directories are touched only once the mount is down or none was found, work only once upper is gone, merged and the entry only once both are; no other mount changes |
| ForkOutcomes.DiscardSucceedsExactly | src/discard.rs:47-129 | exactly when a discard reports success |
| ForkOutcomes.ForkInOrder | src/fork.rs:80-192 | over every fork, failed or not: existing directories keep their content; work is made after upper, merged after both, the overlay mounted after all three, the entry written after the mount |
| ForkOutcomes.ForkSucceedsExactly | src/fork.rs:80-192 | exactly when a fork reports success, and the whole entry it then writes |
| ForkOutcomes.MountInOrder | src/mount_path.rs:70-163 | over every mount-path, failed or not: refused without an entry or readable mounts, nothing to do when the mount is found; otherwise directory, then bind, then entry |
| ForkOutcomes.MountSucceedsExactly | src/mount_path.rs:70-163 | exactly when a mount-path reports success |
| ForkOutcomes.UnmountInOrder | src/mount_path.rs:172-226 | over every unmount, failed or not: nothing happens unless a mount is found and taken down; then the directory, then the entry |
| ForkOutcomes.UnmountSucceedsExactly | src/mount_path.rs:172-226 | exactly when an unmount reports success |
| ForkOutcomes.PrintedKeys | src/mount_path.rs:233-244 | keys of letters, digits, dashes and underscores are found by the probe; keys with a space, tab, line feed or backslash, or with an empty, "." or ".." piece, are not |
| ForkLifecycle.EntryRemovedOnlyWhenDirsGone | src/discard.rs:83-119 | an entry leaves the registry only through a successful discard of its fork, at a moment when its upper and work directories are gone |
| ForkLifecycle.DiscardDropsEntry | src/discard.rs:47-129 | a discard removes the entry and both directories, or leaves the registry as it was |
| ForkLifecycle.RunKeepsHost | src/mount_path.rs:143-146 | over every run each entry keeps its own upper and work paths and its merged path is its own or absent |
| ForkLifecycle.StepStaysInItsFork | src/fork.rs:95-192 | no command touches another key's entry or any directory that is not one of its own key's |
| ForkLifecycle.BasesNeverChange | src/fork.rs:95-192 | over every run, base entries and lower trees never change |
| ForkLifecycle.RunLeaksOnlyDebris | src/fork.rs:95-192 | over every run, an upper or work directory without an entry belongs to a key whose fork command failed |
| ForkLifecycle.ReachableHost | src/fork.rs:95-192 | both of these for every run from a host on which nothing was forked |
| ForkPaths.CreateAllAdds | src/fork.rs:101-106 | whatever it ends with, create_dir_all creates nothing but directories that prefixes of the path lead to |
| ForkPaths.CreateAllExactly | src/fork.rs:101-106 | when it succeeds, the directory that every prefix of the path leads to is there, and nothing else is new |
| ForkPaths.HarmlessExactly | src/fork.rs:95-106 | for every root, key and tree: on every disk, whatever it refuses, and for every directory that fork, mount-path, unmount and discard make or remove, complete or not, the tree is unchanged exactly when the key is clear of it |
| ForkPaths.TreeNeverChanges | src/discard.rs:73-109 | over every run of commands on keys that are clear of a tree, the tree never changes |
| ForkKeys.PlainKeysAreClear | src/fork.rs:95-106 | keys that are not absolute and have no ".." are clear of the lower tree of every such base, whatever the root |
| ForkKeys.CrossingKeyReaches | src/fork.rs:95-106 | for every root and base there is a fork key whose directory is the lower tree |
| ForkKeys.DetourIsNotClear | src/fork.rs:101-106 | for every root and base there are fork keys whose own directory is that of an ordinary key and whose directories on the way change the lower tree |
| ForkKeys.MeetExactly | src/fork.rs:95-99 | two forks share a path exactly when they have one directory or one has its own below a part of the other |
| ForkKeys.LeavesAloneExactly | src/fork.rs:95-106 | the commands on one key leave the three directories of another fork alone exactly when the key is clear of each of them |
| ForkKeys.ForksKeepApartExactly | src/fork.rs:95-106 | for keys that never climb: neither fork's commands touch the other's directories exactly when the two do not clash |
| ForkKeys.OrdinaryKeysKeepApart | src/fork.rs:95-99 | different keys of one ordinary component each never clash |
| ForkKeys.AliasClashes | src/fork.rs:95-99 | a key and the same key after "./" have one directory |
| ForkKeys.NestedClashes | src/fork.rs:95-99 | a key followed by "/upper" has its directory at the upper directory of the key |
| ForkKeys.AbsoluteKeysIgnoreTheRoot | src/fork.rs:96-99 | an absolute key replaces the data root: its fork lies wherever the key leads from the root of the file system |
| ForkLifecycle.ForkShowsView | src/fork.rs:108-141 | a fork that succeeds shows its overlay on the merged path |
| ForkLifecycle.MountThenUnmount | src/mount_path.rs:70-226 | mounting a fork with no recorded merged path and unmounting it restores the registry and every stack of mounts |
| ForkLifecycle.MountShowsWhatWasThere | src/mount_path.rs:106-141 | after a successful mount-path the merged path shows the fork's overlay exactly when it did before |
| ForkLifecycle.ViewNeverComesBack | src/mount_path.rs:106-141 | over every run without a fork of that key, a merged path that does not show the overlay never shows it again |
| ForkLifecycle.RemountLosesView | src/mount_path.rs:106-141 | fork, unmount and mount-path, all successful, leave a merged path that is mounted and on record and does not show the fork's view |
| ForkLifecycle.RetryReachesSameState | src/discard.rs:47-129 | retrying a failed discard until it succeeds reaches the same registry and the same directories, but for the fork's own mount point, as one that succeeds at once |
| Gc.ForksWithTime | src/gc.rs:76-82 | the forks with a parseable time, once each, in any order |
| Gc.AgedForksComeFirst | src/gc.rs:88-98 | in the list sorted by time the forks at or over the age limit are a prefix, ties and future times included |
| Gc.ExpiredForks | src/gc.rs:88-98 | the keys of that prefix: exactly those whose age has reached the limit |
| Gc.SurplusForks | src/gc.rs:100-110 | the keys followed, themselves included, by more candidates than are to be kept |
| Gc.SelectEvictions | src/gc.rs:75-117 | the eviction list is a prefix of the forks sorted by time; a fork is on it exactly when its age has reached the limit or more forks than max_forks stand at its position or later |
| Gc.WithoutAgeLimit | src/gc.rs:100-110 | without an age limit the list has as many forks as there are over max_forks, and none otherwise |
| Gc.EvictAll | src/gc.rs:130-161 | every candidate is attempted in order whatever the outcomes, and the bytes of all attempted ones are summed |
| Gc.EvictRunSettles | src/gc.rs:130-161 | each evicted fork is gone with its directories, each failed one keeps its entry, the rest is untouched |
| Gc.EvictedExactly | src/gc.rs:130-161 | whatever the other discards come to, a fork on the list is reported evicted exactly when its own discard goes through: entry read, mount taken down if found, both directories gone, registry written |
| Gc.SurvivorsBounded | src/gc.rs:100-110 | after the loop the forks with a parseable time are those before it, less the evicted ones |
| Gc.SurvivorsAre | src/gc.rs:130-161 | and they are exactly those forks |
| Gc.SweepIsSafe | src/gc.rs:75-161 | at most max_forks plus the failures remain; no survivor left off the list is older than an evicted fork; unparseable times are never attempted |
| Gc.RunGc | src/gc.rs:68-172 | all of it for one run; what is listed and what is evicted, in both directions; without an age limit exactly the surplus is listed; a failed listing ends it, an unseen registry or a dry run changes nothing; bytes_reclaimed is the sum over attempted candidates, and over the evicted ones when none fails |
| ElfScan.LoadBpfObjectFile | src/host_ebpf.rs:210-313 | the host's scan of any byte string gives the verdict, errors and panics included |
| ElfScan.ScanTable | src/host_ebpf.rs:254-288 | the host's loop over the section table |
| ElfScan.LoadBpfBytesFromElf | src/guest_ebpf.rs:651-715 | the guest's scan of any byte string, before the loader's checks |
| ElfScan.LoadGuestBpfProg | src/guest_ebpf.rs:554-577 | the guest's scan and its size checks give the host's verdict without the hint, for every byte string: same instructions, same license, same error, same panics |
| ElfScan.NameListsAgree | src/guest_ebpf.rs:757-776 | the two lists of program section names accept the same names |
| ElfScan.TakeAllMeans | src/host_ebpf.rs:276-287 | scanning one section after another ends with the first candidate in the file, the last license, and the hint of the chosen section, and panics exactly on the ends that overflow |
| ElfScan.ScanIsTakeAll | src/host_ebpf.rs:254-288 | scanning entry by entry is listing the sections and then taking them one by one |
| ElfScan.Chosen | src/host_ebpf.rs:283-287 | the index of the first in-bounds candidate, or the length when there is none |
| ElfScan.TrimNuls | src/host_ebpf.rs:279-282 | the longest prefix that does not end in a NUL, with only NULs after it |
| ElfScan.UpToNul | src/host_ebpf.rs:348-357 | the longest prefix without a NUL |
| ElfObject.ObjectRoundTrip | src/host_ebpf.rs:210-313 | for every program section name, program and license, the object file laid out with them is read back as exactly that program and license, with the hint of the name |
| ElfObject.AcceptedExactlyWhen | src/host_ebpf.rs:290-312 | a file is accepted exactly when its sections can be listed without a panic and its first in-bounds candidate is a whole number of instructions of at most 4 MiB |
| ElfObject.AcceptedProgram | src/host_ebpf.rs:276-287 | the bytes, license and hint of an accepted file |
| ElfObject.HeaderFaultsExactly | src/host_ebpf.rs:214-247 | which of the five header errors a file gets, exactly, on its bytes |
| ElfObject.ProgramFaultsExactly | src/host_ebpf.rs:290-310 | for a file whose sections can be listed: no program without a candidate in the file; the first candidate is refused if it is not a multiple of 8 bytes, then if it is over 4 MiB, and accepted otherwise |
| ElfObject.EntryUsedExactly | src/host_ebpf.rs:254-274 | a table entry is skipped exactly unless its bytes say PROGBITS, address 0, and an offset and size other than 0 |
| ElfObject.LicenseIsLast | src/host_ebpf.rs:276-282 | the license is the text of the last license section, "GPL" when there is none |
| ElfObject.LicenseTextIs | src/host_ebpf.rs:276-282 | that text is the section's bytes without trailing NULs, "GPL" if they are not UTF-8, nothing if they are not in the file |
| ElfObject.KnownTrafficControl | src/host_ebpf.rs:359-395 | traffic-control section names are programs with their hint |
| ElfObject.KnownTracepoint | src/host_ebpf.rs:359-395 | so are tracepoint names |
| ElfObject.KnownProbes | src/host_ebpf.rs:359-395 | so are probe names |
| ElfObject.KnownWithoutHint | src/host_ebpf.rs:359-395 | XDP, message, socket, raw tracepoint and text sections are programs without a hint |
| ElfObject.OthersIgnored | src/host_ebpf.rs:359-395 | a name that starts with none of the letters of those is passed over |
| ElfObject.EmptyProgramIsNeverReported | src/host_ebpf.rs:293-295 | no byte string makes the host report an empty program |
| ElfObject.ChecksOnlyAddPanics | src/host_ebpf.rs:254-264 | a build with overflow checks gives the verdict of a build without, or panics |
| ProjectIds.AllocProjectId | src/quota.rs:262-271 | the clamped fold of the key's bytes, at least 2 |
| ProjectIds.KnownVectors | src/quota.rs:262-268 | the hashes of the empty key and of "a" are the values published in draft-eastlake-fnv |
| ProjectIds.FoldInverts | src/quota.rs:265-268 | for every fixed byte suffix the fold is a bijection on 32-bit states, with the inverse written out |
| ProjectIds.SuffixPreservesCollisions | src/quota.rs:265-268 | two keys with a common suffix collide exactly when what comes before does |
| ProjectIds.OneByteApart | src/quota.rs:262-271 | keys of one length that differ in exactly one byte never share a raw hash |
| ProjectIds.IdsOneByteApart | src/quota.rs:269-270 | their ids are equal exactly when both raw hashes are at most 2 |
| ProjectIds.EveryHashHasOneStart | src/quota.rs:262-271 | for a fixed key every result has exactly one starting state |
| ProjectIds.PrimeInverts | src/quota.rs:267 | multiplying by 16777619 and by 899433627 modulo 2^32 undo each other |
| Sizes.PrintedParses | src/du.rs:181-198 | the parser accepts every printed size, and reads its number times its unit, rounded and saturated |
| Sizes.PrintThenParse | src/quota.rs:47-84 | printing then parsing is exact below 1024 and otherwise off by at most a twentieth of the printed unit plus one half, carries and saturation included |
| Sizes.StaysInUnit | src/du.rs:187-197 | what is read back is at least its own unit and at most the next |
| Sizes.OrderKept | src/du.rs:181-198 | printing then parsing never swaps two sizes, not even across a change of unit |
| Sizes.WholeUnitsPrinted | src/du.rs:181-198 | how every whole number of bytes, KiB, MiB, GiB and TiB is printed |
| Sizes.FractionsPrinted | src/du.rs:187-197 | one decimal, ties to the even digit |
| Sizes.ParseFaultsExactly | src/quota.rs:49-80 | which sizes are refused and how: no number at the start, nothing but points or two of them, an unknown suffix |
| Sizes.BlanksIgnored | src/quota.rs:48 | white space around a size makes no difference |
| Sizes.NumberLength | src/quota.rs:50-53 | the number is the longest prefix of digits and points |
| Percentiles.Percentile | src/bench.rs:650-669 | the samples are left sorted, a permutation of what they were, and the result is the interpolated value of the sorted samples |
| Percentiles.LinearBetweenSamples | src/bench.rs:659-668 | percentiles are linear between neighbouring samples, stay at the first one below 0, and are 0 without samples |
| Percentiles.OrderIrrelevant | src/bench.rs:654 | the result depends only on the multiset of samples |
| Percentiles.DefinedExactlyWhen | src/bench.rs:659-668 | the result exists exactly when p is at most 100 or there is at most one sample; otherwise the index is out of range |
| Percentiles.Monotone | src/bench.rs:659-668 | a larger p never gives a smaller value, within and across interpolation cells |
| Percentiles.BetweenExtremes | src/bench.rs:659-668 | the value lies between the smallest and the largest sample, which are the 0th and the 100th percentile |
| Percentiles.ReportedInOrder | src/bench.rs:650-669 | p50 <= p95 <= p99 for every sample |

## Left out

Assumptions of the model:

- Trees hold directories, regular files and 0:0 character nodes: no symlinks, modes, owners, times, other devices or opaque-directory xattrs.
- Trees do not change while a walk reads them, and the read-only walks do not fail half way.
- `f64` values are exact: sizes are rationals rounded where the code rounds, percentiles are reals without NaN.
- Byte totals and the ring's 64-bit heads do not overflow.
- The ring's header is decoded little-endian, which is the native order of the supported hosts; of the eight bytes a header read may touch past the mapping nothing is assumed.
- The kernel writes records as `PerfRing.Ring.KernelAppend` does: 8-byte aligned, at most the ring long, never past the published tail plus the ring length.
- The stop signal of the polling loop is the number of passes it makes.
- Registry mutexes are not poisoned. A document that lost its last bytes does not parse, and a read of it fails. Power loss and fsync are not modelled: what was renamed stays.
- Binding a directory onto itself shows what the directory showed before; an unmount takes the top mount off.
- In `ForkLifecycle.dfy` the directories of different keys are different places; `ForkKeys.OrdinaryKeysKeepApart` says this of keys that are single path components, and `ForkPaths.dfy` and `ForkKeys.dfy` what other keys do.
- The data root is a path of names as the kernel prints it, without blanks and symlinks; in `ForkPaths.dfy` mounts on the way of a path are not looked through, and the data root is not inside the tree in question.
- In `ForkLifecycle.dfy` the registry call at the end of a command may fail in every way that it notices; what a lost flush or a failing stat in it does to the registry is `RegistryProtocol.SoundExactly`.
- Supervisor operations on one project run one after another. The code loads, changes and writes state.json with no lock (src/host_control_plane.rs:324-437), so two processes at once could lose an update or boot twice; such interleavings are not modelled.
- A PID file names the child it was written for: process ids are not reused. The test whether state.json exists is taken at its word.
- The tar library unpacks files as they come and directories last, and refuses to replace a directory by a file or a file by a directory.
- Sleeps take at least as long as asked.

Not modelled:

- The system calls themselves (bpf, perf_event_open, mmap, mount, ioctl, waitpid, flock), curl, tc, kill and process spawning: only their outcomes appear.
- gzip, SHA-256, tar headers and JSON text: an archive is a list of members, a document a map.
- `decode_policy_event` (src/host_ebpf.rs): a fixed-offset field decoder; the ring hands it payloads.
- `parse_duration` (src/gc.rs), `parse_attach_point`, tracing, the CLI and the boundary traits: straight-line code.
- `minimal_pass_program` (src/guest_ebpf.rs:144-156), the case of a guest loader without an object file: a constant.
- `src/exec.rs`: straight-line construction of a configuration and a filter over leases.
- eBPF detach and reload bookkeeping: best effort in the code.

Stated weaker, or in another form, than the code:

- ForkLifecycle.RetryReachesSameState: says nothing of the fork's own merged mount point, because the code removes it on a best-effort basis and ignores the outcome; and is for keys whose directories do not clash with another's.
- ForkLifecycle.ForkHost.ForkBase: the insert at the end is without a lost flush and a failing stat, which the command does not notice; so for the other three commands.
- ForkLifecycle.ForkHost.DiscardFork: as for ForkBase.
- ForkLifecycle.ForkHost.MountFork: as for ForkBase.
- ForkLifecycle.ForkHost.UnmountFork: as for ForkBase.
- ForkLifecycle.BasesNeverChange: for keys whose places are their own; the statement for all keys, on directories, is `ForkPaths.TreeNeverChanges`, and which keys it is about is `ForkPaths.HarmlessExactly`.
- ForkLifecycle.StepStaysInItsFork: for keys whose directories do not clash; exactly which do is `ForkKeys.ForksKeepApartExactly`.
- ForkLifecycle.EntryRemovedOnlyWhenDirsGone: as for StepStaysInItsFork; of two keys that clash, discarding one removes directories of the other while its entry stays.
- ForkLifecycle.RunLeaksOnlyDebris: as for StepStaysInItsFork.
- ForkKeys.ForksKeepApartExactly: for keys that never climb; for other keys the exact condition is `ForkKeys.LeavesAloneExactly`, which looks at every prefix of their paths.
- SupervisorInvariants.IsolatedExactly: for ids as the validation accepts them; only provisioning validates, so an operation on another spelling of a directory, such as "./a", is not covered.
- Supervisor.ProjectVmSupervisor.DestroyProjectVm: an id that is not on record under that spelling is treated as absent, although "./a" would reach the directory of "a".
- Supervisor.ProjectVmSupervisor.LoadHostEbpfPolicy: the handle, pin path and load time that the loader reports are a parameter.
- Gc.RunGc: takes commands one after another; another process changing forks while gc runs is not modelled.
- RegistryProtocol.NoDeadlock: progress of some caller, not fairness to each one; flock and mutex promise no order.
- Diff.DiffFork: records carry the path as bytes; the lossy conversion to text for output is not modelled.
- Workspace.WalkLists: trees are values here, so that aliasing through hard links is not captured.
