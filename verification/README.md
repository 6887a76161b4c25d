# husk, verified

husk is a container runtime without a daemon. Every command is a process of its own; what commands know
of each other they learn from files, pipes and the kernel. This project models the logic around those
and proves what it guarantees, over all inputs, all interleavings and all points of failure.

`dafny verify dfyconfig.toml` checks everything.

## What is modelled

The start protocol is a set of state machines whose actions are single steps of the source or of the
environment: a process may die between any two of them.

- **Handshake** and **Ipc**: the runtime and `husk init` over two crossed pipes, from clone to launch.
  A pipe is its log and its open ends; a writer that dies inside a write leaves a fragment that reads as
  an end of file.
- **Rendezvous**: the exec FIFO, with any number of `husk start` processes. The kernel's part follows
  fifo(7): a writer blocked in open counts as a writer, a non-blocking read without data is end of file
  or EAGAIN depending on whether there is one, a write without readers is EPIPE.
- **StateFile**: temp file, sync, rename, deferred removal, at the level of names and inodes.
- **Lifecycle**: recorded status, observations by Load and Refresh, kill and delete. It follows section
  "Lifecycle" of `runtime.md` in the OCI Runtime Specification 1.2.0. A save is the single step in which
  it takes effect, the rename (`StateFile.SaveIsAtomic`). A start may get its byte at any time here.
- **Refinement**: every run of Rendezvous, seen without the FIFO, is a run of Lifecycle.

The rest is sequential, or one state machine each:

- **Seccomp** and **SyscallPolicy**: the BPF assembler against an interpreter of its output, and the way
  from settings or an OCI section to the installed filter.
- **LayerText**, **Overlay**, **Commit**: the text encodings of a layer stack; layers as maps from paths
  to entries, the kernel's lookup from the top down against the fold from the bottom up; copying,
  committing and remounting.
- **Ipam**, **IpamRace**: the allocator's 32-bit arithmetic run alone, and its lease directory under
  interleaved operations and crashes.
- **Packets**, **Netfilter**, **Launch**: what the options of a rule say of a packet, as in iptables(8) and
  iptables-extensions(8); rule lists; and everything a launch acquires on the host, with the step that
  fails as a parameter.
- **Capabilities**: the five sets of a thread under prctl, capset, uid changes and the section
  "Transformation of capabilities during execve()" of capabilities(7).
- **Pid1**: the shim's signal loop, coalescing SIGCHLD and a 64-slot channel.
- **SafeJoin**: `filepath.Clean` and `filepath.Join` on slashes, for absolute and relative paths, and the
  prefix test.

## Where the code does not keep its promise

Each of these has a lemma with a run or input that shows it, and where there is one, the exact condition
under which the promise holds.

- `husk start` may overtake init on its way to the FIFO. The architecture document says that start's open
  then blocks; the code opens without blocking, reads end of file and reports that init exited
  (`Rendezvous.EarlyStartIsRefused`). A later start can still succeed (`Rendezvous.StillStartable`), and
  once init is blocked in its open no start is refused before one has the byte, as long as nobody quits
  or kills (`Rendezvous.NoRefusalOnceBlocked`).
- A start that goes away after releasing init and before init writes takes init down with EPIPE
  (`Rendezvous.AbandonedStartKillsInit`). Init dies by itself only when its last holder quits in between
  (`Rendezvous.OnlyQuittingAbandons`, `Rendezvous.DeathMeansAbandoned`), and can still launch if and only
  if somebody holds the FIFO (`Rendezvous.LaunchNeedsAHolder`).
- A start that dies with the byte leaves a running container recorded as created for good
  (`Rendezvous.UnreportedStart`). Running can still be recorded if and only if the byte is not lost
  (`Rendezvous.RecordedUnlessLost`).
- Two status reports whose Load and Refresh overlap can go backwards (`Lifecycle.OverlappingReportsGoBack`),
  and so can any if a command may not signal init (`Lifecycle.ForwardUnlessDenied`); delete then forgets
  a living container (`Lifecycle.DeleteErrsOnlyIfDenied`).
- `husk kill` does not refuse a container that is being created; the pid recorded then is 0, the caller's
  own process group (`Lifecycle.KillReachesInit`).
- A commit does not show the same tree when an upper directory or device has permission bits of the umask,
  when a symlink has visible extended attributes, when a FIFO or socket would have to be copied, or when
  the root directory was changed (`Commit.CommitShowsTheSameTree`, `Commit.RootIsNotCommitted`).
- As written a commit fails on every device, because `internal/storage/commit.go:87` asserts a type that
  `FileInfo.Sys` does not return. If nothing else fails it succeeds exactly when the upper layer holds no
  device (`Commit.Store.CommitAsWritten`), so no container that deleted a file of its image can be
  committed (`Commit.Store.DeletionCannotBeCommitted`, `Commit.OneDeletion`).
- A commit that fails while recording its image has already emptied the record of that name
  (`Commit.Store.Commit`). What is left is read without an error, as a shorter stack
  (`LayerText.CutImageReadsShorter`).
- The image file and the mount options do not round-trip for every id and path
  (`LayerText.ImageRoundTrip`, `LayerText.OptionsRoundTrip`), and of options longer than a page the
  kernel drops the end without a word (`LayerText.PageRoundTrip`).
- An OCI seccomp section does not always get a narrower filter than it asks for
  (`SyscallPolicy.NarrowerOnlyIfTheRestIsAllowed`).
- Overlapping releases of one container, a lease directory that cannot be listed or a lease file that
  cannot be read end the exclusiveness of leases. Under the assumptions below, all runs are safe if and
  only if none of the three happens (`IpamRace.SafeIffExclusiveAndReliable`).
- A failed launch leaves directories when the mount failed, rules when iptables failed between them, and
  a live container in its cgroup when the second save failed (`Launch.Runtime.LaunchOrNothing`). A
  container without a network takes away the interface of another with the same eight characters
  (`Launch.Runtime.RunForeground`).
- An EPERM from the bounding drop means that CAP_SETPCAP is missing, not that the capability was gone
  already; the bounding set is then kept in silence (`Capabilities.DropIsFinal`).
- 64 queued signals make the shim deaf to its child's death (`Pid1.OverflowForgetsTheChild`). It answers
  if and only if a SIGCHLD is pending or queued or it is draining (`Pid1.AnsweredIffLooking`).

## Assumptions

Pids are not reused, container ids are not empty, and one incarnation of an id is looked at. A message
fits into a pipe, and JSON is faithful. Reads of the state record and rename are atomic, and a temporary
name is not given out twice. A lease's owner is written in one operation, and addresses are names of their
own. A check of an iptables rule fails only if the rule is absent. Extended attributes can be read and
written, and no directory of an upper layer has a default POSIX ACL, which copied children would inherit.
Layer ids are fresh, overlay options are read without escapes. The keys of the capability table are in
upper case with their prefix. The cleanup actions of a launch do their work. A container's own operations on
the host do not overlap with another launch's.

## Model

| member | source | states |
|---|---|---|
| `Handshake.LaunchNeedsBothSetups` | internal/initproc/initproc.go:61-104 | In every interleaving the child launches only after cgroup move, network attach and its own setup succeeded, holding the network that setup returned; no wait ever sees a message out of order |
| `Handshake.LaunchIsEarned` | internal/initproc/initproc.go:61-104 | Every run that launches contains, in this order, the move into the cgroup, the attach whose network the child holds if it is bridged, the child's setup, and the start signal if it was told to wait for one |
| `Handshake.VerdictIsExact` | internal/spawn/spawn.go:159-216 | An error from start means that the command never ran and a cloned child is dead and reaped; success means that the child finished all setup |
| `Handshake.FailuresAreTold` | internal/initproc/initproc.go:85-90 | A side that fails its setup is heard by the waiting other side as a failure of its peer, not as an end of file |
| `Handshake.SuccessIsReachable` | internal/spawn/spawn.go:191-216 | For every configuration and attached network there is a run in which start succeeds and the child launches with it |
| `Handshake.RunKeepsInv` | internal/spawn/spawn.go:191-216 | The invariant tying both program counters to the two message logs holds over all runs |
| `Handshake.HandshakeEnds` | internal/spawn/spawn.go:174-187 | Every reachable unfinished state has a step that is no crash, and every step decreases a measure |
| `Handshake.RunsAreBounded` | internal/spawn/spawn.go:159-216 | No run of the handshake, however it fails, takes more steps than the measure it starts with |
| `Handshake.KeptCopiesDeadlock` | internal/ipc/sync.go:102-109 | Without dropping the child's ends there is a reachable state in which the parent can only wait or die |
| `Handshake.NeverStuckIffDropped` | internal/ipc/sync.go:102-109 | No run is ever stuck, unfinished with only crashes left, if and only if the parent drops its copies |
| `Ipc.Pipe.Send` | internal/ipc/sync.go:111-132 | A send appends the staged message, or fails when nobody is left to read |
| `Ipc.Pipe.AwaitJSON` | internal/ipc/sync.go:134-154 | End of file, the peer's error, a message out of order, a body that is missing and the body are told apart, and one message is consumed |
| `Ipc.Pair` | internal/ipc/sync.go:74-88 | Two fresh pipes, crossed over, with one descriptor at every end, or none, the first being closed again if the second cannot be made |
| `Ipc.SilentChild` | internal/ipc/sync.go:102-109 | A wait for a child that died silently blocks if and only if the parent kept its copies |
| `Rendezvous.AtMostOneStart` | internal/initproc/fifo.go:37-52 | Over all runs with any number of starts at most one gets the byte, after init's setup; launch implies that the write succeeded and some start opened the FIFO; a running record implies a byte received |
| `Rendezvous.RunKeepsInv` | internal/initproc/fifo.go:37-52 | Bytes read, buffered and lost add up to bytes written, in every reachable state |
| `Rendezvous.EofBeforeTheWrite` | internal/cli/lifecycle.go:86-102 | Before init's write, a start reads end of file if and only if init is dead or has not yet entered its open |
| `Rendezvous.EarlyStartIsRefused` | internal/cli/lifecycle.go:91-93 | A run in which a start meets end of file while init lives |
| `Rendezvous.StillStartable` | internal/cli/lifecycle.go:39-74 | From every reachable state with init waiting, one more start has a schedule that leads to launched and recorded running |
| `Rendezvous.NoRefusalOnceBlocked` | internal/initproc/fifo.go:37-52 | In every run from init's open on in which nobody quits or kills, init does not die, the byte is not lost, and no start is refused before some start has it |
| `Rendezvous.AbandonedStartKillsInit` | internal/initproc/fifo.go:48-50 | A run in which a start that gives up between release and write ends init |
| `Rendezvous.OnlyQuittingAbandons` | internal/cli/lifecycle.go:55-66 | A step leaves a released init without a reader if and only if its last holder quits |
| `Rendezvous.DeathMeansAbandoned` | internal/initproc/fifo.go:48-50 | In every run without a kill from outside, init is dead at the end only if some step abandoned it |
| `Rendezvous.NobodyQuitsNobodyDies` | internal/initproc/fifo.go:37-52 | In every run in which nobody kills init and no start gives up, init never dies |
| `Rendezvous.LaunchNeedsAHolder` | internal/initproc/fifo.go:37-52 | A released init can launch without further starts if and only if some start holds the FIFO |
| `Rendezvous.LostByteIsFinal` | internal/cli/lifecycle.go:62-71 | Once the byte is lost, no continuation of any kind ever records running |
| `Rendezvous.RecordedUnlessLost` | internal/cli/lifecycle.go:62-71 | After init's write, some continuation records running if and only if the byte is not lost |
| `Rendezvous.UnreportedStart` | internal/cli/lifecycle.go:62-71 | A run that ends with the command running under a created record |
| `Rendezvous.AwaitFifoByte` | internal/cli/lifecycle.go:82-103 | The loop goes on exactly while reads say EAGAIN and init, if its pid is known, lives; gone is answered only on finding it dead, and every other verdict is that of the read that decided |
| `Rendezvous.AwaitInRun` | internal/cli/lifecycle.go:82-103 | On the polls of any start in any run: told gone, init is dead; told started, the one byte was taken from a container that finished its setup |
| `StateFile.RecordIsAlwaysWhole` | internal/state/state.go:113-159 | However saves and loads interleave and wherever they stop, the record and every loaded text is one whole saved record |
| `StateFile.EmptyDirectory` | internal/state/state.go:113-159 | The same from an empty directory |
| `StateFile.SaveIsAtomic` | internal/state/state.go:121-142 | Only the rename changes the record, and it changes it to all of the new one |
| `StateFile.NoTempStays` | internal/state/state.go:121-142 | In every run without a cut-off, when no save is at work no temporary name is left, and every rename replaces the record |
| `StateFile.Directory.Save` | internal/state/state.go:113-143 | Run alone, a save replaces the record as a whole or leaves every name as it was, and no temporary name stays |
| `StateFile.Directory.SaveFailLoad` | internal/state/state.go:113-159 | A load after a save and another one that fails anywhere, inside its write included, gives what was saved first |
| `StateFile.ReusedNameTearsTheRecord` | internal/state/state.go:122-126 | With reused temporary names the deferred removal can lead to a half-written record |
| `StateFile.WholeIffFreshNames` | internal/state/state.go:121-142 | All runs keep the record whole if and only if temporary names are fresh |
| `Lifecycle.StatusMovesForward` | internal/state/state.go:205-216 | Over all runs of commands that may signal init, of two reports that do not overlap the later is at least as far along creating, created, running, stopped |
| `Lifecycle.ForwardUnlessDenied` | internal/state/state.go:213-215 | That holds of all runs if and only if every command may signal init |
| `Lifecycle.RunKeepsInv` | internal/cli/run.go:234-299 | Records held by commands are never ahead of the file, and carry the init's pid once past creating |
| `Lifecycle.StoppedIsExact` | internal/state/state.go:205-216 | Stopped is reported if and only if the loaded record was past creating and init is gone or signal 0 was refused; otherwise the loaded status is |
| `Lifecycle.RecordIsExact` | internal/cli/run.go:234-299 | Over all runs the record is there from the first save to the first removal, and its status and pid are exactly those of the saves that happened |
| `Lifecycle.RemovedForGood` | internal/state/state.go:145-163 | Over all runs the record can be loaded if and only if it was saved and nobody has removed it |
| `Lifecycle.DeleteFinishes` | internal/cli/lifecycle.go:216-246 | A delete that is alone gets to its removal if and only if it is forced or init is gone past creating, and after that nobody can load the record |
| `Lifecycle.DeleteSparesTheLiving` | internal/cli/lifecycle.go:216-246 | Without -force, delete removes a record only when init is gone |
| `Lifecycle.DeleteErrsOnlyIfDenied` | internal/cli/lifecycle.go:216-246 | Without -force no record of an init that is not gone is about to be removed, if and only if every command may signal init |
| `Lifecycle.KillReachesInit` | internal/cli/lifecycle.go:166-196 | Kill targets init if and only if the status it saw was past creating, and pid 0 otherwise |
| `Lifecycle.OverlappingReportsGoBack` | internal/state/state.go:205-216 | A run with overlapping reports, stopped and then creating |
| `Refinement.RendezvousIsALifecycle` | internal/cli/lifecycle.go:34-74 | Every run of the FIFO protocol is matched by a run of the lifecycle with the same record, starts and fate of init |
| `Refinement.StepRefines` | internal/cli/lifecycle.go:55-71 | Every step of the rendezvous is one step of the lifecycle, or none |
| `Seccomp.BuildFilter` | internal/security/seccomp.go:227-264 | Refuses exactly the lists over 250; otherwise the program is loadable, kills foreign architectures and every number from the x32 bit up, and of the rest gives the listed numbers the action and allows the others |
| `Seccomp.FittingListsCompileCorrectly` | internal/security/seccomp.go:227-264 | Without the guard the program is right, and its jumps in range, up to 255 entries |
| `Seccomp.ByteJumpRangeIsExact` | internal/security/seccomp.go:245-253 | Over distinct native numbers it is right if and only if there are at most 255 |
| `Seccomp.TruncatedJumpAllows` | internal/security/seccomp.go:245-253 | The entry 256 places from the end is allowed instead of denied |
| `Seccomp.AtTwoHundredFiftySix` | internal/security/seccomp.go:245-253 | At 256 entries, repeated or foreign ones included, it is right if and only if the first did not matter |
| `Seccomp.ActionErrno` | internal/security/seccomp.go:268 | The action is ERRNO with the low 16 bits of the error, and neither ALLOW nor KILL |
| `SyscallPolicy.LookupSyscall` | internal/security/apply.go:75-82 | The number of the first entry whose name folds alike |
| `SyscallPolicy.FoldingIsCase` | internal/security/apply.go:75-82 | Names in ASCII fold alike if and only if they differ in case at most |
| `SyscallPolicy.BuildPolicy` | internal/security/apply.go:47-69 | The first unresolved name is reported, then a list over 250; else the filter decides as the extended list, killing or refusing with EPERM as the setting says |
| `SyscallPolicy.ExtraDenialsChangeNothing` | internal/security/apply.go:53-60 | Whatever resolves, the extended list decides every call as the default list |
| `SyscallPolicy.ExtendedFiltersDecideAsTheTable` | internal/security/apply.go:47-69 | A filter for an extended list is a filter for the default list |
| `SyscallPolicy.SeccompFromSpec` | internal/cli/bundle.go:201-221 | The configuration holds exactly the known names of the rules that do not allow |
| `SyscallPolicy.PolicyForSpec` | internal/cli/bundle.go:201-221 | A section is refused only for its length, and its filter decides by the default table |
| `SyscallPolicy.NarrowerOnlyIfTheRestIsAllowed` | internal/cli/bundle.go:206-209 | The filter is narrower than the section if and only if the section allows every native call outside the table |
| `SyscallPolicy.DenyByDefaultIsWidened` | internal/cli/bundle.go:206-209 | A section that denies by default is widened |
| `LayerText.OverlayOptions` | internal/storage/overlay.go:145-158 | Refuses exactly paths with a delimiter; else the text is the three options with the layers topmost first |
| `LayerText.OptionsRoundTrip` | internal/storage/overlay.go:145-158 | Parsing the whole text gives the reversed list, upper and work if and only if those two have no comma |
| `LayerText.PageRoundTrip` | internal/storage/overlay.go:127-131 | What mount(2) reads gives the reversed list, upper and work if and only if those two have no comma and the text fits into a page |
| `LayerText.ImageLayers` | internal/storage/overlay.go:188-204 | The loop reads what the lines stand for, comments, blanks and over-long lines included |
| `LayerText.LineIsRead` | internal/storage/overlay.go:188-204 | White space around an id is ignored, blank lines and comments stand for nothing, and a line of 65536 bytes ends the reading |
| `LayerText.ImageRoundTrip` | internal/storage/overlay.go:188-211 | Reading what PutImage wrote gives the same list if and only if every id is trimmed, non-empty, without newline, not a comment and not too long |
| `LayerText.CutImageReadsShorter` | internal/storage/overlay.go:188-211 | An image file cut off anywhere reads without an error as a shorter stack, whose last id may have lost its end |
| `LayerText.SplitNullTerminated` | internal/storage/commit.go:188-200 | The loop gives the terminated, non-empty names |
| `LayerText.NamesRoundTrip` | internal/storage/commit.go:188-200 | Names listed with terminators come back, and a cut-off tail is ignored |
| `Overlay.LookupIsFold` | internal/storage/overlay.go:137-144 | The kernel's lookup name by name, topmost first, finds what laying the layers over one another from the base leaves, the root included and private attributes hidden |
| `Overlay.WalkAgrees` | internal/storage/overlay.go:137-144 | Every prefix of a lookup keeps, at and below its name, exactly what the fold holds there |
| `Overlay.FoldWellFormed` | internal/storage/overlay.go:137-144 | In the merged view every entry sits in a directory |
| `Overlay.TopLayerDecides` | internal/storage/overlay.go:137-144 | One more layer shows its own entries without overlayfs's attributes, hides what a 0:0 device names and what lies below a file or an opaque directory, and leaves the rest as it was |
| `Overlay.NothingShowsThrough` | internal/storage/overlay.go:137-144 | The kernel's lookup finds nothing of the lower layers below a deletion, a file or an opaque directory of the topmost one |
| `Commit.CopyXattrs` | internal/storage/commit.go:160-186 | Through listing and splitting, the attributes are copied exactly |
| `Commit.CopyTree` | internal/storage/commit.go:54-114 | In any walk order the copy is complete, parents first, over a root made anew, and fails exactly if some node does; which nodes do is a parameter |
| `Commit.CommitShowsTheSameTree` | internal/storage/commit.go:54-114 | Over any layers, the copied layer shows the tree of the original, root included, if and only if the original is faithful to copying |
| `Commit.UmaskNarrowsDirectories` | internal/storage/commit.go:54-114 | A world-writable directory loses bits under the usual umask |
| `Commit.RootIsNotCommitted` | internal/storage/commit.go:63-65 | A root directory closed to others comes back open |
| `Commit.MountShowsTheStack` | internal/storage/overlay.go:104-135 | What the option string makes the kernel mount, if it fits into a page, is the fold of the image's layers under the upper one |
| `Commit.CommittedImageView` | internal/storage/commit.go:21-43 | The base layers and the new one under a new container's upper layer show the old view if and only if the upper layer was faithful |
| `Commit.Store.PutImage` | internal/storage/overlay.go:206-211 | A write that fails leaves the old text, or the part of the new one that was written, and touches no other image |
| `Commit.Store.Commit` | internal/storage/commit.go:21-43 | With device numbers that may be readable: success adds one layer and one image with it on top; failure leaves the layers and every other image, and of this image what PutImage leaves |
| `Commit.Store.CommitAsWritten` | internal/storage/commit.go:86-90 | The code as it is succeeds exactly if the upper layer holds no device and nothing else fails |
| `Commit.Store.DeletionCannotBeCommitted` | internal/storage/commit.go:86-90 | With a whiteout anywhere in the upper layer a commit fails and changes nothing |
| `Commit.OneDeletion` | internal/storage/commit.go:47-53 | An upper layer with one whiteout, which hides the file and would be copied faithfully, cannot be copied |
| `Commit.Store.Mount` | internal/storage/overlay.go:104-135 | Fails exactly on an empty stack, a missing layer, a delimiter, a directory that cannot be made or a refused mount, and leaves the upper directory once it was made |
| `Commit.CommitAndRemount` | internal/storage/commit.go:21-43 | Commit, reading the image and mounting it with options that fit into a page shows the old tree if and only if the upper layer was faithful |
| `Ipam.LimitIsBroadcast` | internal/network/ipam.go:59-63 | For every prefix length, including the one whose size wraps to zero, the scan ends at the broadcast address |
| `Ipam.OffsetStaysInside` | internal/network/ipam.go:63-65 | Adding an offset never wraps and stays in the subnet, off both its ends |
| `Ipam.Table.Allocate` | internal/network/ipam.go:45-86 | The existing lease, or else the lowest free address, or failure exactly when the pool is full; errors change nothing |
| `Ipam.Table.Release` | internal/network/ipam.go:90-107 | Takes one lease of the container and touches no other |
| `Ipam.Table.AllocateTwiceAndRelease` | internal/network/ipam.go:45-107 | Asking twice gives one address, and releasing restores the table |
| `Ipam.GatewayIsLeasedUnlessLow` | internal/network/ipam.go:63 | The bridge's address can be handed out if and only if its offset is from 2 to size minus 2 |
| `Ipam.DefaultPool` | internal/network/host.go:19 | With the default subnet the pool is .2 to .254 |
| `IpamRace.LeasesAreExclusive` | internal/network/ipam.go:45-124 | Under all interleavings and crashes, if calls for one id do not overlap, the directory can be listed and its files read, no address has two holders and no container two leases |
| `IpamRace.EmptyTableIsSafe` | internal/network/ipam.go:45-124 | The same from an empty lease directory |
| `IpamRace.OverlappingReleasesShareAnAddress` | internal/network/ipam.go:90-107 | In every pool, two overlapping releases of one id can give an address to two containers |
| `IpamRace.UnreadableLeaseIsDuplicated` | internal/network/ipam.go:109-124 | In every pool with room for two, a lease that cannot be read is passed over and doubled |
| `IpamRace.UnlistedLeaseIsDuplicated` | internal/network/ipam.go:109-113 | In every pool with room for two, a directory that cannot be listed is taken for one without leases, and the lease is doubled |
| `IpamRace.SafeIffExclusiveAndReliable` | internal/network/ipam.go:45-124 | All runs are safe if and only if calls for one container do not overlap, the directory can be listed and its files read |
| `IpamRace.FullOnlyIfAllWereTaken` | internal/network/ipam.go:63-86 | Under any interleaving a call gives up only if since it began to try every address of the pool had a file at some moment |
| `IpamRace.NothingLeaks` | internal/network/ipam.go:45-107 | In every run without crashes under the two rules, whenever nobody is at work an address has a file if and only if a container holds it, and the file names that container |
| `Netfilter.DetachUndoesAttach` | internal/network/netfilter.go:149-220 | Installing among any operations of others and then removing leaves the chains that the others alone would have made, with overlapping mappings too |
| `Netfilter.ContainersDoNotDisturb` | internal/network/netfilter.go:33-220 | The same among the whole attaches and detaches of any number of other containers, operation by operation |
| `Netfilter.RunIsInvisible` | internal/network/netfilter.go:181-191 | To the rest of the chains a container's own operations do not happen |
| `Netfilter.SameTexts` | internal/network/netfilter.go:156-215 | The removal deletes the very texts the installation ensured |
| `Netfilter.InstalledRulesStay` | internal/network/netfilter.go:193-201 | Rules that are not removed with the lease at hand stay for good; only a container that installed none leaves none |
| `Netfilter.SharedRulesAreInstalledOnce` | internal/network/netfilter.go:222-256 | Chains, jumps and shared rules are idempotent |
| `Netfilter.InstallServes` | internal/network/netfilter.go:33-174 | After an installation on any chains, every packet meets in husk's three chains what decided it before, or else: masquerade for what leaves the subnet, the first mapping of its host port, and accept for what comes from the bridge, replies and published ports only; each hook jumps to its chain, first in it if the jump is new |
| `Netfilter.PublishedPortsAreReached` | internal/network/netfilter.go:112-174 | On a host without husk, whatever its own firewall holds: packets leaving the subnet are masqueraded, packets to a published port are sent to the container's address and port from outside and from the host, and are let through |
| `Netfilter.NothingElseIsOpened` | internal/network/netfilter.go:61-71 | There a new packet from another interface is accepted if and only if it is for a published port, and traffic within the bridge is not masqueraded |
| `Netfilter.Firewall.ApplyRules` | internal/network/netfilter.go:33-93 | Does all the operations, or exactly those up to the first that fails; success links the chains and serves every packet as stated |
| `Netfilter.Firewall.RemoveRules` | internal/network/netfilter.go:197-220 | Deletes by the leased address, and does nothing without a lease |
| `Netfilter.Firewall.EnsureRule` | internal/network/netfilter.go:184-191 | Appends unless present |
| `Launch.InterfaceNames` | internal/network/host.go:227-233 | The names are the prefix and the first eight characters, the length check never fires, and two ids share an interface if and only if they agree in eight characters |
| `Launch.WhichFaultsFail` | internal/cli/run.go:191-317 | Fault by fault, a container comes up if and only if its interface is free, should it need one, and the failing step is one it does not take |
| `Launch.Runtime.Attach` | internal/network/host.go:99-192 | Failure gives back lease and link but not rules; success holds all three |
| `Launch.Runtime.Start` | internal/spawn/spawn.go:159-189 | Failure leaves no process; the network is attached exactly if Attach succeeded |
| `Launch.Runtime.Unwind` | internal/cli/run.go:199-208 | The reverse loop undoes what was registered |
| `Launch.Runtime.Launch` | internal/cli/run.go:191-317 | For every failing step, the whole host afterwards |
| `Launch.Runtime.LaunchOrNothing` | internal/cli/run.go:199-289 | A failed launch leaves nothing of the container if and only if it failed in none of three ways, and nothing of others changes |
| `Launch.Runtime.RunForeground` | internal/cli/run.go:319-337 | A whole run gives back what it took, and other interfaces stay if and only if the name is not shared |
| `Launch.Runtime.Detach` | internal/network/host.go:202-222 | Rules by the lease, then the link by its name, then the lease |
| `Capabilities.Thread.DropCapabilities` | internal/security/capabilities.go:153-218 | It fails on a name that spells no key; success leaves the four sets with exactly the table's numbers for the keys that the names spell; the bounding set afterwards, and exactly when it succeeds |
| `Capabilities.Encode` | internal/security/capabilities.go:190-196 | Capability c is bit c of the first word or bit c - 32 of the second, nothing else is set, and the words stay within 32 bits |
| `Capabilities.CeilingHolds` | internal/security/capabilities.go:10-33 | What lies within keep stays there under every run of execve, capset, prctl and uid changes |
| `Capabilities.BoundingIsTheCeiling` | internal/security/capabilities.go:174-188 | No program gets more than keep if and only if the bounding set lies within it |
| `Capabilities.DropIsFinal` | internal/security/capabilities.go:174-188 | After a successful drop everything stays within what was asked for if and only if the drop reached all of the bounding set |
| `Capabilities.OrdinaryProgramsKeepThem` | internal/security/capabilities.go:148-152 | After a drop any number of ordinary programs, run one after the other by a user that is not root, keep the sets |
| `Capabilities.PrefixAndCaseDoNotMatter` | internal/security/capabilities.go:112-120 | Prefix and case of a name make no difference |
| `Capabilities.LookupIsExact` | internal/security/capabilities.go:112-120 | A name gives a number if and only if it is a key with that number, in letters of any case, with its prefix or without, between white space |
| `Capabilities.SpellingDoesNotMatter` | internal/security/capabilities.go:112-120 | Every spelling of a key gives the key's number |
| `Pid1.NoZombieIsForgotten` | internal/initproc/pid1.go:29-87 | While a zombie is there somebody will look, except exactly when the last SIGCHLD was dropped from a channel that held none with the shim not draining; exit only with the child's fate |
| `Pid1.FromTheStart` | internal/initproc/pid1.go:29-64 | The same over all runs of the shim |
| `Pid1.DeathIsAnswered` | internal/initproc/pid1.go:47-63 | After its child's death a shim that will look reaches by itself the exit with that status or 128 plus the signal |
| `Pid1.AnsweredIffLooking` | internal/initproc/pid1.go:47-63 | The shim by itself reaches that exit if and only if a SIGCHLD is pending or queued, or it is draining or done |
| `Pid1.SignalsArePassedOn` | internal/initproc/pid1.go:47-62 | In every run in which the channel never holds 64, all other signals are passed on or still wait, in the order they came, and no zombie is forgotten |
| `Pid1.OverflowForgetsTheChild` | internal/initproc/pid1.go:33-34 | A flooded channel leaves the shim beside its child's zombie with nothing to wake it |
| `Pid1.Children.Drain` | internal/initproc/pid1.go:73-87 | The loop leaves no zombie and returns the direct child's status exactly if it was among them |
| `SafeJoin.SafeJoin` | internal/storage/import.go:154-164 | Accepts exactly the names that lead to the destination or below it, for every destination, absolute or relative, that ends in a name, and returns that place |
| `SafeJoin.AcceptsIsContainment` | internal/storage/import.go:154-164 | For such destinations the test with trailing separators is component-wise containment of the resolved path |
| `SafeJoin.AcceptsIsPrefix` | internal/storage/import.go:154-164 | For every destination the test on texts is a prefix test on resolved components, or on being the destination if nothing is left of it |
| `SafeJoin.ClimbAndDescend` | internal/storage/import.go:154-164 | For a name that climbs k directories and then descends: the text that comes out, and that it is accepted if and only if the whole destination is still in front |
| `SafeJoin.DotsAreNothing` | internal/storage/import.go:154-164 | Empty components and single dots change nothing |
| `SafeJoin.ContainmentNeedsAName` | internal/storage/import.go:159-161 | Acceptance implies containment for all names if and only if the destination ends in a name rather than ".." |
| `SafeJoin.ImportsStayInside` | internal/storage/import.go:38-81 | For every data root, absolute or relative, an archive entry is accepted by an import if and only if it leads into the layer's directory |

## Left out

- Handshake, Rendezvous, StateFile, Lifecycle, IpamRace and Pid1 are state machines over values, because interleaving is their subject; every action is one step of the source or of its environment.
- Handshake: the order of the steps inside the child's setup, which is one step that succeeds or fails; parent death signals; Go threads.
- Rendezvous: the wall clock; a timeout is one of the ways a start may quit. Go's poller.
- StateFile: power loss beyond the order of write, sync and rename.
- Lifecycle: the kill of a forced delete, which is one of the ways in which init may die at any time.
- Lifecycle: `List`, which loads and refreshes one record after the other; `husk delete` removes the record in one step; waiting for the cgroup to empty is not modelled. A second incarnation of an id.
- Overlay: hard links, redirects and metadata-only copies of overlayfs; ownership, times, setuid, setgid and sticky bits.
- Commit.Store.PutImage: a cut falls between characters; with ids as the store makes them these are bytes.
- Commit.CopyXattrs: attributes that a new node inherits from a default POSIX ACL of its directory.
- Commit.CommitShowsTheSameTree: such inherited ACLs, and the umask that they replace.
- Commit.CommittedImageView: the same.
- Commit.CommitAndRemount: the same.
- Commit: ownership; copying of file contents, which is faithful unless it fails. An attribute of overlayfs's own on the root directory.
- Ipam: file names in the lease directory that are no addresses.
- IpamRace: two processes with the same pid; an empty container id.
- Packets: arithmetic of addresses and networks, which a packet names as texts; options that husk does not use; chains that are jumped to from chains other than a hook; the policy of a hook.
- Netfilter: a check that fails for another reason than absence; the write to route_localnet; a jump from OUTPUT that fails while later commands succeed.
- Launch: the order of cleanups makes no difference on the modelled host, where they act on different resources. The peer interface after it was moved. The bridge, which is shared and stays.
- Launch.Runtime.Finish: the exit status and the two saves of a foreground run, which Lifecycle has.
- Capabilities: securebits, and user namespaces entered later. The table of names is a parameter.
- Capabilities.Lookup: letters beyond ASCII.
- Pid1: a forwarded signal that the child has no handler for.
- SafeJoin: symbolic links met during extraction; the rest of the tar loop.
- SyscallPolicy: the table of default denials and its numbers are a parameter.
- The contents of mount, pivot_root, netlink, sysctl and device setup, which are straight sequences of system calls.
- `husk exec` and joining namespaces, the sealed self-executable, metrics, top, ps, logs, help and flags.
- Cgroup limits and controllers; a cgroup is its members here.
- Translation of OCI bundles other than the seccomp section.
