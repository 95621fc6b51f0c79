# SpiritFoxOS in Dafny

A verification project for the parts of SpiritFoxOS whose correctness spans
several functions or whole runs: the crash-safe transaction store and the A/B
update policy on top of it, capability IPC, page tables, the namespace and its
file requests, the package-to-loader pipeline, the module manager, the aging
scheduler, and packet framing. Nothing here executes the system; every statement
is a contract or a lemma about the model.

Each component has three layers. Specification functions say what one operation
does to the whole state. Lemmas prove invariants of those functions, over every
operation and every run, and say for each operation exactly when it succeeds and
what it then changes, in terms of what a caller sees (bytes on disk, handles and
their authority, frames on the wire). Classes and methods restate the operations in the
source's own imperative form (loops, arrays, tables reassigned in place) and are
proved equal to the specification functions.

| component | files |
|---|---|
| bytes, UTF-8 | `Bytes.dfy`, `Utf8.dfy` |
| transaction store | `TxnImage.dfy`, `TxnDisk.dfy`, `TxnCrash.dfy`, `TxnRuns.dfy`, `TxnTable.dfy`, `TxnVolume.dfy` |
| update policy | `Update.dfy`, `VersionText.dfy`, `Persistence.dfy`, `PersistService.dfy` |
| capability IPC | `Ipc.dfy`, `IpcInvariant.dfy`, `IpcRuns.dfy`, `IpcFifo.dfy`, `IpcLaws.dfy`, `IpcKernel.dfy` |
| memory | `PageTables.dfy`, `PageMemory.dfy`, `KernelMemory.dfy` |
| scheduler | `Scheduler.dfy` |
| namespace, file RPC | `Paths.dfy`, `Namespace.dfy`, `NsInvariant.dfy`, `NsRuns.dfy`, `NsFiles.dfy`, `NsLaws.dfy`, `NsConfine.dfy`, `FileRpc.dfy`, `NamespaceService.dfy` |
| packages | `Cbor.dfy`, `CborReader.dfy`, `Layout.dfy`, `Package.dfy`, `NativeImage.dfy` |
| module manager | `Manager.dfy`, `ManagerRuns.dfy`, `ManagerLaws.dfy`, `ManagerService.dfy`, `Cycle.dfy` |
| packet framing | `Net.dfy`, `NetLaws.dfy` |

## Properties that turned out conditional

- A live remount after a failed commit (no power cycle) is not safe in general.
  `TxnRuns.StrandingIsReachable` builds, from every starting volume and for every
  table, a run whose last flush fails, after which mounting, one more commit and a
  crash lose every bank. `TxnRuns.LiveRemountExact` states exactly when it is safe:
  when the bank the mount selects is already on the medium. A caller gets there by
  writing the cache back first (`TxnRuns.FlushThenMount`) or by a power cycle.
- Mount openings minus closings equal the live descriptions on the mount only
  while mounts do not claim a node somebody has open. `NsRuns.LedgerCanBreak` is
  a run that breaks it (open `/disk`, then mount), `NsInvariant.AttachLedger` the
  exact condition.
- The cycle report omits the repeated node when the buffer has no room for it.
  `Cycle.SearchLoop` is an input; `Cycle.RoomIsExact` is the exact condition, for
  every number of nodes: more than twice the nodes plus two. `Cycle.SearchLongest`
  obtains both cases from the search itself. With a buffer of at
  most twice the nodes the search also stops on graphs without a cycle
  (`Cycle.SearchLine`); a clear answer is always right.
- A bank readable under both geometries is the same table in both if and only if
  everything behind the four-entry table is zero (`TxnImage.GeometriesAgree`);
  otherwise it exhibits a collision of the hash. No assumption is made about the
  hash anywhere.

## Modelling choices

- The disk is durable sectors plus an ordered cache of unflushed writes. A crash
  gives each sector any byte-wise mixture of its durable contents and the cached
  writes to it. A failed write or flush may have any such partial effect.
- SHA-256 is an arbitrary function and package authentication an arbitrary
  predicate, both parameters of the theorems.
- The hash, the block device, user-memory access of IPC messages, backend file
  calls, the clock, task scheduling between calls and the tasks a kill inside the
  scheduler wakes are parameters; theorems hold for all their values.
- Table sizes are symbolic wherever the proofs do not need the number. Machine
  integers are unbounded except where width matters: generations, epochs,
  offsets, leases, page-table words and checksums state their limits.
- Page-table entries are numbers; a page-aligned address and its flag bits are
  disjoint, so the source's bitwise or is written as a sum.
- Each physical page carries a specification-only use (free, one level of one
  space's tables, data at one address, device window, other).
- C strings are byte sequences without a terminator; identifiers compared with
  `strcmp` on padded arrays are compared as sequences.

## Model

| member | source | states |
|---|---|---|
| TxnImage.CheckPath | services/txn.c:9-13 | The two-pass scan accepts exactly the legal keys: at least two bytes, absolute, printable, no empty, dot or dot-dot component. |
| TxnImage.DecodeImage | services/txn.c:16-28 | The bank image built from any legal table decodes, under the current geometry, to that table. |
| TxnImage.DecodeCanonical | services/txn.c:16-28 | Every bank the decoder accepts is byte for byte the image of the table it decodes to. |
| TxnImage.DecodedTable | services/txn.c:16-28 | Under either geometry an accepted bank yields a legal table whose size is the stored count. |
| TxnImage.DecodeExact | services/txn.c:16-28 | A bank decodes to a table, under either geometry, if and only if the table is legal and its bytes lie exactly where that geometry puts them: header, 128-byte records, 16 KiB data slots, zeros elsewhere. |
| TxnImage.GeometriesAgree | services/txn.c:43-43 | A bank accepted by both geometries has the same paths and lengths in both; the two readings are the same table if and only if everything behind the four-entry table is zero, and any file they differ on is a hash collision of equal length. |
| TxnImage.ShortFilesAgree | services/txn.c:43-43 | If every file is at most as long as a table entry the two readings agree, whatever the hash. |
| TxnDisk.ValidIsCanonical | services/txn.c:34-45 | A bank validates only under one record, determined by the bank bytes, for every hash function; its generation is never 0. |
| TxnDisk.BuiltBankIsValid | services/txn.c:74-83 | A complete image under its record is a valid bank holding exactly that snapshot. |
| TxnDisk.HeaderExact | services/txn.c:31-33 | A header sector is accepted if and only if it is the one sector for its volume identifier. |
| TxnDisk.RecordExact | services/txn.c:36-39 | A record passes for a generation and digest if and only if it is the one written for them. |
| TxnDisk.BankExact | services/txn.c:34-43 | A bank is valid with a snapshot if and only if its record is the one for the bank's own digest and generation and the bytes hold that snapshot with five records and data from byte 1152, or, when they do not read as such, with four records and data from byte 1024. |
| TxnDisk.RecoverExact | services/txn.c:29-48 | A mount selects a bank if and only if it is valid and the other bank is invalid or older, under a proper header. |
| TxnCrash.RecoverOutcome | services/txn.c:29-48 | In any state satisfying the invariant, whatever a crash keeps, mount selects the acknowledged snapshot or the one in flight. |
| TxnRuns.StepKeeps | services/txn.c:65-88 | Every sector write, flush, failure, crash and remount keeps the crash invariant. |
| TxnRuns.EveryCrashRecovers | services/txn.c:29-88 | At every point of every run, with unflushed sectors kept, lost or torn at any byte, a mount recovers exactly the last acknowledged snapshot or the single one in flight. |
| TxnRuns.GenerationsDiffer | services/txn.c:44-45 | Two valid banks of any reachable disk carry different generations, so the equal-generation rejection is unreachable. |
| TxnRuns.AckedMonotone | services/txn.c:84-85 | An acknowledged commit is never lost and never replaced by an older one. |
| TxnRuns.CrashExposes | services/txn.c:65-88 | A property that no commit begun between two points of a run destroys holds of whatever any crash at the later point exposes. |
| TxnRuns.RunClimbs | services/txn.c:65-88 | If every commit moves up a preorder on tables, so does the acknowledged snapshot between any two points of a run. |
| TxnRuns.LiveRemountExact | services/txn.c:29-48 | Mounting again without a power cycle is safe for the next commit if and only if the selected bank is already on the medium. |
| TxnRuns.UnsettledIsStranded | services/txn.c:79-84 | Otherwise the next commit and a crash can leave no valid bank. |
| TxnRuns.FailedFinalFlush | services/txn.c:84-87 | The unsafe state is what a failed final flush leaves behind. |
| TxnRuns.ReachesLastFlush | services/txn.c:65-84 | From every starting volume a commit of any legal table runs, write by write and flush by flush, to its last flush. |
| TxnRuns.StrandingIsReachable | services/txn.c:84-87 | So from every starting volume a run reaches a cache over which mounting again can lose every bank. |
| TxnRuns.FlushThenMount | services/txn.c:29-48 | Writing the cache back before mounting again is always safe. |
| TxnTable.PlanKeepsWf | services/txn.c:67-73 | Planning updates keeps the table legal: distinct keys, no holes. |
| TxnTable.PlanIsMapUpdate | services/txn.c:67-73 | A commit is a finite-map update: named keys get their new contents and all others keep theirs. |
| TxnTable.PlanHasRoom | services/txn.c:71-71 | A commit whose keys fit the table together with those in use is never refused for space. |
| TxnVolume.BlockDevice.WriteSector | services/txn.c:80-84 | The device interface: a failed write may leave nothing or a torn sector in the cache. |
| TxnVolume.BlockDevice.Flush | services/txn.c:80-84 | The device interface: a failed flush may persist any torn part of the cache and drop any of the rest. |
| TxnVolume.Store.DecodeBank | services/txn.c:16-28 | The in-place decoder computes the decode function and fills the next table. |
| TxnVolume.Store.LoadBank | services/txn.c:34-43 | Reading one bank finds it valid with a snapshot exactly when `BankAt` says so, which `BankExact` characterises by bytes for both formats. |
| TxnVolume.Store.Mount | services/txn.c:29-48 | Mount either reports a read failure or installs exactly what recovery of the visible disk selects (characterised by `RecoverExact`), as the remount step of the crash protocol when that is settled. |
| TxnVolume.Store.Get | services/txn.c:49-53 | A lookup returns the mapped contents, or the precise error for an absent key, a short buffer or an unready volume. |
| TxnVolume.Store.PlanNext | services/txn.c:67-73 | The update loop computes the planned table or the error of the first bad update. |
| TxnVolume.Store.BuildImage | services/txn.c:74-77 | The buffer becomes exactly the bank image of the next table. |
| TxnVolume.Store.WriteOut | services/txn.c:79-88 | The write-out is a run of the crash protocol that begins only the commit of the staged table, ending acknowledged or uncertain with the old state. |
| TxnVolume.Store.Commit | services/txn.c:65-88 | Commit is a run of the crash protocol that begins only the planned table, also when the outcome is uncertain; on success the table is the planned one at the next generation in the other bank, and every rejection changes nothing. |
| TxnVolume.Store.Resize | services/txn.c:54-64 | Resize commits, byte by byte, the old contents up to the new length and zeros behind them, although its input aliases the scratch buffer; an equal length commits nothing. |
| Update.DecodeEncode | services/update.c:15-24 | Decoding an encoded record returns it exactly when it is legal. |
| Update.EncodeDecode | services/update.c:15-24 | Every accepted record is legal and is the encoding of its decoding. |
| Update.TransitionsStayValid | services/update.c:25-38 | Stage, begin and finish turn legal records into legal records. |
| Update.LeOrder | services/version.c:13-15 | Version comparison is a total order. |
| Update.CompareIsNumeric | services/version.c:13-15 | Versions compare as the single numbers in which the major part weighs most and the patch least. |
| Update.EncodeLayout | services/update.c:21-24 | Where each field of an update record is stored, byte by byte. |
| VersionText.Parse | services/version.c:3-12 | The parsing loops accept exactly three dotted 32-bit numbers without superfluous zeros. |
| VersionText.AcceptedIsCanonical | services/version.c:3-12 | Everything accepted is the canonical text of the version it yields. |
| VersionText.TextIsAccepted | services/version.c:3-12 | The text of every version parses back to it. |
| Persistence.FreshVolume | services/persistence.c:31-41 | An empty volume satisfies the policy invariant. |
| Persistence.AlwaysRoom | services/persistence.c:83-92 | The five keys the policy uses always fit, so its commits are never refused for space. |
| Persistence.InstallKeeps | services/persistence.c:83-93 | Install writes only the other slot and the record; the confirmed slot and its digest stay as they are. |
| Persistence.InstallExact | services/persistence.c:83-93 | An install commits if and only if nothing is staged, the package authenticates unrevoked, fits and names itself properly, and over a confirmed package has the same name and a numerically larger version. |
| Persistence.InstallStages | services/persistence.c:90-92 | What an install leaves: the package in the slot that is not confirmed, its digest recorded, waiting for its trial. |
| Persistence.TrialExact | services/persistence.c:94-104 | A trial begins if and only if a package is staged, and finishes or is recovered if and only if it has begun. |
| Persistence.TrialEffect | services/update.c:31-38 | What each trial operation makes of the record; none touches a slot. |
| Persistence.SelectorConfirms | services/persistence.c:34-39 | The one-byte selector of the first format confirms the authenticated package of the slot it names. |
| Persistence.FinishKeeps | services/persistence.c:72-73 | One commit that finishes or recovers a trial returns to a stable record; only a successful finish changes the confirmed package, to the candidate. |
| Persistence.OpKeeps | services/persistence.c:83-104 | Every operation keeps the policy invariant and never lowers the confirmed version. |
| Persistence.EveryCrashIsSound | services/persistence.c:61-104 | Over every run with failures and crashes, whatever is mounted has a confirmed slot whose contents hash to the confirmed digest and authenticate under the confirmed name. |
| Persistence.InterruptedTrialRecovers | services/persistence.c:61-104 | From any settled point of any run, while no confirmation is begun, whatever any later crash leaves mounts with the same confirmed package, and a trial found half way can always be rolled back to it. |
| Persistence.VersionNeverDecreases | services/persistence.c:27-30 | Between any two points of any run the confirmed version does not decrease, as an order and as a number. |
| Persistence.RunOfFollows | services/persistence.c:83-104 | A run that begins only commits of one operation follows the policy, and confirms nothing unless that operation does. |
| Persistence.RunsJoin | services/persistence.c:61-104 | Runs of the service that meet join into one run that follows the policy, so the results over runs cover any sequence of calls. |
| PersistService.Service.ReadState | services/persistence.c:31-41 | Reading the state computes the decoded record, importing an old one-byte selector. |
| PersistService.Service.ConfirmedVersion | services/persistence.c:27-30 | The version floor is read from the digest-checked confirmed package. |
| PersistService.Service.Install | services/persistence.c:83-93 | Install commits exactly the planned updates or none, as a run of the crash protocol that begins only that commit and so follows the policy; when there is a plan is `InstallExact`. |
| PersistService.Service.BeginTrial | services/persistence.c:94-99 | Starting a trial commits exactly the trying record or nothing, in a run that follows the policy; with a confirmed package and nothing staged it succeeds without a commit. |
| PersistService.Service.Finish | services/persistence.c:100-104 | Finishing commits exactly the confirmed or rolled-back record or nothing, in a run that follows the policy. |
| PersistService.Service.RecoverTrial | services/persistence.c:72-73 | At mount an interrupted trial is rolled back and committed, in a run that follows the policy and confirms nothing. |
| IpcInvariant.InvalidateKeeps | kernel/ipc.c:18-18 | Ending an endpoint clears every capability to it and wakes its waiters, keeping the invariant. |
| IpcInvariant.CloseCapKeeps | kernel/ipc.c:19-25 | Closing a capability ends the endpoint exactly when it was the last reference. |
| IpcInvariant.InstallKeeps | kernel/ipc.c:9-16 | Installing a capability keeps the invariant and the capability limit. |
| IpcRuns.NextKeeps | kernel/ipc.c:26-64 | Every system call, tick, kill and spawn keeps the whole table invariant. |
| IpcRuns.BootInv | kernel/ipc.c:1-8 | The empty tables satisfy the invariant. |
| IpcRuns.BootStarts | kernel/core.c:25-51 | From there the first task starts without a parent, in the first slot, with the first process identifier. |
| IpcRuns.ReachableFacts | kernel/ipc.c:8-62 | In every reachable state an endpoint is live exactly while referenced, its owner is a live task, epochs match, a blocked task holds RECV on an empty queue, and limits hold. |
| IpcRuns.HandleNeverReturns | kernel/ipc.c:8-16 | A handle that stops resolving never resolves again in that task slot, across slot reuse. |
| IpcRuns.RightsNeverGrow | kernel/ipc.c:30-33 | No event but its creating that very endpoint gives a started task a right on it. |
| IpcRuns.RunRightsNeverGrow | kernel/core.c:49-49 | The same over any stretch of a run. |
| IpcFifo.CompactedRing | kernel/ipc.c:34-47 | In-place ring compaction equals filtering the queue. |
| IpcFifo.SurvivorsInOrder | kernel/ipc.c:34-62 | What was delivered followed by what waits is what was accepted and not withdrawn, in order. |
| IpcFifo.DeliveredThenQueued | kernel/ipc.c:34-62 | In every run, per endpoint incarnation, deliveries followed by the ring are the accepted sends in order minus those withdrawn by their own sender. |
| IpcFifo.ReceiveTakesOldest | kernel/ipc.c:57-59 | A receive that finds a message delivers the oldest waiting one. |
| IpcFifo.SendHandsOver | kernel/ipc.c:48-56 | A send that finds a waiter gives it the very message that counts as the next one delivered. |
| IpcLaws.ResolveExact | kernel/ipc.c:8-8 | A handle names a slot if and only if it spells the slot's number and generation and the slot holds a live capability with the rights asked for. |
| IpcLaws.InstallExact | kernel/ipc.c:9-16 | An install on a live endpoint succeeds if and only if the task has a slot; the returned handle named nothing before and now names that endpoint with exactly those rights, and no other handle of anybody changes. |
| IpcLaws.CreateExact | kernel/ipc.c:30-30 | A creation succeeds if and only if there is a slot and a free endpoint; the caller owns the endpoint and its new handle has every right. |
| IpcLaws.DeriveExact | kernel/ipc.c:32-32 | A derivation succeeds if and only if the handle is delegable, the rights asked for are among those held and there is a slot; the new handle names the same endpoint with exactly those rights. |
| IpcLaws.CloseExact | kernel/ipc.c:19-31 | A close takes away that handle and no other; the endpoint ends exactly with its last capability. |
| IpcLaws.RevokeExact | kernel/ipc.c:33-33 | A revocation succeeds if and only if the owner asks by a delegable handle; then nobody holds the endpoint, its waiters are told, and other handles stay. |
| IpcLaws.SendExact | kernel/ipc.c:48-56 | A well-formed, timely send by a holder of SEND goes to a waiter, or behind the queue, or finds it full, each exactly in its case. |
| IpcLaws.ReceiveExact | kernel/ipc.c:57-62 | A receive takes the oldest message; without one it times out at once exactly when its deadline has passed, or blocks until the deadline. |
| IpcLaws.DeadlinesExact | kernel/ipc.c:27-27 | A tick wakes exactly the tasks blocked past a deadline of their own, with the timeout status. |
| IpcLaws.CancelExact | kernel/ipc.c:34-47 | A cancel withdraws exactly the caller's own queued messages with that request identifier, keeps the rest in order, and says how many. |
| IpcLaws.DeathExact | kernel/core.c:55-55 | A death ends the task's endpoints for everybody and takes all it held; what others hold elsewhere stays. |
| IpcLaws.SpawnExact | kernel/core.c:25-53 | A spawn into a vacant slot without exhausted generations, of handles the parent may hand out, starts a task whose first slots hold exactly the grants, in order. |
| IpcKernel.KernelIpc.FindCapSlot | kernel/ipc.c:9-13 | The slot scan finds the first free, unexhausted slot within the limit. |
| IpcKernel.KernelIpc.InstallCap | kernel/ipc.c:14-16 | The in-place install computes the specified table and handle, which `IpcLaws.InstallExact` characterises. |
| IpcKernel.KernelIpc.InvalidateEndpoint | kernel/ipc.c:18-18 | The nested loops clear exactly the capabilities and waiters of one endpoint. |
| IpcKernel.KernelIpc.CloseSlot | kernel/ipc.c:19-25 | The reference scan decides whether the endpoint ends. |
| IpcKernel.KernelIpc.CleanupTask | kernel/ipc.c:26-26 | A dying task ends the endpoints it owns and drops its capabilities. |
| IpcKernel.KernelIpc.ExpireDeadlines | kernel/ipc.c:27-27 | Exactly the blocked tasks past their deadline wake. |
| IpcKernel.KernelIpc.SysCreate | kernel/ipc.c:30-30 | Creation takes the first free endpoint and installs a full capability, or changes nothing; `IpcLaws.CreateExact` says what the returned handle gives. |
| IpcKernel.KernelIpc.SysDerive | kernel/ipc.c:32-32 | Derivation installs the rights asked for of a delegable capability; `IpcLaws.DeriveExact` says what the returned handle gives. |
| IpcKernel.KernelIpc.SysRevoke | kernel/ipc.c:33-33 | Only the owner ends an endpoint by revocation. |
| IpcKernel.KernelIpc.Compact | kernel/ipc.c:36-46 | The packing and erasing loops compute the filtered ring and the number removed. |
| IpcKernel.KernelIpc.SysCancel | kernel/ipc.c:34-47 | Cancellation withdraws exactly the caller's messages with that request identifier. |
| IpcKernel.KernelIpc.SysSend | kernel/ipc.c:48-56 | A send hands over to the first waiter, or enqueues, or is refused, as specified. |
| IpcKernel.KernelIpc.SysReceive | kernel/ipc.c:57-62 | A receive dequeues, times out or blocks, as specified. |
| IpcKernel.KernelIpc.SpawnTask | kernel/core.c:25-53 | Spawning reuses a vacant slot, keeps capability generations and grants in order, or rolls back. |
| IpcKernel.KernelIpc.KillTask | kernel/core.c:55-55 | Death cleans up and vacates the slot. |
| PageTables.LeafBits | kernel/memory.c:53-53 | The flag bits of a leaf entry read back as written for every physical page. |
| PageTables.SameWalk | kernel/memory.c:43-49 | Changes outside a space's tables leave all its translations as they were. |
| PageTables.LinkLevel2 | kernel/memory.c:45-46 | Linking an empty level-2 table changes no translation. |
| PageTables.LinkLevel1 | kernel/memory.c:47-48 | Linking an empty level-1 table changes no translation. |
| PageTables.SetLeaf | kernel/memory.c:52-53 | Writing a leaf changes exactly one translation. |
| PageMemory.Isolation | kernel/memory.c:28-54 | A mapped pool page belongs to the mapping task, is no page table, is mapped at one address in one space, and no mapping is writable and executable. |
| PageMemory.AllocKeeps | kernel/memory.c:28-31 | Taking a page keeps every translation, count and quota. |
| PageMemory.BuryKeeps | kernel/memory.c:32-37 | Freeing a task's pages keeps every other space and leaves no page owned by a dead task. |
| PageMemory.SetKeeps | kernel/memory.c:52-53 | A leaf write maps exactly one page of one space and disturbs no other. |
| PageMemory.CopiesCompose | kernel/memory.c:64-64 | Two adjacent user copies make one. |
| KernelMemory.Memory.constructor | kernel/memory.c:4-5 | At boot every pool page is free and the invariant holds. |
| KernelMemory.Memory.PageAlloc | kernel/memory.c:23-31 | A page is zeroed, owned and charged, or nothing changes because the quota or the pool is exhausted. |
| KernelMemory.Memory.PagesFree | kernel/memory.c:32-37 | Exactly the pages of one task are zeroed and freed, and its count cleared. |
| KernelMemory.Memory.Kill | kernel/core.c:55-55 | A task's death frees its pages and keeps every other space's translations. |
| KernelMemory.Memory.Admit | kernel/core.c:29-33 | A slot given to a new process identifier starts with no pages. |
| KernelMemory.Memory.SpaceNew | kernel/memory.c:38-42 | A new space maps no user page; a failed one leaves its pages charged to the task. |
| KernelMemory.Memory.Pte | kernel/memory.c:43-49 | The walk finds the leaf slot; creating tables changes no translation even when it fails half way. |
| KernelMemory.Memory.SpaceMap | kernel/memory.c:50-54 | A map call adds exactly the requested translation or none, and a successful one is present, for the user, to that physical page, writable and executable exactly as the flags say; each error holds exactly in its case, the lack of space exactly when fewer pages can be had than tables are missing or the address is outside the user range. |
| KernelMemory.MappingGrants | kernel/memory.c:53-53 | For every physical page and flags the entry written grants read always, write exactly with the write flag and execution exactly with the execute flag. |
| KernelMemory.SharedLeaf | kernel/core.c:48-48 | Read-only mappings of memory outside the pool, and device windows at their address, are mappings the isolation invariant allows. |
| KernelMemory.Memory.SpaceMapMmio | kernel/memory.c:55-55 | A device page is mapped once: present, writable, uncached, marked so that copies refuse it, and never executable; above memory it keeps the isolation invariant. |
| KernelMemory.Memory.MapFresh | kernel/core.c:41-43 | A fresh zeroed page of the task's own is mapped at one address, writable and executable exactly as the flags say, or no translation changes. |
| KernelMemory.Memory.UserRange | kernel/memory.c:56-61 | The page loop accepts exactly the ranges whose every byte is mapped user memory with the access, and no device page. |
| KernelMemory.Memory.CopyIn | kernel/memory.c:63-63 | A copy in returns exactly the bytes the task sees at those addresses. |
| KernelMemory.Memory.CopyOut | kernel/memory.c:64-64 | A copy out changes exactly the addressed virtual bytes; elsewhere only a device window shared at the same address shows it. |
| KernelMemory.Memory.PageLimit | kernel/core.c:78-89 | Only the first task may call; each error holds exactly in its case; a query changes nothing, and a limit below the pages in use is refused. |
| Scheduler.Pick | kernel/sched_policy.c:2-14 | The loop returns the best-scoring eligible entry nearest after the current one, or -1 exactly when there is none. |
| Scheduler.PickUnique | kernel/sched_policy.c:5-12 | That choice is unique. |
| Scheduler.ScoreIs | kernel/sched_policy.c:8-9 | The score is the priority plus one for every four ticks waited, capped at three, and none for a task whose interval has not begun. |
| Scheduler.FirstPick | kernel/core.c:59-62 | The first pick of a call sees the running task as ready only since now and every other task as it is. |
| Scheduler.PassingOverApproaches | kernel/sched_policy.c:10-11 | Passing over a task that has waited twelve ticks brings the traversal strictly nearer to it. |
| Scheduler.NoStarvation | kernel/core.c:56-70 | A task ready for twelve ticks is picked before as many tasks have been returned as there are slots, whatever priorities are set meanwhile. |
| Scheduler.CallReturnsOne | kernel/core.c:60-68 | One scheduling call returns exactly one task, whatever tasks it kills on the way. |
| Scheduler.NoStarvationByCalls | kernel/core.c:56-70 | Fewer consecutive scheduling calls than there are slots can pass over a task ready for twelve ticks. |
| Scheduler.Cpu.Schedule | kernel/core.c:56-70 | The loop resets the running task's credit, kills picks with unusable frames whatever tasks that wakes, panics if that is the first task, and returns the first usable one, ready since now, or halts with none eligible. |
| Paths.CheckPath | services/namespace.c:2-3 | The scan accepts exactly the bounded, absolute, printable UTF-8 paths made of proper components. |
| Paths.BelowTrans | services/namespace.c:20-20 | Being at or below a directory is transitive. |
| NsInvariant.OpenKeeps | services/namespace.c:17-24 | Every outcome of an open keeps all counts, identities and the mount ledger. |
| NsInvariant.CloseKeeps | services/namespace.c:64-64 | A close counts down references, pipe writers and the mount exactly when it should. |
| NsInvariant.RemoveKeeps | services/namespace.c:38-60 | Removal takes only a node nobody has open. |
| NsInvariant.ReapKeeps | services/namespace.c:97-97 | Reaping removes exactly one owner's handles and keeps every count. |
| NsInvariant.UnmountKeeps | services/namespace.c:98-98 | Unmounting removes only nodes nobody has open and keeps the ledger. |
| NsInvariant.AttachLedger | services/storage.c:48-53 | Claiming a node for a mount keeps the mount ledger if and only if its mount does not change or nobody has it open. |
| NsRuns.NextKeeps | services/namespace.c:5-98 | Every operation keeps references, writers, node identities of live descriptions and, with orderly mounts, the ledger. |
| NsRuns.RunKeeps | services/namespace.c:5-98 | In every state of every run refs equal the handles, writers equal the live write descriptions, and opens minus closes equal the live descriptions on the mount. |
| NsRuns.LedgerCanBreak | services/storage.c:48-53 | A concrete run in which mounting over an open directory makes the ledger wrong. |
| NsFiles.PipeStep | services/namespace.c:67-84 | Across any event, bytes taken plus the queue left are the queue before plus bytes added. |
| NsFiles.PipeRun | services/namespace.c:67-84 | Over any stretch of any run a pipe is a first-in first-out byte queue. |
| NsFiles.PipeAccepts | services/namespace.c:83-84 | A pipe accepts as many bytes as fit behind its queue, moves no cursor, and blocks exactly when full. |
| NsFiles.PipeYields | services/namespace.c:65-67 | A permitted read of a non-empty pipe returns its oldest bytes, as many as asked or there are; on an empty pipe it blocks exactly while somebody has the pipe open for writing, and otherwise reports the end. |
| NsFiles.FileStep | services/namespace.c:68-93 | Under any event a regular file changes as a byte sequence: spliced with zero fill, resized with zeros, or unchanged, until it is removed. |
| NsFiles.FileRun | services/namespace.c:68-93 | Over any stretch of any run, until it is removed, a regular file holds its old bytes with every write and truncation applied in order. |
| NsFiles.FileAccepts | services/namespace.c:83-85 | A file accepts as many bytes as fit below its capacity at the cursor, and the cursor moves past them. |
| NsFiles.FileRead | services/namespace.c:65-69 | A read returns the bytes at the cursor and moves it past them. |
| NsFiles.SeekMoves | services/namespace.c:94-94 | A seek moves exactly that cursor, to any place within a file's capacity or a disk file's size; pipes and the console refuse. |
| NsFiles.FilePutIs | services/namespace.c:85-85 | A write past the end exposes zeros and never stale bytes. |
| NsFiles.QueuePut | services/namespace.c:84-84 | Writing into the ring appends to the queue across the wrap. |
| NsFiles.QueueTake | services/namespace.c:67-67 | Reading from the ring takes the oldest bytes across the wrap. |
| NsLaws.TokenExact | services/namespace.c:10-10 | A token names a slot if and only if it spells the slot's number and current generation and the slot is open for that owner. |
| NsLaws.OpenExact | services/namespace.c:18-24 | An open succeeds if and only if the path is a node at or below a directory root, the mode suits it, there is room and its mount agrees; it makes one description at the start of the node under one new token. |
| NsLaws.OpenAtIs | services/namespace.c:25-37 | A relative open is the open of the name joined to the directory's path, refused exactly when it asks for more access than the directory handle has. |
| NsLaws.DupExact | services/namespace.c:63-63 | A duplicate names the same description under one new token. |
| NsLaws.CloseExact | services/namespace.c:64-64 | A close retires its token and no other, and takes one reference from the description. |
| NsLaws.CreateExact | services/namespace.c:6-9 | A create succeeds if and only if the path is proper and new below a writable directory with a node free, and makes one empty node. |
| NsLaws.RemoveExact | services/namespace.c:38-62 | A removal succeeds if and only if one node of that kind is there below a writable directory, nobody has it open, no directory on the way is read-only or mounted and nothing is below it; it blanks that node only. |
| NsLaws.TruncateExact | services/namespace.c:87-93 | A file is truncated if and only if the handle writes and the length is within its capacity. |
| NsLaws.DiskRead | services/namespace.c:66-66 | A disk read returns what the backend moved, and the cursor moves by that much. |
| NsLaws.DiskWrite | services/namespace.c:82-82 | A disk write moves the cursor by what the backend took. |
| NsLaws.ConsoleWrite | services/namespace.c:81-81 | What is written to the console is printed, and nothing else changes. |
| NsLaws.UnmountExact | services/namespace.c:98-98 | A mount goes if and only if nothing on it is open; its nodes go and the disk directory is given back. |
| NsConfine.StepConfined | services/namespace.c:18-60 | No event of anybody takes a confined client's handles out of its root. |
| NsConfine.ClientHarmless | services/file_rpc.c:15-46 | No request of a confined client makes, removes, renames, retypes or writes a node; it can only take bytes from pipes. |
| NsConfine.ConsoleStays | services/namespace.c:38-60 | The console node is never removed or replaced. |
| NsConfine.GrantConfines | services/init.c:224-228 | The launcher's read-only directory grant establishes confinement. |
| NsConfine.OpenAtGrants | services/namespace.c:25-37 | A relative open grants at most the access of the directory handle, to a node at or below the directory. |
| FileRpc.DecodeIsClients | services/file_rpc.c:2-45 | Whatever a message says, it becomes an operation on the sender's own handles only. |
| FileRpc.NamedRequests | services/file_rpc.c:27-37 | Which operation each request with a name performs; an open is served only for writing the console. |
| FileRpc.HandleRequests | services/file_rpc.c:18-42 | Which operation each request on a handle alone performs, with which bytes, length or place. |
| FileRpc.OtherRequests | services/file_rpc.c:7-46 | All other requests, and those with a handle beyond 32 bits, change nothing. |
| FileRpc.SessionConfined | services/file_rpc.c:2-47 | Over every session interleaved with others, all client handles name the console or nodes at or below the root, and every request is harmless. |
| NamespaceService.Service.MakeNode | services/namespace.c:6-9 | Creation fills the first free node below a writable directory, or reports the precise error. |
| NamespaceService.Service.OpenPath | services/namespace.c:18-24 | The in-place open equals the specification, including the undone mount call when no handle is left. |
| NamespaceService.Service.OpenRelative | services/namespace.c:25-37 | The in-place relative open computes the specified tables and reply. |
| NamespaceService.Service.RemoveNode | services/namespace.c:38-60 | The parent, open and child scans decide removal as specified. |
| NamespaceService.Service.CloseHandle | services/namespace.c:64-64 | The in-place close equals the specification. |
| NamespaceService.Service.ReadBytes | services/namespace.c:65-69 | The in-place read equals the specification, ring loop included; `PipeYields`, `FileRead` and `DiskRead` say what it returns. |
| NamespaceService.Service.WriteBytes | services/namespace.c:81-86 | The in-place write equals the specification, ring loop included. |
| NamespaceService.Service.TruncateFile | services/namespace.c:87-93 | The in-place truncation equals the specification. |
| NamespaceService.Service.ReapOwner | services/namespace.c:97-97 | The reaping loop closes exactly the owner's handles in slot order. |
| NamespaceService.Service.UnmountTag | services/namespace.c:98-98 | The unmount loops clear exactly the mount's nodes or report it busy. |
| NamespaceService.Service.Dispatch | services/file_rpc.c:2-47 | Serving a message performs exactly the decoded operation and forgets the root when it is closed. |
| Utf8.DecodeEncode | services/package.c:8-14 | Every text of scalar values is accepted and decodes to itself. |
| Utf8.EncodeDecode | services/package.c:8-14 | Everything accepted is the UTF-8 encoding of exactly the text it decodes to. |
| Utf8.Check | services/package.c:8-14 | The validating loop decides validity. |
| Cbor.EncodeParses | tools/package/sfpack.py:61-87 | Every value within the limits encodes to bytes that are accepted whole, as that value. |
| Cbor.ParsedEncodes | services/package.c:16-33 | Every accepted item is the deterministic encoding of the value it stands for. |
| Cbor.OneMeaning | services/package.c:16-33 | Two values with one encoding are the same value. |
| Cbor.HeadBytes | services/package.c:16-21 | An item opens with its type in the high three bits and its argument in the fewest of 0, 1, 2, 4 or 8 further bytes that hold it. |
| Cbor.BeDigit | services/package.c:19-19 | Those bytes are the digits of the argument to base 256, the heaviest first. |
| Cbor.KindBytes | services/package.c:22-26 | The first byte of an item names its kind; truth values and null are the single bytes f4, f5 and f6. |
| Cbor.Vectors | tools/package/sfpack.py:61-80 | Integer, byte and text encodings that appendix A of RFC 8949 lists. |
| CborReader.CanonOk | tools/package/sfpack.py:82-86 | Whatever order entries are given in, the encoder's sorted output is within what is accepted. |
| CborReader.CanonPairsOk | tools/package/sfpack.py:82-86 | Sorting keeps the dictionary: every key maps to the same value. |
| CborReader.ReadHead | services/package.c:16-21 | The cursor reads exactly the shortest-form heads. |
| CborReader.ReadItem | services/package.c:22-33 | The recursive reader accepts exactly the items and stops after them. |
| CborReader.ReadPairs | services/package.c:27-31 | The key loop enforces strict length-then-bytes order. |
| CborReader.ManifestText | services/package.c:34-42 | On an accepted manifest the search equals map lookup of a text field that fits. |
| Layout.SortRanges | services/package.c:160-160 | The exchange sort orders the parallel arrays and keeps each start with its length. |
| Layout.ScanIsTiling | services/package.c:161-162 | In start order the gap scan accepts exactly the tilings. |
| Layout.CheckLayout | services/package.c:160-162 | Accepted if and only if no byte is in two parts, bytes in no part are zero, and a part ends the file. |
| Package.ReadSections | services/package.c:147-159 | The section loop accepts exactly the admitted section tables and collects their ranges. |
| Package.OpenPackage | services/package.c:133-163 | The parser decides well-formedness: header, parts, sections, layout and one whole dictionary as manifest. |
| Package.HeaderBytes | services/package.c:137-142 | A header passes if and only if its fixed bytes are the listed ones and its length field spells the length. |
| NativeImage.ValidateRelocations | services/package.c:70-84 | Accepted if and only if slots are aligned, increasing words of data sections with values inside the image. |
| NativeImage.RelocatedByte | services/native_image.c:17-25 | At every address of every mapped section the staged byte is the relocated word's byte there, or else the file's byte or zero. |
| NativeImage.PlanIsValid | kernel/core.c:12-24 | The segments and entry of every admitted package satisfy the kernel's plan checks. |
| NativeImage.SegmentsExact | services/native_image.c:16-19 | The plan has one segment for each mapped section, with its address, size and rights and the place of its bytes, and no other. |
| NativeImage.CheckPlan | kernel/core.c:12-24 | The kernel's loops decide exactly the plan conditions. |
| NativeImage.AdmittedFiles | services/native_image.c:9-14 | An admitted package passes every per-section preflight check. |
| NativeImage.WellFormedLoads | services/native_image.c:2-27 | From file to kernel: for every well-formed file and every accepted base and relocation table, the plan is valid and every staged byte is the file's, zero, or part of a relocated word. |
| NativeImage.Load | services/native_image.c:2-27 | Loading succeeds, and each error is returned, exactly in the stated case; success stages exactly the relocated image and plan at the given base, or the default one for 0, and failure changes nothing. |
| ManagerRuns.NextKeeps | services/manager.c:3-47 | Every manager operation keeps the ledger invariant when clients release only what they hold. |
| ManagerRuns.ZeroedInv | services/init.c:14-14 | The zero-initialised manager satisfies the ledger invariant. |
| ManagerRuns.LedgerIsExact | services/manager.c:16-46 | In every run of the zero-initialised manager leases are running dependents plus clients' own, providers of running modules run at the bound generation, and a stop fails only for resources in use. |
| ManagerRuns.StopNeverMalformed | services/manager.c:38-43 | The malformed-ledger branches of stop are unreachable. |
| ManagerRuns.RunningIsAcyclic | services/manager.c:21-25 | Running dependencies never form a cycle. |
| ManagerRuns.DeclaredCanBeCyclic | services/manager.c:3-15 | Slot reuse alone leads a manager of two slots to cyclic declared dependencies. |
| ManagerLaws.AddExact | services/manager.c:3-15 | A registration succeeds if and only if it is named, its providers are registered, a generation is left and a slot is vacant; it fills the first such slot and nothing else. |
| ManagerLaws.StartExact | services/manager.c:16-29 | A start succeeds if and only if every provider runs at the bound generation with a lease left; each provider then has one more lease and nothing else changes. |
| ManagerLaws.StopExact | services/manager.c:34-46 | In every run a stop succeeds if and only if the module drains and holds nothing; each provider then has one lease fewer. |
| ManagerLaws.DrainExact | services/manager.c:32-47 | Draining is for running modules that are not pinned and can be undone; a stopped module can be unloaded. |
| ManagerLaws.ResourcesExact | services/manager.c:30-31 | Resources are taken only from a running module below the limit and given back only if taken; giving back undoes taking. |
| ManagerLaws.PinnedNeverDrains | services/manager.c:32-32 | In every run no pinned module ever drains, stops or is unloaded, and one that runs keeps running at its generation. |
| ManagerService.Service.AddModule | services/manager.c:3-15 | Registration takes the first vacant slot, the next generation and the providers' generations. |
| ManagerService.Service.StartModule | services/manager.c:16-29 | Start checks all providers before leasing any. |
| ManagerService.Service.StopModule | services/manager.c:34-46 | Stop checks everything before returning any lease. |
| Cycle.FindCycle | services/manager.c:48-50 | A clear answer is right with any buffer. With one in which every path fits, such as one longer than twice the nodes, it is given if and only if every dependency is in range and the graph is acyclic, and a stopped search reports a real closed walk. |
| Cycle.SearchLine | services/manager.c:48-50 | On the acyclic line of any number of nodes the search answers clear if and only if the buffer is longer than twice the nodes. |
| Cycle.RoomIsExact | services/manager.c:48-48 | For every number of nodes and every buffer length, every report on every graph whose paths fit names its repeated node if and only if the buffer is longer than twice the nodes plus two. |
| Cycle.SearchRing | services/manager.c:48-50 | On a ring of any size that fits, the search stops with the whole ring, and names the repeated node if and only if the buffer is longer than twice the ring plus two. |
| Cycle.SearchLongest | services/manager.c:48-50 | For every number of nodes and every buffer the search, run on the longest ring that fits, names the repeated node if and only if the buffer is longer than twice the nodes plus two. |
| Cycle.SearchLoop | services/manager.c:48-50 | On one node that depends on itself, with a buffer of four, the search leaves the repeated node out. |
| Net.FoldIsResidue | services/net_proto.c:58-58 | End-around carry is reduction modulo 65535. |
| Net.InsertedVerifies | services/net_proto.c:54-62 | Inserting the folded complement, or all ones for a zero complement, makes the sum verify. |
| Net.ComputeChecksum | services/net_proto.c:7-10 | The loops compute the one's-complement checksum, odd lengths included. |
| Net.UdpRoundTrip | services/net_proto.c:69-91 | For all addresses, ports and payloads up to the limit, and any padding, a built datagram parses back. |
| Net.TcpRoundTrip | services/net_proto.c:92-117 | For all header fields and payloads up to the limit, and any padding, a built segment parses back whole. |
| NetLaws.ChecksumExact | services/net_proto.c:7-10 | A region verifies if and only if its bytes, weighed 256 and 1 in turn, add up to a positive multiple of 65535. |
| NetLaws.PseudoIs | services/net_proto.c:59-62 | What the pseudo-header adds: both addresses, the protocol and the length. |
| NetLaws.UdpExact | services/net_proto.c:79-91 | A datagram is received if and only if the frame carries it: an unfragmented verifying IPv4 packet with these addresses, ports, lengths and payload at their places, unsummed or summing to all ones. |
| NetLaws.TcpExact | services/net_proto.c:103-117 | A segment is received if and only if the frame carries that header and payload at their places and sums to all ones. |
| NetLaws.UdpBuilt | services/net_proto.c:69-78 | A built datagram carries what it was built from between the right stations and addresses, with a checksum that is never absent. |
| NetLaws.TcpBuilt | services/net_proto.c:92-102 | A built segment carries its header and payload between the right stations and addresses. |
| Net.BuildUdp | services/net_proto.c:69-78 | The in-place builder writes exactly the specified frame, or nothing for a payload over the limit. |
| Net.BuildTcp | services/net_proto.c:92-102 | The in-place builder writes exactly the specified frame, or nothing for a payload over the limit. |
| Net.ReceiveUdp | services/net_proto.c:79-91 | The parser computes the specified result, which `NetLaws.UdpExact` characterises. |
| Net.ReceiveTcp | services/net_proto.c:103-117 | The parser computes the specified result, which `NetLaws.TcpExact` characterises. |

## Left out

- Boot, architecture, IOMMU and device code (`kernel/arch.c`, `kernel/iommu.c`, `kernel/device.c`, `boot/`): hardware outcomes dominate.
- The virtio drivers and `services/storage.c` apart from how it claims and releases namespace nodes: device plumbing behind the sector interface.
- `services/init.c`, `services/program.c` and the probe programs: wiring and self-tests.
- SHA-256 and Ed25519 themselves: abstract functions here.
- `services/trust.c`, `services/supervisor.c`, `services/sdk.c`, `services/argparse.c`, `services/arguments.c`, `services/readfs.c`, `services/file_client.c`, `kernel/vtd_tables.c`: would only add easy members.
- Reading the version out of a package: versions enter the policy as numbers from the abstract authentication; the text parser stands beside it.
- Package.OpenPackage: stops after the manifest's structure; the required manifest fields, the application limits, the revocation list and the signature only reject more packages.
- `sf_manifest_capability`, `app_abi`, `app_manifest` and `native_profile`: further searches of the same kind as `ManifestText`; the loader takes their outcome as fields of the package.
- PersistService.Service.Install: reports one failure for the source's different error codes before the commit; what is committed, and the uncertain outcome, are exact.
- PersistService.Service.Finish: reports one failure for the source's different error codes before the commit.
- PersistService.Service.RecoverTrial: the trial recovery of `sf_persist_mount` only; the revocation list, the write range and the namespace nodes of the mount are not modelled.
- Revocation (`sf_persist_revoke`) and user notes: their commits touch other keys and appear only as other data in the policy runs.
- The storage transaction lease around a commit: one client uses the store at a time.
- FileRpc.Decode: the replies to the read-only requests (positional read, stat, poll, enumerate, root) are not modelled; that they change nothing is.
- NamespaceService.Service.Dispatch: the reply is the namespace result, not the rewritten message.
- ARP, ICMP and IPv4 text conversion in `services/net_proto.c`: the same techniques on simpler frames.
- IpcKernel.KernelIpc.SysSend: the copy of the message through user memory is a boolean; the copy itself is `KernelMemory.Memory.CopyIn` and `CopyOut`.
- KernelMemory.Memory.SpaceMapMmio: register contents are not modelled.
- NativeImage.CheckPlan: covers the segments, entry and base; the plan's size, arguments and device-grant fields and the segments' source addresses, which the loader leaves to the process manager, are not modelled.
- IpcKernel.KernelIpc.SpawnTask: building the address space and the device grant is one failure flag; the pages are in `KernelMemory`.
- Construction of a task's image pages and argument page in `task_new_limited`: the allocation and mapping step is `MapFresh`, the loop over segments is not restated.
- Unused module states (quarantined, failed): no transition in the manager reaches them.
- Time is counted in ticks; conversion to nanoseconds in IPC deadlines is a parameter.
