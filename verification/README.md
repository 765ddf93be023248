# Kernel components in Dafny

A model of the stateful core of a small x86_64 kernel: the cluster-chain file system, the
preemptive round-robin scheduler with its timer interrupt, the two boundary-tag heap allocators,
the text console and the keyboard. Each component is written twice. A specification on values
says what its callers see; a class with the arrays, links and loops of the code is proved to take
exactly the steps of that specification. What holds over all inputs, all runs and all
interleavings is then proved about the specification.

`dafny verify dfyconfig.toml` checks everything.

| file | contents |
|---|---|
| `Basics.dfy` | what several components share |
| `FatTable.dfy` | the table of cluster links: release and allocation in any table, ownership of chains |
| `Volume.dfy`, `VolumeRuns.dfy` | the file system as a table of named nodes with their bytes, and theorems over its runs |
| `VolumeCodes.dfy` | each file system operation exactly: every code by its condition, and the table afterwards |
| `FileSystem.dfy` | the entry table, the table of links and the RAM disk, changed in place |
| `Scheduling.dfy` | scheduling on values: steps, invariant, bounded waiting |
| `Lifecycle.dfy` | what ticks, creations, reaping, leaving and stopping do to each task |
| `Reclamation.dfy` | reclaiming zombies with ticks between any two steps of exit and reap |
| `Scheduler.dfy` | tasks as objects in a closed ring and a zombie chain |
| `Context.dfy` | saving and restoring contexts on a stack machine, and a system of tasks with their stacks |
| `Timer.dfy` | the timer interrupt: the stack machine and the scheduler together take the steps of that system |
| `BlockList.dfy` | block lists: splitting, merging, first fit, reallocation, histories, statistics |
| `HeapMemory.dfy`, `HeapList.dfy`, `Heap.dfy` | headers as little-endian bytes, lists in memory, and both allocators on a byte array |
| `KernelHeap.dfy` | the kernel allocator with its tail pointer: expansions, and histories with them |
| `HeapCases.dfy` | each operation of the allocators case by case, in terms of the blocks alone |
| `HeapExpansion.dfy` | what one expansion of the kernel heap leaves in memory |
| `Console.dfy` | the screen as the last 25 rows of an unbounded transcript |
| `Keyboard.dfy` | decoding under Shift, Caps Lock and Ctrl, and the circular buffer as a bounded queue |
| `KeyCodes.dfy` | the keys by name, and what each types after any history of scan codes |

## Where the code does not do what one would expect

For each of these the condition under which the code behaves well is stated exactly, and a run or an
input shows that the other case occurs.

- A name of 64 characters or more is stored shortened and no longer compares equal, so the same
  directory can be made twice, and a file written under such a name is never found under it. Names
  stay unique if and only if no operation passes its checks for the name as given while the shortened
  name is there (`StepUnique`, `LongNamesCollide`); a write is read back under the caller's name if and
  only if the name fits (`WriteThenRead`).
- With an empty extension a write can find a directory. The directory then gets bytes and clusters of
  its own, which a further such write replaces and reading by that name returns. Removing the directory
  loses these clusters; nothing else loses any (`StepBalance`, `StrayLeaks`, `DropDir`). The result -5
  means that such a directory without bytes was hit on a full volume (`OverwriteCapacity`).
- Writing directly along a chain that is longer than the data cuts the chain and leaks its tail
  (`WriteChain`, `CutLeaks`). Writing by name never does this.
- Reaping re-enables interrupts, so `task_exit` marks its task and puts it on the zombie list with
  interrupts on. A zombie gets lost if and only if a tick comes between the two, or the reaper that
  holds it is stopped (`LostExactly`, `LostReachable`, `StopsReachable`). It stays lost until it is
  itself stopped, which is possible only while it is in the ring (`LostUntilStopped`, `LostForGood`).
- `task_stop` frees its target at once. Some task is then freed twice in some continuation if and only
  if the target is on the zombie list or held by a preempted reaper, that is, a zombie that is not
  lost (`StopExactly`, `StopsReachable`); a target that is not a zombie is safe (`NotZombieCareful`).
- `task_is_alive` returns with interrupts off for numbers that are not positive (`TaskIsAlive`).
- A shrinking realloc does not coalesce. Two free neighbours arise if and only if it cuts off a rest
  in front of a free block (`StepCoalesced`, `CutHappens`).
- Rounding a request up can overflow 64 bits. A live block is at least as large as last asked for if
  and only if that size is at most 2^64 - 8 (`HistoryMet`, `OverflowHappens`).
- When no block fits, the kernel allocator expands its heap downwards from the end of the region, over
  memory that its blocks cover already. It writes a header there and links it from its tail pointer.
  What list is in memory after that is told exactly (`After`, `AfterExactly`). With the tail pointer at
  the last block none is left (`LastTailBreaks`, `FirstExpansionBreaks`, `BreakHappens`). But growing a
  block in place over the last one leaves the tail pointer stale, and nothing else does
  (`StepKeepsTail`). The list then survives as it is if the new header and the next field of the tail
  lie in payloads, which is exactly when the writes miss all headers (`MissesExactly`); the payload is
  destroyed instead (`PayloadLost`), and the allocator expands again and again until it is refused
  (`SurvivalHappens`: 20 times after `malloc(64)`, `realloc(p, 960)`, `malloc(8)` in 1000 bytes). It may
  also happen that the new block takes the place of all blocks behind the tail.
- An expansion is refused if and only if it reserves more than lies between the start of the region and
  the break, and no more than the break's address (`RefusesExactly`). It goes astray, past address 0, if
  and only if n bytes and a header are more than that address (`ExpandsExactly`).
- One flag stands for two Shift keys, and one for two Ctrl keys. It says whether one of them is held if
  and only if the last event is not a release of one while the other is held (`FlagsExactly`,
  `HeldForgotten`). The code compares a 7-bit key with 0xE01D for the right Ctrl key, which never
  holds; that key still acts as Ctrl, because its prefix byte has no effect (`ExtendedPrefix`).
- Rubbing out a text brings the cursor back to its start if and only if that place is still on the
  screen (`TypeThenErase`).

## Model

| member | source | states |
|---|---|---|
| `FatTable.ClustersDisjoint` | fat16/fs.c:30-35 | clusters map to pairwise disjoint byte ranges inside the 64 MiB RAM disk |
| `FatTable.FreeClusterChain` | fat16/fs.c:52-65 | terminates on every table, cyclic ones included, and zeroes exactly the entries that the walk from its argument reaches |
| `FatTable.WalkIsReach` | fat16/fs.c:57-64 | when the walk stops, what it has seen is what the first cluster reaches |
| `FatTable.ClosedUnderPath` | fat16/fs.c:57-64 | a set closed under links holds everything reachable from it |
| `FatTable.AllocCluster` | fat16/fs.c:38-49 | the lowest free cluster, marked as end of chain; 0 exactly when no cluster is free |
| `FatTable.ChainsDisjoint` | fat16/fs.c:167-227 | chains of different files share no cluster and no chain meets a cluster twice |
| `FatTable.NothingLeaked` | fat16/fs.c:167-227 | a table entry is non-zero exactly when it lies on the chain of some file |
| `FatTable.ChainIsReach` | fat16/fs.c:52-65 | what the walk from the first cluster of a chain reaches is that chain |
| `FatTable.ChainUnique` | fat16/fs.c:303-315 | the table and the first cluster determine the chain |
| `FatTable.StartOwned` | fat16/fs.c:185-200 | giving a file a fresh first cluster keeps ownership and takes one free cluster |
| `FatTable.ExtendOwned` | fat16/fs.c:342-352 | linking a fresh cluster behind the last one keeps ownership and takes one free cluster |
| `FatTable.DropOwned` | fat16/fs.c:220-226 | zeroing the chain of a file keeps ownership and frees exactly as many clusters as the chain has |
| `FatTable.RekeyOwned` | fat16/fs.c:213-218 | a chain whose directory is removed stays as it is in the table, without an entry |
| `FatTable.ChainsApart` | fat16/fs.c:52-65 | no walk from one chain reaches a cluster of another, so nothing frees or reads a lost one |
| `FatTable.WalkChain` | fat16/fs.c:303-315 | on a chain a read visits the chain, as far as it goes |
| `FatTable.CutLeaks` | fat16/fs.c:358-362 | ending a chain before its last cluster leaves a table that no assignment of chains with these first clusters accounts for |
| `Volume.Clusters` | fat16/fs.c:331-363 | a file of n bytes takes max(1, ceil(n / 512)) clusters |
| `Volume.Lowest` | fat16/fs.c:85-93 | the least slot of a set, or -1 |
| `Volume.Fitting` | fat16/fs.c:408-415 | the longest prefix that fits into a number of clusters: all of it if and only if it is short enough, and otherwise one that fills them |
| `Volume.AddLeaf` | fat16/fs.c:137-150 | an entry put into any unused slot below a directory keeps the directory tree |
| `Volume.RemoveLeaf` | fat16/fs.c:154-164 | removing an entry without children keeps every parent chain to the root, whatever the order of slots |
| `Volume.StepTree` | fat16/fs.c:122-416 | every operation keeps the tree, from every state and for every name |
| `Volume.StepBalance` | fat16/fs.c:122-416 | every operation keeps the number of clusters that are free or belong to an entry, less exactly the clusters of a directory with stray bytes that it removes |
| `Volume.RoomIsTheRest` | fat16/fs.c:389-399 | the clusters an overwrite can use are those that all other entries leave |
| `VolumeRuns.InitGood` | fat16/fs.c:68-82 | the initial volume is a tree with all clusters free |
| `VolumeRuns.RunGood` | fat16/fs.c:68-416 | in every reachable state every entry's parent is a directory and its parent chain reaches the root, and the clusters lost are exactly those of removed directories with stray bytes |
| `VolumeRuns.StrayLeaks` | fat16/fs.c:389-399 | making a directory, writing to it with an empty extension and removing it loses the clusters of the data, for all data that fits |
| `VolumeRuns.StepUnique` | fat16/fs.c:130-142 | an operation keeps names unique if and only if it does not pass its checks for the name as given while the shortened name is there |
| `VolumeRuns.RunUnique` | fat16/fs.c:130-179 | with names that fit, no directory ever holds two directories of one name or two files of one name and extension |
| `VolumeRuns.LongNamesCollide` | fat16/fs.c:109-150 | for every name of 64 characters or more, making it twice makes two alike directories |
| `VolumeRuns.StepRead` | fat16/fs.c:167-430 | for all operations and all keys: an operation changes what its own key reads, as it should, and what no other key reads |
| `VolumeRuns.RunKeepsFile` | fat16/fs.c:167-430 | every key reads the same after any run of operations that are not about it |
| `VolumeRuns.ReadsLastWrite` | fat16/fs.c:294-430 | in every run from the start every key reads as the last operation about it left it: the bytes written, as many as fitted, nothing if only created, absent or the entry it hid if removed |
| `VolumeRuns.NeverWritten` | fat16/fs.c:230-261 | a key that no operation was about names nothing |
| `VolumeRuns.FileOutcome` | fat16/fs.c:167-430 | with unique names and an extension: a created file reads as empty, a written one as what fitted, a removed one not at all, and after an error as before |
| `VolumeRuns.WriteThenRead` | fat16/fs.c:369-430 | what was written is read back under the same name, as much as fitted, if and only if name and extension fit their fields |
| `VolumeRuns.LongNeverRead` | fat16/fs.c:230-261 | a name of 64 characters or more is never found |
| `VolumeRuns.OverwriteCapacity` | fat16/fs.c:369-416 | overwriting succeeds if and only if the clusters of the data are at most the free ones plus the old chain; otherwise -6 with exactly that much stored; -5 only for a directory without bytes on a full volume |
| `VolumeRuns.CreateCapacity` | fat16/fs.c:369-416 | writing a new file succeeds if and only if a slot is free and the free clusters cover the data; the exact state and code otherwise |
| `VolumeRuns.RemoveUndoesWrite` | fat16/fs.c:207-227 | removing a file that a write has made restores the volume as it was before, also after a write that did not fit |
| `VolumeCodes.MkdirExactly` | fat16/fs.c:123-151 | for every volume, name and parent: each of -1 to -4 if and only if its own condition on the table holds and no earlier one; otherwise the lowest unused slot, which is returned, holds an empty directory of the shortened name, and nothing else changes |
| `VolumeCodes.RmdirExactly` | fat16/fs.c:154-164 | 0 if and only if the index names a directory other than the root in which nothing is; then exactly this entry is gone and no cluster is freed; -1, -2, -3 exactly by their own conditions, with nothing changed |
| `VolumeCodes.CreateExactly` | fat16/fs.c:167-204 | each of -1 to -5 if and only if its own condition holds and no earlier one; otherwise the lowest unused slot, which is returned, holds an empty file and one cluster is taken |
| `VolumeCodes.RemoveExactly` | fat16/fs.c:207-227 | 0 if and only if the entry is used, not the root, and a file or an empty directory; a file gives back max(1, ceil(n / 512)) clusters, a directory none; -1, -2, -3 exactly |
| `VolumeCodes.LookupExactly` | fat16/fs.c:230-261 | the lowest entry of the directory with this name and extension, directories only for an empty one; -1 if and only if there is none |
| `VolumeCodes.ReadExactly` | fat16/fs.c:418-430 | reading by name finds nothing if and only if no entry has it, and gives the bytes of the lowest that has |
| `VolumeCodes.WriteCodes` | fat16/fs.c:369-399 | each of -1 to -4 if and only if its own condition holds; otherwise the write goes to the lowest entry of this name, or to the lowest unused slot |
| `VolumeCodes.OverwriteStores` | fat16/fs.c:389-415 | an overwrite stores what fits into the free clusters and its own; 0, -5, -6 exactly, and the whole volume after each |
| `VolumeCodes.NewFileStores` | fat16/fs.c:396-415 | a new file stores what fits into the free clusters; 0 and -6 exactly, and the whole volume |
| `VolumeCodes.StoredMeans` | fat16/fs.c:141-142 | the stored name is the first 63 characters |
| `FileSystem.NameEq` | fat16/fs.c:109-120 | equality of terminated strings, or of their first n characters |
| `FileSystem.FileSystem.constructor` | fat16/fs.c:68-82 | the volume with the root directory only |
| `FileSystem.FileSystem.FindInDir` | fat16/fs.c:230-261 | the lowest matching entry of the directory, -1 if there is none |
| `FileSystem.FileSystem.FindFreeEntry` | fat16/fs.c:85-93 | the lowest unused slot above the root, -1 if there is none |
| `FileSystem.FileSystem.ChildExists` | fat16/fs.c:96-106 | whether some entry has this one as its parent |
| `FileSystem.FileSystem.TwinExists` | fat16/fs.c:130-135 | whether a directory, or a file, of this name is in the directory |
| `FileSystem.FileSystem.Mkdir` | fat16/fs.c:123-151 | is the step of the volume that `MkdirExactly` tells |
| `FileSystem.FileSystem.Rmdir` | fat16/fs.c:154-164 | is the step of the volume that `RmdirExactly` tells: it succeeds for every empty directory but the root |
| `FileSystem.FileSystem.DropDir` | fat16/fs.c:160-163 | the directory is gone; its stray chain, if any, stays in the table without an entry |
| `FileSystem.FileSystem.CreateFile` | fat16/fs.c:167-204 | is the step of the volume that `CreateExactly` tells; the new file owns a chain of one cluster |
| `FileSystem.FileSystem.RemoveEntry` | fat16/fs.c:207-227 | is the step of the volume that `RemoveExactly` tells |
| `FileSystem.FileSystem.DropFile` | fat16/fs.c:220-226 | the file is gone and exactly the clusters of its bytes are free again |
| `FileSystem.FileSystem.ReleaseChain` | fat16/fs.c:222-223 | frees exactly the chain of one owner, and nothing if it has none |
| `FileSystem.FileSystem.NextCluster` | fat16/fs.c:342-356 | the next cluster of the chain, a fresh one at its end, 0 only when none is free |
| `FileSystem.FileSystem.WriteChain` | fat16/fs.c:320-366 | the data, as far as chain and free clusters hold it, lies along the chain; no byte of the disk outside the clusters of the chain changes; a longer chain is cut behind the data |
| `FileSystem.AppendCluster` | fat16/fs.c:333-338 | storing one more cluster extends the stored prefix and leaves the earlier clusters |
| `FileSystem.OthersKeep` | fat16/fs.c:320-366 | a write along one chain changes the bytes of no other file |
| `FileSystem.FillView` | fat16/fs.c:401-415 | filling the chain of an entry fills exactly that file of the volume |
| `FileSystem.FileSystem.Overwrite` | fat16/fs.c:389-415 | replaces the bytes of an entry, be it a file or a directory; lost chains stay |
| `FileSystem.FileSystem.WriteFile` | fat16/fs.c:369-416 | is the step of the volume, with every code, in every case |
| `FileSystem.FileSystem.ReadChain` | fat16/fs.c:294-318 | in any table, cyclic ones included: the bytes along the links from the first cluster, as many as asked for and as the walk has |
| `FileSystem.ReadIs` | fat16/fs.c:418-430 | the bytes along the links of an entry are the contents of its node |
| `FileSystem.FileSystem.ReadFile` | fat16/fs.c:418-430 | exactly what the volume says the file holds; -1 if and only if it does not exist, -2 only if the buffer is too small |
| `Scheduling.TickChooses` | multitask/multitask.c:160-230 | every tick makes a runnable member of the ring current |
| `Scheduling.TickInv` | multitask/multitask.c:186-230 | a tick keeps the invariant: distinct ring with init, only current or init running, zombies listed once |
| `Scheduling.CreateInv` | multitask/multitask.c:118-157 | a new task at the tail keeps the invariant |
| `Scheduling.UnlinkInv` | multitask/multitask.c:245-280 | taking out a task removes that one task from the ring, also a current zombie |
| `Scheduling.RunInv` | multitask/multitask.c:102-424 | the invariant holds in every state reachable by ticks, creations and the steps of exit, stop and reap |
| `Scheduling.TickTurns` | multitask/multitask.c:160-176 | a tick moves the chosen task and all before it to the end of the order |
| `Scheduling.TickAhead` | multitask/multitask.c:160-230 | a tick that chooses another task lowers the number of runnable tasks ahead |
| `Scheduling.CreateAhead` | multitask/multitask.c:145-156 | a creation puts at most one more task ahead |
| `Scheduling.UnlinkAhead` | multitask/multitask.c:245-280 | taking tasks out, the tail and a current one included, puts no task ahead |
| `Scheduling.BoundedWaiting` | multitask/multitask.c:145-280 | in every run a runnable task that stays in the ring is chosen within the runnable tasks ahead of it, plus the tasks created meanwhile, plus one ticks |
| `Scheduling.ReapAllIsRun` | multitask/multitask.c:302-319 | reaping is a run of detach, unlink and free steps; exactly the listed zombies leave the ring |
| `Scheduling.ExitIsRun` | multitask/multitask.c:412-424 | what `ExitMeans` tells is a run of such steps and keeps the invariant |
| `Scheduling.StopIsRun` | multitask/multitask.c:356-410 | stopping is a run of such steps, keeps the invariant and takes the task out of the ring |
| `Lifecycle.TickMeans` | multitask/multitask.c:186-230 | a tick makes a ring member current and running; the task that ran is ready again; no other task changes state, nobody changes place |
| `Lifecycle.TickNearest` | multitask/multitask.c:160-176 | of the ready or running tasks it chooses the first behind the current one, around the ring, also when the current one has left it |
| `Lifecycle.CreateMeans` | multitask/multitask.c:118-157 | a new task is ready and last in the ring, and all others stay as they are |
| `Lifecycle.UnlinkMeans` | multitask/multitask.c:245-280 | exactly one task leaves the ring, the others keep their order, and no state changes |
| `Lifecycle.ReapMeans` | multitask/multitask.c:302-319 | exactly the listed zombies are freed and leave the ring; all other tasks keep state and order |
| `Lifecycle.ExitMeans` | multitask/multitask.c:412-424 | the current task becomes the one zombie on the list and stays current and in the ring; the zombies listed before are freed; all others keep state and order; for init, or before the first tick, only the reaping happens |
| `Lifecycle.StopMeans` | multitask/multitask.c:356-410 | another task leaves the ring and is freed; the current one leaves the ring as the one zombie on the list; a task out of the ring is left alone; the zombies listed before are freed and all others keep state and order |
| `Reclamation.FreeIsSafe` | multitask/multitask.c:309-318 | what a reaper frees was never freed before, is out of the ring and is not current |
| `Reclamation.StepSafe` | multitask/multitask.c:186-424 | every step of every task, in any interleaving, careful stops included, keeps the reapers' lists disjoint, dead and not current |
| `Reclamation.RunSafe` | multitask/multitask.c:186-424 | in every interleaving of ticks, creations, exits, careful stops and any number of reapers no task is freed twice |
| `Reclamation.BootSafe` | multitask/multitask.c:102-115 | the initial state is safe |
| `Reclamation.LostExactly` | multitask/multitask.c:302-424 | a zombie gets lost if and only if a tick comes between its being marked and being listed, or the reaper that holds it is stopped |
| `Reclamation.LostUntilStopped` | multitask/multitask.c:370-405 | a lost zombie stays lost, and is not freed, if and only if the step does not stop it |
| `Reclamation.LostForGood` | multitask/multitask.c:370-405 | over whole runs: a lost zombie that is not stopped, or has left the ring, is never freed |
| `Reclamation.LostReachable` | multitask/multitask.c:412-424 | a run from the start that loses a zombie |
| `Reclamation.StopExactly` | multitask/multitask.c:370-407 | after a stop some run frees a task twice if and only if the task stopped was on the zombie list or held by a reaper, that is, a zombie that was not lost |
| `Reclamation.HeldFreedTwice` | multitask/multitask.c:309-318 | the run that frees a stopped task again when the reaper that holds it goes on |
| `Reclamation.ListedFreedTwice` | multitask/multitask.c:304-318 | the run that frees a stopped task again when the zombie list is reaped |
| `Reclamation.NotZombieCareful` | multitask/multitask.c:402-405 | stopping a task that is not a zombie is safe |
| `Reclamation.StopsReachable` | multitask/multitask.c:356-410 | a state reached from the start in which one stop leads to a double free and another loses a zombie |
| `Reclamation.TicksTo` | multitask/multitask.c:160-230 | after finitely many ticks any runnable task of the ring is current |
| `Reclamation.StepIsRun` | multitask/multitask.c:186-424 | every step of an interleaving is a run of operations of the scheduler |
| `Reclamation.WaitsBounded` | multitask/multitask.c:145-319 | in interleavings with any number of reapers, exits and careful stops, a runnable task that stays in the ring is chosen within the runnable tasks ahead of it, plus those created, plus one ticks |
| `Scheduler.Scheduler.constructor` | multitask/multitask.c:102-115 | a ring of the initial task alone, nothing current |
| `Scheduler.Scheduler.OrderLinked` | multitask/multitask.c:165-173 | following next-pointers from the search start visits every task of the ring once, also when the current one has left it |
| `Scheduler.Scheduler.PickNext` | multitask/multitask.c:160-176 | terminates and finds the first runnable task in that order |
| `Scheduler.Scheduler.ScheduleFromIsr` | multitask/multitask.c:186-230 | is the tick of the specification; records the frame of the interrupted task and of no other, and returns the frame of the chosen one; the system-call stack top is that of the current task |
| `Scheduler.Scheduler.PreemptCurrent` | multitask/multitask.c:188-203 | the interrupted task keeps its frame and is no longer running; on the first tick that is the initial task |
| `Scheduler.Scheduler.TaskCreate` | multitask/multitask.c:118-157 | a fresh task with the next number, its frame, stack top and user memory, at the tail; nothing without memory |
| `Scheduler.Scheduler.InsertTail` | multitask/multitask.c:145-156 | the pointers close the ring with the new task as tail |
| `Scheduler.Scheduler.AddToZombieList` | multitask/multitask.c:236-242 | puts the task first on the chain of zombies |
| `Scheduler.Scheduler.FindInRing` | multitask/multitask.c:264-279 | terminates; finds a task with its predecessor if and only if it is in the ring |
| `Scheduler.Scheduler.Splice` | multitask/multitask.c:270-272 | the pointers close the ring without the task, whose own pointer stays |
| `Scheduler.Scheduler.UnlinkFromRing` | multitask/multitask.c:245-280 | takes the task out if it is in the ring, and says whether it was |
| `Scheduler.Scheduler.ReapZombies` | multitask/multitask.c:302-319 | takes all zombies off the list, out of the ring and frees them; interrupts are on afterwards |
| `Scheduler.Scheduler.FreeTask` | multitask/multitask.c:283-299 | the task is no longer among the live ones |
| `Scheduler.Scheduler.TaskExit` | multitask/multitask.c:412-424 | is the step that `ExitMeans` tells: a current task other than the first is a zombie in the ring and alone on the zombie list; interrupts are on |
| `Scheduler.Scheduler.FindPid` | multitask/multitask.c:370-380 | the task with this number, null exactly when none in the ring has it |
| `Scheduler.Scheduler.TaskStop` | multitask/multitask.c:356-410 | is the step that `StopMeans` tells, with both error cases; interrupts are on afterwards, or as before for number 0 |
| `Scheduler.Scheduler.StopSelf` | multitask/multitask.c:388-400 | the current task becomes a listed zombie off the ring |
| `Scheduler.Scheduler.StopOther` | multitask/multitask.c:402-407 | the task leaves the ring and is freed |
| `Scheduler.Scheduler.TaskIsAlive` | multitask/multitask.c:472-506 | true exactly when a task with this number is in the ring and no zombie; interrupts are on afterwards if and only if the number is positive |
| `Context.Machine.PushRegisters` | interrupt/isr32.asm:28-44 | every general register lies in its slot below the old stack pointer; nothing else changes |
| `Context.Machine.PopRegisters` | interrupt/isr32.asm:74-89 | every general register is taken from its slot |
| `Context.Machine.Save` | interrupt/isr32.asm:25-48 | the frame at the new stack pointer is the interrupted context |
| `Context.Machine.Restore` | interrupt/isr32.asm:66-92 | the context is that of the frame |
| `Context.FrameLayout` | multitask/multitask.c:42-65 | which word of a frame each register is |
| `Context.Machine.EnterHandler` | interrupt/isr32.asm:25-60 | up to the scheduler: the frame holds the interrupted context whatever the C functions leave below it, and nothing outside the stack changes |
| `Context.Machine.LeaveHandler` | interrupt/isr32.asm:62-92 | from the scheduler on: the context is that of the frame found in the slot |
| `Timer.Isr32` | interrupt/isr32.asm:25-92 | the handler around the scheduler is a tick of the scheduler and the step of the system that resumes the task chosen; the saved stack pointers stay those of the tasks |
| `Timer.CreateTask` | multitask/multitask.c:118-157 | creating a task is the step of the system that starts it |
| `Timer.Removes` | multitask/multitask.c:283-299 | giving back stacks is a run of removals that every task which stays sleeps through |
| `Timer.Reap` | multitask/multitask.c:302-319 | reaping is a run of removals of the system, and keeps it and the scheduler tied |
| `Timer.Exit` | multitask/multitask.c:412-424 | so is leaving |
| `Timer.Stop` | multitask/multitask.c:356-410 | so is stopping |
| `Timer.BootSound` | multitask/multitask.c:102-115 | the boot code on the stack of the initial task is a sound system |
| `Timer.Boot` | multitask/multitask.c:102-115 | after booting, machine and scheduler make up such a system |
| `Context.Machine.PrepareInitialStack` | multitask/multitask.c:40-98 | all 22 words of the frame of a new task: 32, sixteen zeros, its entry point, 0x08, 0x202, the stack top and 0x10; nothing outside the frame changes |
| `Context.TickSound` | multitask/multitask.c:186-230 | a tick keeps all sleeping contexts; the resumed task gets exactly the one saved for it |
| `Context.StartSound` | multitask/multitask.c:118-157 | a new task does not disturb any sleeping context |
| `Context.StepSound` | interrupt/isr32.asm:25-92 | every step keeps every sleeping context on its own stack |
| `Context.ResumesWhereLeft` | interrupt/isr32.asm:25-92 | after any run in between, a resumed task has exactly the registers, rip, cs, rflags, rsp and ss with which it was interrupted |
| `Context.FirstResume` | multitask/multitask.c:40-98 | after any run in between, the first resume has rip at the entry point, rsp at the stack top, rflags 0x202, cs 0x08, ss 0x10 and every general register 0 |
| `Context.WithFrameHolds` | multitask/multitask.c:42-65 | a context written as a frame reads back as that context and changes nothing else |
| `Context.TickPossible` | interrupt/isr32.asm:25-92 | in every sound system a tick can resume any task |
| `Context.StartPossible` | multitask/multitask.c:118-157 | in every sound system a task can be created on any unused stack that holds a frame |
| `BlockList.AlignUp` | malloc/malloc.c:37-40 | the least multiple of 8 not below the request, 0 for the last seven 64-bit values |
| `BlockList.FirstFit` | malloc/malloc.c:87-97 | the first free block that is large enough |
| `BlockList.Ordered` | malloc/user_malloc.c:44-57 | blocks in list order are in address order and inside the region |
| `BlockList.SplitTiles` | malloc/malloc.c:100-120 | splitting keeps the region covered without gap or overlap, at aligned addresses |
| `BlockList.JoinTiles` | malloc/malloc.c:250-259 | absorbing a run of successors keeps the region covered |
| `BlockList.ReleaseTiles` | malloc/malloc.c:123-148 | freeing and coalescing keep the region covered |
| `BlockList.AllocateReleaseIdentity` | malloc/user_malloc.c:60-152 | allocating and freeing the result restores the identical block list |
| `BlockList.AllFreeIsInitial` | malloc/user_malloc.c:44-57 | a coalesced list without live blocks is the initial block |
| `BlockList.PayloadsDisjoint` | malloc/user_malloc.c:44-138 | two blocks with their headers never overlap |
| `BlockList.AllocateLive` | malloc/malloc.c:174-192 | allocation adds exactly one live block, of at least the rounded size and less than 48 bytes more |
| `BlockList.ReleaseLive` | malloc/malloc.c:195-214 | freeing takes exactly one block out of the live ones |
| `BlockList.FreeAllInAnyOrder` | malloc/malloc.c:195-214 | freeing all live blocks, in any order, restores the single initial block |
| `BlockList.Reach` | malloc/malloc.c:241-247 | the run of free successors absorbed is the shortest that suffices, or all there are |
| `BlockList.GrownLive` | malloc/malloc.c:239-264 | growing in place replaces exactly the one live block, at the same address: by n bytes, or by all of the run if less than 48 more |
| `BlockList.SplitLive` | malloc/user_malloc.c:169-174 | shrinking replaces exactly the one live block: by n bytes, or by itself if less than 48 more |
| `BlockList.MoveFacts` | malloc/malloc.c:266-273 | moving frees the old block and leaves all other live blocks |
| `BlockList.StepTiles` | malloc/malloc.c:174-274 | every allocation, free and reallocation of either allocator that needs no expansion keeps the tiling |
| `BlockList.HistoryTiles` | malloc/user_malloc.c:121-195 | so does every history of them |
| `BlockList.StepMet` | malloc/malloc.c:174-274 | an operation keeps it that exactly the live blocks have a request, which they serve |
| `BlockList.HistoryMet` | malloc/user_malloc.c:121-195 | after every history exactly the live blocks are those asked for and not given back, each at least as large as last asked for if and only if that size is at most 2^64 - 8 |
| `BlockList.InitialMet` | malloc/user_malloc.c:44-57 | a heap starts without requests |
| `BlockList.StepCoalesced` | malloc/malloc.c:174-274 | an operation leaves no two free neighbours if and only if it does not cut off a rest in front of a free block |
| `BlockList.ShrinkCoalesced` | malloc/user_malloc.c:169-174 | the same for one shrinking realloc |
| `BlockList.HistoryCoalesced` | malloc/user_malloc.c:60-195 | over every history without such cuts no two neighbours are free, and freeing what is live in any order ends in the initial block |
| `BlockList.NoResizeNoCuts` | malloc/user_malloc.c:60-152 | histories of allocations and frees have no such cuts |
| `BlockList.StatsSums` | malloc/user_malloc.c:198-227 | used and usedBlocks are the sum and the number of the live blocks, free and freeBlocks of the free ones; total = used + free + headers |
| `BlockList.StatsLargest` | malloc/user_malloc.c:213-219 | the largest free size is an upper bound and is attained |
| `BlockList.StatsAgree` | malloc/user_malloc.c:198-227 | the total is the region; usedBlocks counts the live blocks; a request succeeds if and only if it is at most the largest free size |
| `BlockList.RequestMet` | malloc/user_malloc.c:122-138 | a block is at least as large as requested if and only if the request is at most 2^64 - 8 |
| `BlockList.OverflowHappens` | malloc/user_malloc.c:30-33 | a request for almost 2^64 bytes gets a block of less than 48 bytes from a fresh heap |
| `BlockList.CutHappens` | malloc/user_malloc.c:169-174 | allocating 96 bytes from a fresh heap and shrinking them to 8 leaves two free neighbours |
| `KernelHeap.StepKeepsTail` | malloc/malloc.c:118-145 | an operation that needs no expansion leaves the tail pointer at the last block if and only if it does not grow a block in place over the last one |
| `KernelHeap.RefusesExactly` | malloc/malloc.c:70-84 | when an expansion is refused, in 64-bit arithmetic |
| `KernelHeap.AfterTiles` | malloc/malloc.c:152-171 | the list that an expansion leaves, if any, tiles the region |
| `KernelHeap.LastTailBreaks` | malloc/malloc.c:163-167 | with the tail pointer at the last block an expansion leaves no list |
| `KernelHeap.MissesExactly` | malloc/malloc.c:159-167 | both writes miss all headers, and the list survives as it is, if and only if the new header and the next field of the tail lie in payloads |
| `KernelHeap.InsideExactly` | malloc/malloc.c:41-48 | a range of the region meets no header if and only if it lies in one payload |
| `KernelHeap.GrabSound` | malloc/malloc.c:180-186 | however often an allocation expands the heap, as long as there is a list it tiles the region |
| `KernelHeap.StepSound` | malloc/malloc.c:174-274 | an operation, expansions included, after which there is a list leaves one that tiles the region |
| `KernelHeap.FirstExpansionBreaks` | malloc/malloc.c:180-188 | with the tail pointer at the last block an operation that lacks room fails, if refused, or ends without a list |
| `KernelHeap.RoomyRun` | malloc/malloc.c:174-274 | a history that never lacks room is one without expansions, for which all of the above holds |
| `KernelHeap.UserRoomy` | malloc/user_malloc.c:122-195 | histories of the user allocator never expand |
| `KernelHeap.BreakHappens` | malloc/malloc.c:181-186 | when all memory is allocated, the next request ends without a list |
| `KernelHeap.SurvivalHappens` | malloc/malloc.c:239-264 | in a region of 1000 bytes: allocate 64, grow to 960, request 8; the list survives 20 expansions into the live payload |
| `HeapCases.AllocTakes` | malloc/malloc.c:100-192 | an allocation takes the first free block with room: the whole new list, with a rest if 48 bytes more are left, and the tail pointer |
| `HeapCases.AllocFails` | malloc/user_malloc.c:122-138 | size 0, or no free block with room: nothing changes |
| `HeapCases.FreeJoins` | malloc/malloc.c:122-214 | freeing makes one free block of a block and its free neighbours: the whole new list, and the tail pointer |
| `HeapCases.FreeIgnores` | malloc/malloc.c:195-208 | freeing where no live block starts changes nothing |
| `HeapCases.ResizeShrinks` | malloc/user_malloc.c:169-174 | a block that is large enough stays and is cut: the whole new list, and the tail pointer |
| `HeapCases.GrowsExactly` | malloc/malloc.c:239-249 | a reallocation grows in place if and only if the block, its one free successor (user) or any run of free successors (kernel), and their headers give n bytes |
| `HeapCases.ResizeGrows` | malloc/malloc.c:239-264 | it then stays at its address and takes the shortest such run: the whole new list, and the tail pointer |
| `HeapCases.ResizeMoves` | malloc/malloc.c:266-273 | otherwise it is an allocation of the rounded size followed by a free, or changes nothing if no block fits |
| `HeapCases.ResizeLive` | malloc/user_malloc.c:155-195 | in all cases one live block is replaced by one of n to n + 47 bytes, at its own address if there is room and otherwise at the first block that fits, or the list is unchanged |
| `HeapCases.AllocExpands` | malloc/malloc.c:174-186 | an allocation expands the heap if and only if it is the kernel's, not for 0 bytes, and no block fits |
| `HeapCases.ResizeExpands` | malloc/malloc.c:239-268 | a reallocation does if and only if it is the kernel's, the block and the free blocks behind it do not suffice, and no block fits |
| `HeapCases.ExpandsExactly` | malloc/malloc.c:68-84 | for n bytes an expansion goes astray if and only if n + 40 is above the break's address, and is otherwise refused if and only if n + 40 is more than lies below the break |
| `HeapCases.GrabTakes` | malloc/malloc.c:180-186 | the expansions of one request each take the same amount below the break, the tail pointer is at the last one, and they end when a block fits or one is refused |
| `HeapCases.StepTakes` | malloc/malloc.c:180-192 | after them the request takes the first block that fits, or fails |
| `HeapMemory.DecodeEncode` | malloc/malloc.c:13-20 | reading back a little-endian field gives what was written |
| `HeapMemory.LoadOutside` | malloc/malloc.c:13-20 | writing outside a header leaves it |
| `HeapMemory.WriteHeader` | malloc/malloc.c:109-113 | all five fields are stored and nothing outside the header changes |
| `Heap.Heap.constructor` | malloc/malloc.c:51-65 | one free block over the whole region |
| `Heap.Heap.SplitBlock` | malloc/malloc.c:100-120 | headers and both pointers describe the split list; no payload changes |
| `Heap.Heap.JoinBlocks` | malloc/user_malloc.c:179-182 | headers and both pointers describe the joined list; no payload changes |
| `Heap.Heap.CoalesceAt` | malloc/malloc.c:123-148 | headers describe the coalesced list; no live payload changes |
| `Heap.Heap.FindFit` | malloc/malloc.c:87-97 | walking the links finds the first fit, 0 if there is none |
| `Heap.Heap.Malloc` | malloc/user_malloc.c:122-138 | takes the lowest block that fits, 0 exactly when the size is 0 or none does; no live payload changes |
| `Heap.Heap.Free` | malloc/malloc.c:195-214 | releases the block; null and dead pointers change nothing; no live payload changes |
| `Heap.Heap.FreeTwice` | malloc/malloc.c:206-208 | an immediate second free changes nothing |
| `Heap.Heap.UserRealloc` | malloc/user_malloc.c:155-195 | the result is p if the block, or it and its free successor, have n bytes; else the payload of the first block that fits; else NULL. The list is the one that HeapCases tells; the first min(old, new) bytes and all other live payloads stay; failure changes nothing |
| `Heap.Heap.Measure` | malloc/malloc.c:241-247 | measures the run that a growth would absorb |
| `Heap.Heap.MergeRun` | malloc/malloc.c:250-259 | absorbs exactly the run that was measured, although sizes change while it walks |
| `Heap.Heap.KernelRealloc` | malloc/malloc.c:217-274 | as UserRealloc, with as many free successors as needed; without room it is the step of the specification with its expansions, and no list tiles the region if that tells none |
| `Heap.Heap.KernelMalloc` | malloc/malloc.c:174-192 | the loop of expansions: the state, the tail pointer and the result of the specification; no list tiles the region if that tells none |
| `Heap.Heap.HeapExpand` | malloc/malloc.c:152-171 | refused exactly when the specification says so; otherwise memory changes only in the new header and the next field of the tail, and holds the list that After tells, or none |
| `HeapExpansion.AfterExactly` | malloc/malloc.c:159-167 | whatever the writes hit, in whole or in part: memory holds a list that tiles the region if and only if After tells it |
| `HeapExpansion.PayloadLost` | malloc/malloc.c:159-164 | a new header in a payload destroys that payload |
| `HeapExpansion.OneList` | malloc/malloc.c:13-20 | memory holds at most one list that tiles the region |
| `HeapExpansion.Mangled` | malloc/malloc.c:159-167 | a header overwritten in part by the new one is no header of a tiled list, even if the second write hits it too |
| `Heap.Heap.GetStats` | malloc/user_malloc.c:198-227 | walking the links gives the statistics of the list |
| `Console.PrintErase` | vga/vga.c:88-126 | backspace after a character restores the cursor and blanks only that cell, also across wrap and scroll |
| `Console.EraseAllReach` | vga/vga.c:196-218 | n backspaces go back n cells or to the top of the screen and blank exactly the cells passed |
| `Console.TypeThenErase` | vga/vga.c:88-218 | rubbing out a text restores the cursor if and only if its start is still on the screen |
| `Console.TextLaidOut` | vga/vga.c:172-194 | a text without newlines lies in the transcript character by character and disturbs nothing before it |
| `Console.ScrolledOffStays` | vga/vga.c:46-64 | rows that have left the screen never change, whatever is printed or erased |
| `Console.PrintWf` | vga/vga.c:113-124 | the cursor stays in the transcript's last 25 rows |
| `Console.NewlineMeans` | vga/vga.c:96-106 | a newline goes to column 0 of the next row and changes no cell; at the bottom a row of spaces, black on black, comes in |
| `Console.CharMeans` | vga/vga.c:108-124 | any other character is written at the cursor only, which moves on by one; at the end of the screen such a row comes in |
| `Console.EraseMeans` | vga/vga.c:196-218 | backspace moves back by one, except at the top left, and blanks the cell where it ends and no other |
| `Console.PrintAllParts` | vga/vga.c:172-194 | a text with any newlines is printed character by character |
| `Console.ColorMeans` | vga/vga.c:26-29 | the attribute holds the low four bits of both colours |
| `Console.Screen.CleanScreen` | vga/vga.c:31-43 | every cell is a space, grey on black, and the cursor is at the top left, whatever was there |
| `Console.Screen.ScrollScreen` | vga/vga.c:46-64 | all rows move up by one and the last is spaces, black on black |
| `Console.Screen.PrintChar` | vga/vga.c:88-126 | the screen is the window of the transcript with the character printed, and the cursor is where that says, in columns and rows |
| `Console.Screen.PrintString` | vga/vga.c:172-194 | the screen is the window of the transcript with the text printed |
| `Console.Screen.Backspace` | vga/vga.c:196-218 | the screen is the window of the transcript with one cell erased, and the cursor is one cell back, across rows, or stays at the top left |
| `Keyboard.TablesAgree` | keyboard/keyboard.c:20-177 | both tables name the same keys; the keys of letters are those whose entries differ by case |
| `Keyboard.Decode` | keyboard/keyboard.c:180-197 | a scan code gives at most one character, never 0 and never the value that means empty |
| `Keyboard.ModsAreHistory` | keyboard/keyboard.c:253-281 | Shift and Ctrl are down if and only if the last event of their keys is a press; Caps Lock is the parity of its presses |
| `Keyboard.FlagsExactly` | keyboard/keyboard.c:253-274 | Shift, and likewise Ctrl, is on just when one of its two keys is held if and only if the last event is not a release of one while the other is held |
| `Keyboard.HeldForgotten` | keyboard/keyboard.c:253-274 | codes after which a Shift key, and a Ctrl key, is held and the flag is off |
| `Keyboard.TypedAppend` | keyboard/keyboard.c:245-293 | a further scan code adds what it means under the modifiers of the whole history |
| `Keyboard.ExtendedPrefix` | keyboard/keyboard.c:253-259 | the prefix 0xE0 has no effect |
| `Keyboard.ReadsAreKept` | keyboard/keyboard.c:213-242 | in every interleaving, characters read plus characters waiting are those waiting before plus those typed while fewer than 255 waited |
| `Keyboard.KeptIsTyped` | keyboard/keyboard.c:213-227 | what is kept is what was typed, in order, less the dropped characters; all of it if and only if none is dropped |
| `Keyboard.BootToReads` | keyboard/keyboard.c:213-293 | both together, from the initial state |
| `Keyboard.Keyboard.BufferPush` | keyboard/keyboard.c:213-227 | the circular indices represent the queue with the character added, or unchanged when 255 wait |
| `Keyboard.Keyboard.GetChar` | keyboard/keyboard.c:230-242 | removes and returns the first character, -1 when none waits |
| `Keyboard.Keyboard.GetAscii` | keyboard/keyboard.c:180-197 | the entry of the table that Shift chooses, and for letters of the one that Shift and Caps Lock choose together, though letters are computed by changing case |
| `Keyboard.AsciiMeans` | keyboard/keyboard.c:180-197 | letters are in upper case if and only if just one of Shift and Caps Lock is on; on every other key Shift alone chooses between the two tables, and no letter is typed |
| `KeyCodes.LetterTypes` | keyboard/keyboard.c:180-187 | after every history of scan codes a letter key types its letter: upper case if and only if just one of Shift and Caps Lock is on, code 3 for C under Ctrl |
| `KeyCodes.SymbolTypes` | keyboard/keyboard.c:189-197 | after every history a digit or punctuation key types its upper character if and only if the last Shift event is a press, and its lower one otherwise; the two differ on each such key |
| `KeyCodes.FixedTypes` | keyboard/keyboard.c:71-74 | space, Enter, Tab and Backspace type the same after every history |
| `KeyCodes.OthersTypeNothing` | keyboard/keyboard.c:245-293 | releases, modifiers and all other keys type nothing |
| `KeyCodes.LettersAre` | keyboard/keyboard.c:20-103 | the two tables on the 26 letters |
| `KeyCodes.DigitsAre` | keyboard/keyboard.c:48-114 | the two tables on the digits, where they differ on every key |
| `KeyCodes.PunctuationIs` | keyboard/keyboard.c:59-126 | the two tables on the punctuation keys, where they differ on every key |
| `Keyboard.Keyboard.Handler` | keyboard/keyboard.c:245-293 | is the step of the specification for this scan code |

## Left out

- File system: `fs_get_all_in_dir`, which copies entries for display; a null extension, which is
  the empty one in a look-up and read through in `fs_create_file`; sizes of 2^32 bytes and more,
  which the 64 MiB disk cannot hold.
- FileSystem.FileSystem.WriteChain: a first cluster in the data area that heads no chain, for which
  `fs_write` may follow links out of its table.
- Heap.Heap.KernelMalloc: what the code does once no list is left, and expansions whose address wraps
  around or whose reserve is smaller than a header (requests of 2^64 - 40 bytes and more): they write
  outside the region, or across its end. For requests of 2^64 - 48 bytes and more `split_block` also
  overflows in its test of what is left over.
- Heap.Heap.KernelRealloc: pointers that are neither null nor to a live block; the copy when a block
  fits only after an expansion, which has then taken the place of other blocks.
- Heap.Heap.constructor: does not model `malloc_init` on a region smaller than a header, which
  leaves the allocator without any block; the region starts and ends at multiples of 8.
- Heap.Heap.Free: pointers into the middle of a payload whose bytes happen to look like a live header.
- Heap.Heap.UserRealloc: pointers that are neither null nor to a live block.
- Preemption inside creation and the allocators; stopping is one step after its reaping.
- Scheduler.Scheduler.UnlinkFromRing: taking out the initial task, which no caller asks for.
- Scheduler.Scheduler.FreeTask: the stack and the user memory go back to allocators that are modelled
  apart; process numbers do not wrap around.
- `task_list`, which copies numbers and states for display, and exit codes.
- Context: tasks run in kernel mode, where an interrupt stays on the task's own stack; a task is
  supposed to leave other stacks alone and to keep room for a frame. Memory is made of 8-byte words.
- Console: `print_char_position`, `print_string_position`, the hardware cursor and colours other
  than the attribute byte.
- Keyboard: the port and interrupt-controller accesses of the handler; each scan code and each read
  is one step, since both mask interrupts.
- System calls, decimal printing, statistics printing, the clock, the power functions, the interrupt
  tables and the user programs: plumbing, hardware access or easy members.
