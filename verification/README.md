# AI Aura OS kernel: verified model

A Dafny model of the stateful core of the AI Aura OS kernel (heap allocator, FAT12 driver,
environment registry and its persistence, event bus, scheduler, plugin manager, VGA text driver),
with proofs of what that code guarantees over all inputs and all runs. `dafny verify dfyconfig.toml`
checks everything.

Each component comes in up to three files: a specification of its state machine on values
(`HeapSpec`, `Volume`, `EnvSpec`, `BusSpec`, `SchedSpec`, `PluginSpec`, `TerminalSpec`), the laws that
follow from it (`HeapLaws`, `HeapMemory`, `HeapRelease`, `FatTable`, `VolumeLaws`, `CrashLaws`,
`BusLaws`, `BusDrain`, `BusTrace`, `SchedLaws`, `TickTalk`, `PluginLaws`), and the imperative code
(`Heap`, `Fat12`, `Env`, `EventBus`, `Scheduler`, `Plugins`, `Vga`): classes over arrays with the
source's own loops, every method proved to do to its state exactly what the specification says.
`Persistence`, `Boot` and `BootTrace` put components together. `Bytes` and `KString` hold the byte
layouts and the string routines.

How the outside world enters the model:

- Memory of the heap is an array of 524288 bytes; headers are read and written there byte by byte
  (20 bytes: `used` is a single byte followed by padding).
- A drive has 2880 sectors of 512 bytes. Any read or write may fail. A failed read leaves the buffer
  alone, a failed write leaves the sector old or new. The drive logs the writes that reached it.
- Event handlers, task callbacks and plugin callbacks are arbitrary: a parameter says what the n-th
  call of a run does (`Reaction`) or answers (`Answers`), and the laws hold for every such parameter.
- `g_tick_count`, keys and snapshot verification are inputs.
- 32-bit wrap-around is written out wherever a counter or a size can reach it.

Where code and documentation disagree, the model follows the code: `fat12_write_file` and `env_save`
return the length and not 0 (`env/fat12.h:32`, `env/env.h:29`), and a failing plugin `tick` only
increments a counter (`docs/plugin_api.md:69`).

Claims that turned out to be false, each with the exact condition under which they hold:

- `kmalloc` hands out at least what was asked for: exactly for sizes up to 0xFFFFFFF8; above, the
  rounding wraps to 0 and an empty block is handed out (`AllocGrants`, `WrappedRequestIsEmpty`).
- The magic word guards `kfree` against a bad pointer: it survives a release, so a second `kfree` of
  the same pointer passes. Right after the first it is harmless exactly when the block before the
  released one was in use or there is none; otherwise that block grows again over its neighbours and
  the memory holds no block list any more (`SecondRelease`; two requests and a release lead there,
  `SecondReleaseBreaks`).
- A stored file reads back: exactly when the first byte of its name is not 0xE5 (`ReadBack`).
- Stopping in the middle of a write and mounting again is safe. Call a cluster lost if a file owns it
  and the table on disk calls it free. In every state of every run of stores since a mount, failed ones
  included, a stop after k sector writes is safe exactly when each cluster lost before the store, and
  that of a new file whose directory entry is written, has its table sector among these k writes
  (`CrashSafety`, `RunCrashSafety`). If the tables on disk and in memory agree, as after a mount or a
  successful store, this comes down to: the file existed, or its directory entry is not yet written, or
  the table sector with its cluster is (`CrashSafetyInSync`). After a failed store it does not: a retry
  finds the file, and is still unsafe until it has written that sector (`RetryUnsafe`,
  `RetryUnsafeFirstFile`). A new file stored after an unsafe remount may be given a lost cluster, and
  then the older file reads its bytes (`StoreAfterRemount`); if the tables agreed before the stopped
  write, the very next new file is (`CrashHandsOutAgain`, `CrashMixesFiles`).
- A variable that was set can be read: exactly for keys of at most 15 characters (`GetAfterSet`).
- Setting a key leaves every other key alone: exactly unless the other key is the 15-character form to
  which a longer key is cut, was not set, and there is a slot for it (`GetOtherAfterSet`, `CutKeyAppears`).
- Saved variables come back after a reboot: exactly when no key contains `=` or a newline, no value
  contains a newline, and the stored keys are distinct (`ReloadRestores`; `UncleanNotRestored` and
  `LongKeyNotRestored` fail right after boot).
- `env_save() == 0` recognises a successful save: never once `env_init` has run (`Registry.Save`).
- A task can be removed under the name it was added with: exactly for names of at most 15 characters
  (`AddedIsRemoved`).
- The task counter is exact: exactly when no removal hit a task already removed and no task removed
  itself (`CounterLaw`, `RemovedTwice`, `RemovedItself`).
- Unsubscribing undoes a subscription: exactly when the handler was in no earlier slot
  (`UnsubscribeUndoes`, `SubscribedTwice`).
- The drain loop ends: for handlers that publish only within a relation "a handler of topic t may
  publish to topic u" it ends from every reachable bus if and only if that relation has a ranking
  (`DrainEndsIffRanked`); without one some subscriptions, one event and handlers within the relation
  keep it running for ever (`UnrankedMayNotEnd`).

## Model

| member | source | states |
|---|---|---|
| HeapSpec.Round8 | kernel/memory.c:53 | the rounded size is the next multiple of 8, and 0 exactly for sizes above 0xFFFFFFF8 |
| HeapSpec.FirstFit | kernel/memory.c:55-75 | the block found fits and no earlier block does |
| HeapLaws.TakeTiles | kernel/memory.c:57-73 | handing out a block, split or not, keeps the exact tiling and leaves no two free neighbours |
| HeapLaws.FreeShape | kernel/memory.c:83-96 | kfree turns the freed block and its free neighbours into one free block and changes nothing else |
| HeapLaws.FreeKeepsInv | kernel/memory.c:79-97 | after kfree the blocks still tile the heap with no two free neighbours |
| HeapLaws.FreeLive | kernel/memory.c:79-97 | kfree removes exactly the freed block from the live allocations |
| HeapLaws.CanonicalForm | kernel/memory.c:49-97 | the whole block list is determined by the set of live allocations |
| HeapLaws.FreeUndoesAlloc | kernel/memory.c:49-97 | kfree(kmalloc(n)) restores every block |
| HeapLaws.ExtentInOneBlock | kernel/memory.c:85-96 | thanks to coalescing any unallocated extent lies inside one free block |
| HeapLaws.AllocComplete | kernel/memory.c:53-76 | kmalloc returns NULL exactly when no unallocated extent for header and rounded size exists; otherwise its block starts at the lowest such extent |
| HeapLaws.AllocFails | kernel/memory.c:49-77 | kmalloc returns NULL exactly for size 0 or when no extent is left, and then every block stays as it is |
| HeapLaws.AllocGrants | kernel/memory.c:53-73 | success adds one live block inside the heap around the returned pointer, wasting less than HDR_SIZE + 8, and at least as large as requested exactly when the rounding does not wrap |
| HeapLaws.WrappedRequestIsEmpty | kernel/memory.c:53 | a request of 0xFFFFFFF9 bytes succeeds on a fresh heap with an empty block |
| HeapLaws.StepKeepsInv | kernel/memory.c:49-97 | every operation keeps tiling and coalescing |
| HeapLaws.StepKeepsSizes | kernel/memory.c:53-72 | sizes stay multiples of 4, and at least 8 unless a request wraps |
| HeapLaws.RunKeepsInv | kernel/memory.c:38-97 | every state of every run tiles the heap exactly, is coalesced, and has sizes that are multiples of 4 |
| HeapLaws.RunKeepsSizes | kernel/memory.c:38-97 | in every run without a wrapping request all blocks have at least 8 bytes |
| HeapLaws.AllFreedIsInitial | kernel/memory.c:38-97 | a run that has freed everything is back to the single block of memory_init |
| HeapLaws.LivePayloadsDisjoint | kernel/memory.c:49-97 | live payloads of every reachable heap are inside the heap and pairwise disjoint |
| HeapLaws.StatsConserve | kernel/memory.c:99-108 | used bytes + free bytes + 20 per block = size of the region |
| HeapLaws.UsedNone | kernel/memory.c:99-108 | nothing counts as used while nothing is live |
| HeapLaws.UsedAfterAlloc | kernel/memory.c:49-108 | a successful kmalloc raises the used bytes by the size of the one block it makes live |
| HeapLaws.UsedAfterFree | kernel/memory.c:79-108 | kfree lowers the used bytes by the size of the block it releases |
| HeapMemory.StoreRewrites | kernel/memory.c:10-16 | a store to a header field changes that field, no other header and no byte outside the header |
| HeapMemory.HeaderStoresSparePayloads | kernel/memory.c:59-72 | stores into headers of a tiled list reach no live payload |
| HeapMemory.SplitEncodes | kernel/memory.c:59-71 | the pointer updates of a split give the doubly linked list of the new blocks |
| HeapMemory.AbsorbEncodes | kernel/memory.c:85-96 | the pointer updates of a merge give the doubly linked list of the new blocks |
| HeapRelease.ReleasesLive | kernel/memory.c:79-97 | releasing a live block touches only headers in the heap, gives the merged block list, spares the other live payloads, and leaves a header that still carries the magic word and its old neighbours |
| HeapRelease.ReleaseOfFree | kernel/memory.c:79-97 | releasing a block of the list that is free changes no byte |
| HeapRelease.SizeIsForced | kernel/memory.c:10-16 | a memory in which one block claims another size holds no tiled block list |
| HeapRelease.ReleaseOfMerged | kernel/memory.c:92-96 | releasing a header that a merge left behind makes the block before it grow a second time |
| HeapRelease.SecondRelease | kernel/memory.c:79-97 | a second kfree right after the first passes the guard; the memory still holds a block list if and only if the block before was in use or there is none, and is then unchanged |
| HeapRelease.SecondReleaseBreaks | kernel/memory.c:49-97 | two requests and a release reach a heap in which the other case applies |
| Heap.Heap.constructor | kernel/memory.c:38-47 | one free block over the whole region, payload zeroed |
| Heap.Heap.KMalloc | kernel/memory.c:49-77 | on raw memory: block list and pointer as specified, next and prev inverse, no live payload byte changed; a NULL result leaves every byte of memory as it was |
| Heap.Heap.KFree | kernel/memory.c:79-97 | on raw memory: ignores NULL and a header without the magic word, otherwise stores exactly what `Released` says, whatever the header holds; a live pointer gives back exactly its block, changes no live payload byte and leaves the magic word |
| Heap.Heap.MemoryStats | kernel/memory.c:99-108 | the 32-bit sums never wrap and account for the whole heap |
| KString.StrLen | kernel/kstring.c:7-12 | the length of the C string |
| KString.StrNCpy | kernel/kstring.c:14-21 | the first n - 1 bytes, a terminator, and nothing else written; for n below 1 the terminator alone |
| KString.StrNCmp | kernel/kstring.c:23-31 | 0 exactly when the strings agree on n bytes, none for n below 0; otherwise the difference at the first mismatch |
| FatTable.GetOwn | env/fat12.c:65-93 | a 12-bit entry reads back as set |
| FatTable.GetOther | env/fat12.c:82-93 | setting an entry changes no other entry, in spite of the shared nibble |
| FatTable.SetRefinesUpdate | env/fat12.c:65-93 | the packed table refines an array of 3072 entries; clusters past the buffer are never written |
| FatTable.AllocCluster | env/fat12.c:110-116 | the first free data cluster, or 0 when there is none |
| FatTable.MixEntries | env/fat12.c:82-107 | in a table written back only in part every other entry is intact, and the new entry is non-free exactly when its first byte is written |
| FatTable.MixEntry | env/fat12.c:65-107 | an entry of a table written back only in part: old, new, or, cut between its two bytes, not free if it becomes an end of chain |
| FatTable.MixAhead | env/fat12.c:82-107 | if the table on disk lags only by end-of-chain marks, a partial write-back keeps that, and an entry stops being free exactly when it is in use in memory and its first byte is written |
| VolumeLaws.FirstFile | env/fat12.c:199-259 | a freshly formatted volume is well-formed under the table it mounts with and gives its first file entry 0 and cluster 2 |
| VolumeLaws.LookupIs | env/fat12.c:160-180 | a scan finds the first entry before the end mark that is a plain file of that name: not deleted, label, directory or long-name piece |
| VolumeLaws.PlanUnlessNoRoom | env/fat12.c:199-259 | a store finds no room exactly when no entry carries the name and either all 224 entries are in use or all clusters 2 to 2847 are |
| VolumeLaws.AfterWrites | env/fat12.c:248-285 | the content of every sector after each prefix of the planned writes |
| VolumeLaws.WriteTargets | env/fat12.c:57-59 | the data write lands in the data area, the second in the root directory, the others in the tables |
| VolumeLaws.WritesKeepWellFormed | env/fat12.c:192-286 | after every prefix of the sector writes files own distinct non-free data clusters |
| VolumeLaws.OtherFilesKeepContents | env/fat12.c:192-286 | after every prefix of the sector writes every other file reads its old bytes |
| VolumeLaws.OtherSectors | env/fat12.c:261-266 | no data sector but the chosen cluster's ever changes |
| VolumeLaws.ReadBack | env/fat12.c:153-286 | once the directory entry is written, reading gives the first min(len, 512, m) bytes, exactly when the name does not begin with 0xE5 |
| VolumeLaws.FatCopiesAgree | env/fat12.c:96-107 | after a complete write FAT1, FAT2 and the memory copy are equal, so a remount loads the same table |
| CrashLaws.CrashSafety | env/fat12.c:261-285 | stopping after k writes leaves a volume that mounts well-formed if and only if the table sectors of all clusters lost before and of a new file in the directory are written |
| CrashLaws.CrashSafetyInSync | env/fat12.c:261-285 | if disk and memory tables agree: safe if and only if the file existed, its name makes no file, k < 2, or the table sector of its cluster is written |
| CrashLaws.RemountSafe | env/fat12.c:141-151 | a remount is well-formed if and only if no cluster is lost |
| CrashLaws.LostAfter | env/fat12.c:261-285 | the lost clusters after k writes are those lost before and that of a new file, less those whose table sector is written |
| CrashLaws.RetryUnsafe | env/fat12.c:192-286 | a store repeated after a failure inside the window finds the file and is safe to stop only once the table sector is written |
| CrashLaws.RetryUnsafeFirstFile | env/fat12.c:192-286 | this happens to the first file of a fresh volume |
| CrashLaws.RunStaysAhead | env/fat12.c:192-286 | over every run of stores, failures included, the table on disk lags behind memory only by end-of-chain marks |
| CrashLaws.RunCrashSafety | env/fat12.c:192-286 | the exact condition in every state of every run since a mount; nothing is lost after a store that succeeds, whatever failed before |
| CrashLaws.StoreAfterRemount | env/fat12.c:141-285 | a new file stored after an unsafe remount: a file whose cluster it was given reads its bytes, every other file reads as before, and no lost cluster lies below the one given |
| CrashLaws.CrashHandsOutAgain | env/fat12.c:261-285 | if disk and memory tables agreed: at every stop before the table sector of its cluster is written, the remounted driver has the table from before the write and allocates the same cluster again |
| CrashLaws.CrashMixesFiles | env/fat12.c:141-285 | if disk and memory tables agreed: after any stop inside the unsafe window and a remount, a second new file gets the same cluster, and once its data sector is written the first file reads the second one's bytes |
| VolumeLaws.RunKeepsWellFormed | env/fat12.c:192-286 | over every run of writes, failures included, no two files share a cluster |
| VolumeLaws.RunKeepsOtherFile | env/fat12.c:192-286 | over every run a file that is not written reads the same |
| Fat12.Fat83Shape | env/fat12.c:121-135 | an 8.3 name becomes both parts in upper case, padded with spaces |
| Fat12.Fat83General | env/fat12.c:121-135 | any name with at most one dot and parts of any length: what of each part ends up where in the field |
| Fat12.NameToFat83 | env/fat12.c:121-135 | the loop computes the 11-byte name |
| Fat12.Drive.Read | adapters/ata.c:104-121 | delivers the sector or leaves the buffer alone |
| Fat12.Drive.Write | adapters/ata.c:123-144 | on failure the sector is old or new |
| Fat12.Driver.NextCluster | env/fat12.c:65-78 | reads the packed entry |
| Fat12.Driver.SetCluster | env/fat12.c:82-93 | writes the packed entry in place |
| Fat12.Driver.FindFreeCluster | env/fat12.c:110-116 | the first free cluster |
| Fat12.Driver.FlushFat | env/fat12.c:96-107 | both copies, or a prefix of the 18 writes |
| Fat12.Driver.Init | env/fat12.c:141-151 | loads FAT1 and mounts, or loads a part of it and leaves the mounted flag alone |
| Fat12.Driver.Scan | env/fat12.c:199-246 | finds the file, or establishes that there is none and finds the first reusable entry |
| Fat12.Driver.Choose | env/fat12.c:199-259 | the entry and the cluster of the plan, found or new; no room exactly when directory or table is full and the name is new |
| Fat12.Driver.PutEntry | env/fat12.c:272-279 | the field assignments produce the 32-byte directory entry |
| Fat12.Driver.Inspect | env/fat12.c:209-243 | reads a directory entry and tells end, deleted, match and other apart |
| Fat12.Driver.ReadInto | env/fat12.c:153-190 | delivers what the file holds; without a drive error -1 means not mounted, length 0 or no such file |
| Fat12.Driver.WriteFile | env/fat12.c:192-286 | succeeds exactly when mounted, with room in directory and table and without drive error; in every case the sectors written are a prefix of the plan |
| Fat12.OutcomeIsStep | env/fat12.c:192-286 | every call is a step of the runs considered above |
| EnvSpec.GetAfterSet | env/env.c:20-51 | a set value is found again exactly when the key has at most 15 characters |
| EnvSpec.SetStatus | env/env.c:20-40 | env_set fails exactly when the key is not there and no slot is left; failure changes nothing, success at most one slot |
| EnvSpec.GetOtherAfterSet | env/env.c:20-51 | setting one key leaves another alone if and only if the other is not the 15-character form of the key, or was set, or the table is full |
| EnvSpec.CutKeyAppears | env/env.c:20-51 | right after boot a key of 16 or more characters brings up its 15-character form |
| EnvSpec.RunsStayBooted | env/env.c:12-40 | every run of env_set keeps the slot order of env_init and the field limits |
| EnvSpec.Saved | env/env.c:93-105 | the longest prefix of whole lines within 511 bytes |
| EnvSpec.SavedAtLeastTen | env/env.c:93-105 | ten variables always fit |
| EnvSpec.ParseText | env/env.c:88-138 | parsing inverts printing for clean variables |
| EnvSpec.ParseClean | env/env.c:117-136 | whatever the file holds, only clean variables come out of it |
| EnvSpec.ReloadRestores | env/env.c:88-138 | loading a save over the boot defaults restores the saved variables slot by slot if and only if they are clean and distinctly named |
| EnvSpec.UncleanNotRestored | env/env.c:88-138 | right after boot: a variable that is not clean is saved and not restored |
| EnvSpec.LongKeyNotRestored | env/env.c:20-138 | right after boot: a key of 16 or more characters set twice takes two slots that are not restored |
| Env.ParseCall | env/env.c:120-134 | a line with an '=' leads to one env_set call with the strings around the first '=' |
| Env.Registry.Init | env/env.c:12-18 | the registry holds exactly the two defaults |
| Env.Registry.SetVar | env/env.c:20-40 | updates the slot with that key, or fills the first unset one, or fails when full |
| Env.Registry.GetVar | env/env.c:42-51 | the value of the first slot with that key |
| Env.Registry.Print | env/env.c:93-106 | the buffer holds the text of the longest fitting prefix |
| Env.Registry.Save | env/env.c:88-109 | writes that text to AIOS.ENV; the result of a successful save is never 0 |
| Env.Registry.ParseBuffer | env/env.c:117-136 | for every content the in-place loop ends, stays in its buffer and makes exactly the calls of the line-by-line specification |
| Env.Registry.Load | env/env.c:111-138 | overlays the variables of the file, or changes nothing |
| Persistence.SavesAll | env/env.c:93-105 | everything is saved exactly when the lines total at most 511 bytes |
| Persistence.ProperRegistryRestored | env/env.c:20-138 | whatever calls of env_set with keys of at most 15 clean characters and clean values led to, saving and loading restores it: all of it within 511 bytes, the longest fitting prefix beyond |
| Persistence.PersistenceLaw | env/env.c:88-138 | after a complete save on a well-formed volume a remount is well-formed, AIOS.ENV holds the saved lines, and loading restores them exactly under the stated condition |
| Persistence.SaveRebootLoad | kernel/kernel.c:107-156 | save, reboot, mount and load, as code: completes without drive errors and restores the registry exactly under the stated condition |
| BusSpec.Do | kernel/eventbus.c:30-63 | publish, subscribe and unsubscribe keep the queue within 64 events of valid topics (their effects: BusTrace) |
| BusSpec.DispatchIsFifo | kernel/eventbus.c:65-79 | a dispatch takes the oldest event, whatever its handlers do to the bus meanwhile |
| BusSpec.EveryRunIsFifo | kernel/eventbus.c:30-79 | over every run accepted events = dispatched events followed by pending ones, in order |
| BusTrace.PublishLaw | kernel/eventbus.c:52-63 | refused exactly for a missing topic or a full queue and then without effect; otherwise the last pending event has the given topic, data and time |
| BusTrace.SubscribeLaw | kernel/eventbus.c:30-39 | why it is refused, that it then changes nothing, and that otherwise the first empty slot of the topic is filled and no other changes |
| BusTrace.UnsubscribeLaw | kernel/eventbus.c:41-50 | the same for the first slot with that handler, which is emptied |
| BusTrace.RunAccepts | kernel/eventbus.c:30-79 | over every run the accepted events are, in order, topic, data and time of the publishes not refused, those of handlers included |
| BusTrace.PublishedIsDelivered | kernel/eventbus.c:52-79 | an event published behind n others is handed to every subscriber of its topic in round n + 1, as it was published |
| BusDrain.DispatchDecreases | kernel/eventbus.c:65-79 | with ranked handlers a dispatch makes the queue lighter even when it makes it longer |
| BusDrain.RankedDrains | kernel/eventbus.c:65-79 | with ranked handlers the loop ends from every well-formed bus |
| BusDrain.DrainDispatchesAll | kernel/eventbus.c:65-79 | whenever the loop ends it has dispatched every accepted event, in order |
| BusDrain.RankingOrRecurrent | kernel/eventbus.c:65-79 | what handlers may publish on a set of topics has a ranking or a part every topic of which may publish into that part |
| BusDrain.ChaseNeverDrains | kernel/eventbus.c:65-79 | on such a part a handler that answers every event with one of a successor topic keeps one event pending after any number of rounds |
| BusDrain.ChaseReachable | kernel/eventbus.c:19-63 | the bus this starts from is reached from the empty one by subscriptions and one publish |
| BusDrain.UnrankedMayNotEnd | kernel/eventbus.c:19-79 | without a ranking there are handlers within the relation and a run from the empty bus after which the loop never ends |
| BusDrain.DrainEndsIffRanked | kernel/eventbus.c:19-79 | every handler behaviour within the relation drains, from every well-formed and from every reachable bus, if and only if the relation has a ranking |
| BusLaws.ReachesEverySubscriber | kernel/eventbus.c:71-77 | an event reaches every subscriber of its topic once, in slot order |
| BusLaws.UnsubscribeUndoes | kernel/eventbus.c:30-50 | unsubscribing restores the table if and only if the handler was in no earlier slot |
| BusLaws.SubscribedTwice | kernel/eventbus.c:19-50 | a handler subscribed twice to an empty bus and unsubscribed once does not leave the table as it was |
| EventBus.RingPush | kernel/eventbus.c:57-61 | storing at the tail appends to the queue |
| EventBus.RingPop | kernel/eventbus.c:67-69 | advancing the head removes the oldest event |
| EventBus.EventBus.constructor | kernel/eventbus.c:19-28 | no handlers and an empty queue |
| EventBus.EventBus.Subscribe | kernel/eventbus.c:30-39 | as specified, with the tail equal to (head + count) mod 64 |
| EventBus.EventBus.Unsubscribe | kernel/eventbus.c:41-50 | as specified |
| EventBus.EventBus.Publish | kernel/eventbus.c:52-63 | as specified, on the ring buffer |
| EventBus.EventBus.DispatchNext | kernel/eventbus.c:66-78 | one round of the loop, with handlers that re-enter the bus |
| EventBus.EventBus.Act | kernel/eventbus.c:30-79 | any row of uses and drain rounds does to the ring and the table what the run of the specification does |
| EventBus.EventBus.Process | kernel/eventbus.c:65-79 | whenever the loop of the specification ends, this one ends in the same state with the queue empty |
| SchedLaws.TickIsLocal | kernel/scheduler.c:60-81 | with callbacks that leave the table alone a tick treats every task on its own |
| SchedLaws.NextRunExact | kernel/scheduler.c:73-74 | the 32-bit subtraction decides exactly whether the period has elapsed, also past 2^32 |
| SchedLaws.Cadence | kernel/scheduler.c:25-81 | the exact number of runs after any number of ticks, for any period and any registration tick |
| SchedLaws.CadenceFromZero | kernel/scheduler.c:25-81 | a task added at tick 0 has run floor(n / p) times after n ticks of the scheduler |
| SchedLaws.OncePerPeriod | kernel/scheduler.c:60-81 | from the tick before its first run on, p more ticks of the scheduler run the task exactly once |
| SchedLaws.AddLaw | kernel/scheduler.c:25-46 | why a registration is refused, that it then changes nothing, and the one slot it fills otherwise, name cut to 15 characters |
| SchedLaws.RemoveLaw | kernel/scheduler.c:48-58 | the first task of that name becomes a zombie and nothing else of it changes; NOTFOUND exactly when there is none |
| SchedLaws.AddedIsRemoved | kernel/scheduler.c:25-58 | a task is found under the name it was added with if and only if that has at most 15 characters |
| SchedLaws.NamesToldApart | kernel/scheduler.c:49-52 | names of up to 16 characters are compared as a whole |
| SchedLaws.TickReaps | kernel/scheduler.c:63-68 | a tick empties the slots of removed tasks and changes no other state |
| TickTalk.TalkIsRun | kernel/scheduler.c:70-81 | whatever callbacks do to the task table, the bus runs through what they do to it, in slot order |
| TickTalk.QuietSaid | kernel/scheduler.c:70-81 | with callbacks that leave the table alone these are the callbacks of the slots due when the tick begins |
| SchedLaws.CounterLaw | kernel/scheduler.c:25-88 | over every run, whatever callbacks do: registered tasks = counter + drift, so the counter is exact if and only if there was no drift |
| SchedLaws.RemovedTwice | kernel/scheduler.c:48-58 | removing a task twice before the next tick puts the counter one too low |
| SchedLaws.RemovedItself | kernel/scheduler.c:75-79 | a task that removes itself stays registered and puts the counter one too low |
| Scheduler.Scheduler.AddTask | kernel/scheduler.c:25-46 | fills the first empty slot, or reports why not |
| Scheduler.Scheduler.RemoveTask | kernel/scheduler.c:48-58 | marks the first slot of that name |
| Scheduler.Scheduler.Tick | kernel/scheduler.c:60-84 | reaps, runs the due tasks in slot order with callbacks that may change the table and use or drain the bus, and publishes the tick on the bus |
| PluginLaws.RunKeeps | kernel/plugin.c:16-112 | over every run and every answer of the callbacks: distinct names, exact counter, legal lifecycle of every registration, and no registration ended while live |
| PluginLaws.FreeSlotExists | kernel/plugin.c:27-39 | the second NOSLOT exit is never taken |
| PluginLaws.RegisterLaw | kernel/plugin.c:25-52 | refused exactly with 16 plugins or a taken name and then without effect; otherwise the descriptor is in the first free slot, loaded, counters at 0, and its slot is published |
| PluginLaws.UnregisterLaw | kernel/plugin.c:54-64 | ends the registration with a shutdown exactly if it was active, frees the slot and publishes |
| PluginLaws.ActivateLaw | kernel/plugin.c:66-80 | returns what init answers; ACTIVE exactly if that is OK, else ERROR with one more error; every other exit changes nothing |
| PluginLaws.DeactivateLaw | kernel/plugin.c:82-89 | an active plugin is shut down and loaded again; every other exit changes nothing |
| PluginLaws.TickAllLaw | kernel/plugin.c:91-102 | every active plugin with a tick is called once in slot order, counted, and charged an error exactly if its answer was not OK; no other slot changes |
| PluginLaws.NamesToldApart | kernel/plugin.c:104-112 | names of up to 24 characters are compared as a whole |
| PluginLaws.InitsAndShutdownsAlternate | kernel/plugin.c:54-89 | for every registration of every run: between two successful inits there is a shutdown, between two shutdowns an init |
| PluginLaws.OnlyWhileLive | kernel/plugin.c:91-102 | for every registration of every run: each tick and shutdown follows a successful init that no shutdown has followed |
| PluginLaws.NothingAfterFailure | kernel/plugin.c:66-80 | for every registration of every run: nothing is called after a failed init |
| PluginLaws.FullPluginSeesAll | kernel/plugin.c:54-102 | for every registration of every run: a plugin with all callbacks is called exactly along its lifecycle |
| PluginLaws.EndedNotLive | kernel/plugin.c:54-64 | no registration of any run ends while live |
| Plugins.PluginManager.constructor | kernel/plugin.c:16-23 | all slots unloaded |
| Plugins.PluginManager.FindPlugin | kernel/plugin.c:104-112 | the first occupied slot whose name agrees on 24 bytes |
| Plugins.PluginManager.Register | kernel/plugin.c:25-52 | loads into the first free slot unless full or the name is taken |
| Plugins.PluginManager.Unregister | kernel/plugin.c:54-64 | shuts an active plugin down and frees the slot |
| Plugins.PluginManager.Activate | kernel/plugin.c:66-80 | active after a successful init, error after a failed one |
| Plugins.PluginManager.Deactivate | kernel/plugin.c:82-89 | shuts down and goes back to loaded |
| Plugins.PluginManager.TickAll | kernel/plugin.c:91-102 | ticks every active plugin; a failure is only counted |
| TerminalSpec.RunIsLater | kernel/vga.c:44-126 | over every run rows above the current one never change again and rows below it are blank |
| TerminalSpec.NewlineLaw | kernel/vga.c:94-96 | a newline goes to column 0 one row further down, which is blank, and changes no row |
| TerminalSpec.ReturnLaw | kernel/vga.c:97-98 | a return goes to column 0 and changes no cell |
| TerminalSpec.PrintableLaw | kernel/vga.c:111-119 | a character is stored at the cursor in the current colour and nowhere else; the cursor moves one place on, past column 79 to the next row |
| TerminalSpec.ClearLaw | kernel/vga.c:71-81 | 25 blank rows in the current colour, cursor at the first |
| TerminalSpec.ColorLaw | kernel/vga.c:83-85 | only what is printed later changes its colour |
| TerminalSpec.CellLayout | kernel/vga.c:28-34 | character in the low byte, colour in the high byte, foreground in the low nibble |
| TerminalSpec.TabStops | kernel/vga.c:99-104 | a tab goes to the next multiple of 8 of the row and changes no row, or from column 72 on to the next row |
| TerminalSpec.BackspaceErases | kernel/vga.c:105-118 | a backspace takes back the character before it, and does nothing after one in the last column |
| TerminalSpec.PrintsInPlace | kernel/vga.c:111-133 | a string that fits appears in the row as it is and changes nothing else |
| TerminalSpec.PrintWraps | kernel/vga.c:111-133 | a printable string of any length runs on from row to row, every character where counting 80 to a row puts it |
| TerminalSpec.TwoLines | kernel/vga.c:94-138 | two short lines with a newline between them stand in consecutive rows |
| TerminalSpec.DecDenotes | kernel/vga.c:148-162 | the digits denote the number, without leading zero |
| Vga.WriteShows | kernel/vga.c:112-113 | storing a cell shows the edited current row |
| Vga.ScrollShows | kernel/vga.c:44-60 | moving the rows up shows one more row of the transcript |
| Vga.Vga.constructor | kernel/vga.c:64-69 | 25 blank rows in light green |
| Vga.Vga.ClearScreen | kernel/vga.c:71-81 | 25 new blank rows of the transcript |
| Vga.Vga.Scroll | kernel/vga.c:44-60 | the nested in-place copy moves every row up by one |
| Vga.Vga.PutChar | kernel/vga.c:93-126 | the buffer stays the last 25 rows of the transcript, cursor on screen, indices below 2000 |
| Vga.Vga.Print | kernel/vga.c:128-133 | character by character |
| Vga.Vga.PrintDec | kernel/vga.c:148-162 | prints the decimal digits, which always fit the 12-byte buffer |
| Boot.CallbackCalm | kernel/kernel.c:128-134 | how many events each built-in task can add |
| Boot.TickSteady | kernel/scheduler.c:60-84 | a tick of the booted kernel keeps the bound |
| Boot.BootIsSteady | kernel/kernel.c:125-168 | the booted kernel satisfies the bound |
| Boot.NoEventDropped | kernel/kernel.c:174-176 | over every run and every key sequence at most 4 events are ever pending and no publish is refused |
| Boot.DrainIsTalk | kernel/eventbus.c:65-79 | the drain task leaves nothing pending before the next slot |
| Boot.TickIsTalk | kernel/scheduler.c:60-84 | a tick of the booted kernel is the tick of the scheduler whose callbacks do to the bus what the seven tasks do |
| Boot.Pass | kernel/kernel.c:174-176 | the scheduler and bus objects go where the kernel model goes, with at most 4 events pending |
| BootTrace.BootPublishes | kernel/kernel.c:125-168 | after boot exactly the four plugin registrations are pending, in slot order |
| BootTrace.DueExact | kernel/scheduler.c:71-74 | a task registered at tick 0 with period p is due at tick n exactly when p divides n, also past 2^32 |
| BootTrace.TickExact | kernel/scheduler.c:60-84 | a tick dispatches everything accepted before it and leaves exactly its own events pending |
| BootTrace.TickPublishes | kernel/kernel.c:128-176 | the exact events, with data, of tick n of every run and key sequence that has not halted |

## Left out

- Assembly and hardware ports: the bootloader, interrupt and timer set-up, paging, port I/O of the ATA and serial adapters.
- NULL arguments of the string, FAT12, env and scheduler functions: the types of the model have no NULL there.
- Heap.Heap.KFree: requires that no access leaves the heap region, because memory outside it is not modelled; heap use after a double release has destroyed the block list is not modelled either.
- fat12_init does not read the boot sector, and neither does the model; the geometry is fixed.
- Directories, volume labels and long-name entries count as occupied entries only; their clusters are not followed, and files are limited to one cluster as in the driver.
- Env.Registry.ParseOne: the second search for the end of a line without '=' is not repeated, because the first search has already stopped there.
- Handlers that call eventbus_process and callbacks that call scheduler_tick from inside a dispatch or a tick.
- Plugin callbacks that call back into the plugin manager; version, type and private data of a plugin.
- vga_set_cursor, which is unchecked, vga_print_hex and vga_printf, the hardware cursor and the serial hook.
- The contents of mirror snapshots, the menu's output, the virtual file system, the keyboard ring buffer and the module loader are not modelled.
