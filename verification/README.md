# Verification of I/O Riot's generate and replay stages

I/O Riot turns a capture log of file operations into a replay journal (`ioriot -g`) and runs
that journal on several workers with many threads each (`ioriot -r`). This project models the
parts on which the correctness of a replay rests and proves what they promise.

`dafny verify dfyconfig.toml` checks everything.

## What is modelled

**Replay.** `Scheduler` is one worker of `replay/rworker.c` with its threads
(`replay/rthread.c`) as a transition system: every move is one access to shared state, an
interleaving is any sequence of actors. `SchedulerInv` holds the invariants, `SchedulerOrder`
what holds in every run, `SchedulerBoundary` exactly when journal order holds,
`SchedulerBounds` how many threads, queued lines and task objects it can ever hold,
`SchedulerProgress` and `SchedulerFinish` that no thread is forgotten and that every run can be
finished, `SchedulerFair` that every fair run does finish, `SchedulerStarvation` why the mutex
has to be fair for that. `SchedulerMoves` holds the parts of runs from which examples are built.
`RingSpsc` cuts the lock-free ring of `datas/rbuffer.c` at its single shared accesses and shows
that it is the bounded queue the other modules use; `RingBuffer` is the ring object as one
caller sees it. `AMap` is the two-level array map. `Replay` puts several workers over one
journal file and one shared map of open descriptors, and composes them with the generator;
`ReplayBoundary` shows exactly when that gives ownership for every capture.

**Generate.** `GenSpec` says what one parsed capture line does to the generator's state, as a
function; `GenProof` and `JournalTags` prove what every run of it establishes; `GenLaws` and
`GenPaths` say of every single task which lines it adds to the journal, what becomes of its
process and its descriptors, which paths become known and with which ids; `Generator`
performs the same steps on mutable objects (processes with two descriptor maps, recycled
descriptor objects, the journal) and is proved against `GenSpec`. `Pipeline`, `PipelineRuns`,
`PipelineFinish` and `PipelineFair` are the main, parser and writer threads with their queues
and the two-stage shutdown, `PipelineBounds` how much they hold, `PipelineLoss` what the full reuse ring does to the count of
filtered lines. `KeyedList` and `HMap` are the containers, `RangeTree`, `BTree` and `VSize` the
byte ranges of files with holes, first as functions, then as linked objects updated in place.

**Paths.** `Paths`, `Mounts` and `Symlinks` are the path functions of `mounts.c` and
`utils/futils.c` as functions on strings; `PathLaws` gives the laws that determine the two
normal forms; `Collisions` shows exactly when moving paths is injective; `Links` follows a
symbolic link by the place its target means, through generator and initialiser; `PathLoops`
holds the loops and the in-place `dirname_r`, proved against those functions.

Inputs from outside are parameters: whether a capture line fails to parse or to run, whether
`open()` succeeds at replay, the parent directory of a path (`dirname`), the order in which a
hash map yields its entries, the hash function. Memory is sequentially consistent, mutexes are
lock fields, integers are unbounded, objects are garbage collected.

## Results about the code that are not what one might expect

* `amap_set` refuses positions at or beyond the map size and the worker ignores the result. Ids
  run from 1 to `num_vsizes`, so when `num_vsizes` is a multiple of 1024 the last id is never
  bound to a thread. `SchedulerBoundary.OrderExactly` shows that journal order per id holds if
  and only if there is one thread or `num_vsizes` is no multiple of 1024, and
  `ReplayBoundary.OwnershipExactly` the same for the ownership of descriptors, with a capture
  whose replay closes a descriptor before opening it. The same bound decides in
  `Replay.DescriptorSlot` whether the last virtual descriptor has a slot.
* A thread that finds the ring of idle threads full takes and releases its mutex over and over.
  If every thread gets its turns but the mutex is never granted to the thread being joined, the
  worker waits for ever (`SchedulerStarvation.TurnsAreNotEnough`). With a mutex that reaches
  every waiting thread, each fair run finishes (`SchedulerFair.EveryFairRunFinishes`).
* The writer drops a task when the reuse ring is full, and a failed line with it. The count of
  filtered lines is exact in every interleaving if and only if no line with number 1024 or more
  fails (`PipelineLoss.FilteredExactly`).
* `hmap_remove` does not compare the key of a single entry. `HMap.HMap.Remove` states what it
  removes and that it removes exactly the key it was given if and only if the key is present or
  its address has no single entry. The generator only removes keys that are present:
  `GenSpec.Remove` demands it, and every descriptor is consistent in every run
  (`GenProof.GeneratedGood`).
* The range tree does not merge touching ranges, so a covered range can be reported missing
  (`RangeTree.TouchingRangesAreMissed`). `RangeTree.CompleteExactly` shows that every covered
  range is reported if and only if the search from no key gives up inside the union. The
  threshold argument of `btree_ensure_range_l` is never read.
* While a file has no hole its virtual size ignores where a read starts. `VSize.PlainSizeCovers`
  gives the exact condition under which it is large enough.
* Rewriting paths is injective if no mount point has a `.ioriot` component; with one, two paths
  can collide (`Mounts.NestedReplayRootCollides`). `Collisions.InjectiveExactly` gives the
  condition on the mount table: no replay root begins with another one in a way that both
  candidate paths are moved.
* A normalised path can still contain `..`, as part of a component: `/a..b` is its own normal
  form (`PathLaws.DotsInsideStay`). No component is `..` and no two slashes touch
  (`PathLaws.NormalIsNormal`); `..` is left exactly where a component contains it
  (`PathLaws.DotsAreInAToken`).
* A link that is itself a mount point is accepted by the generator and refused by the
  initialiser; `Links.LinkSurvives` shows that this is the only such case among clean paths
  on component-aligned mount points.
* `AMAP_MAX_ARRAY_LENGTH` is the unparenthesised text `1024*8`, so dividing by it divides by
  1024 and multiplies by 8. The addressing is still injective and in bounds
  (`AMap.AddressingIsInjective`).

## Model

| member | source | states |
|---|---|---|
| RingSpsc.Linearisable | ioriot/src/datas/rbuffer.c:39-87 | every interleaving of single accesses of one consumer and mutex-serialised producers is an execution of a bounded queue of size-1 in which full and empty are exact where they are read |
| RingSpsc.ReturnedIsPrefixOfInserted | ioriot/src/datas/rbuffer.c:39-87 | at every moment the values returned are a prefix of the values inserted, none is NULL, and at most size-1 are held |
| RingSpsc.ReplayIsFifo | ioriot/src/datas/rbuffer.h:22-24 | what a legal queue history inserted is what it returned followed by what it still holds |
| RingSpsc.ClearIsPrivate | ioriot/src/datas/rbuffer.c:82-84 | the slot the consumer sets to NULL is neither the one written next nor one holding another published element |
| RingSpsc.HasNextIsExact | ioriot/src/datas/rbuffer.c:59-70 | asked by the consumer, has_next is true exactly if an element is held |
| RingBuffer.RBuffer.constructor | ioriot/src/datas/rbuffer.c:17-29 | a new ring of this size is empty |
| RingBuffer.RBuffer.Insert | ioriot/src/datas/rbuffer.c:39-49 | appends the element, or refuses and changes nothing when size-1 elements are held |
| RingBuffer.RBuffer.HasNext | ioriot/src/datas/rbuffer.c:59-70 | true exactly if the ring holds an element |
| RingBuffer.RBuffer.GetNext | ioriot/src/datas/rbuffer.c:72-87 | returns and removes the oldest element, or nothing when empty |
| AMap.AddressingIsInjective | ioriot/src/datas/amap.c:24-67 | positions below the size are addressed in bounds and never share a cell |
| AMap.EveryIdHasASlot | ioriot/src/datas/amap.c:29-36 | ids 1..n all have a slot in a map created for n exactly if n is no multiple of 1024; otherwise only n lacks one |
| AMap.AMap.Set | ioriot/src/datas/amap.c:143-151 | stores at this position only, or returns -1 and changes nothing beyond the size |
| AMap.AMap.Get | ioriot/src/datas/amap.c:153-160 | what was stored at the position, NULL beyond the size |
| AMap.AMap.Unset | ioriot/src/datas/amap.c:162-171 | returns the value and empties this position only |
| SchedulerInv.ReachableInv | ioriot/src/replay/rworker.c:147-341 | whatever the interleaving, every state a worker and its threads can reach has each task object in one place, a history that matches the journal, one thread per stored id, no lost idle thread, a consistent lock and drained queues after shutdown |
| SchedulerOrder.ReplayOrder | ioriot/src/replay/rworker.c:223-301 | after any interleaving the operations of an id (one rthread_map can store, or any with a single thread) that have been run are a prefix of the journal's lines for that id that this worker accepts |
| SchedulerOrder.OneThreadPerId | ioriot/src/replay/rworker.c:230-276 | with several threads every operation of a storable id that ran was run by the thread rthread_map names for it |
| SchedulerOrder.BindingNeverChanges | ioriot/src/replay/rworker.c:234-276 | an entry of rthread_map, once set, is kept by every move, although its thread may be recycled for other ids |
| SchedulerOrder.UpdateOverwritesNothingPending | ioriot/src/replay/rworker.c:282-286 | the task object rtask_update writes into is in no queue, in no thread's hand and not in the reuse ring |
| SchedulerOrder.QueuesAreDisjoint | ioriot/src/replay/rthread.c:79-84 | a task object queued for a thread is in that queue once and nowhere else: no other queue, no thread's hand, not the worker's, not the reuse ring |
| SchedulerOrder.AtMostOnce | ioriot/src/replay/rworker.c:184-301 | at every moment no journal line has been run more than once, by whichever threads, and only lines this worker is responsible for |
| SchedulerOrder.ExactlyOnce | ioriot/src/replay/rworker.c:334-341 | when the worker has joined its threads, what was run is exactly what was dispatched, namely all accepted lines, and every queue is empty |
| SchedulerOrder.NoTasksLeft | ioriot/src/replay/rthread.c:192-196 | the error for tasks left at destruction cannot be reached |
| SchedulerBoundary.OrderExactly | ioriot/src/replay/rworker.c:275 | for any number of workers, journal order holds for all ids, journals and interleavings if and only if there is one thread or num_vsizes is no multiple of 1024 |
| SchedulerBoundary.Overtaken | ioriot/src/replay/rworker.c:275 | two consecutive lines of an id without a slot, after any lines of different ids: with two threads an interleaving runs everything before them, then the second before the first |
| SchedulerBounds.BuffersFit | ioriot/src/replay/rworker.c:57-60 | in every interleaving a queue holds at most 511 tasks, the idle ring at most threads-1 and the reuse ring at most 512*threads-1 entries, and never more than 512*threads+1 task objects exist |
| SchedulerBounds.ThreadsOnDemand | ioriot/src/replay/rworker.c:242-270 | a thread is created exactly for an id that has none when no thread is idle and one more is allowed, and then all threads are awake or have work |
| SchedulerBounds.ObjectsOnDemand | ioriot/src/replay/rworker.c:278-286 | a task object is created exactly when the reuse ring is empty, and freed only when it is full |
| SchedulerBounds.ParksWhenEmpty | ioriot/src/replay/rthread.c:98-130 | a thread goes into the idle ring only after it found its queue empty under the mutex and turns back wherever it sees a task; the idle and the reuse ring are only filled by the holder of their mutex |
| SchedulerProgress.NoLostThread | ioriot/src/replay/rthread.c:110-130 | between journal lines and while the worker waits, every created thread is in the idle buffer, has an unread task or is awake |
| SchedulerProgress.WaitEnds | ioriot/src/replay/rworker.c:245-253 | a worker waiting on an empty idle buffer finds a thread within a bounded number of rounds in which every thread gets a turn, whatever the interleaving |
| SchedulerFinish.CanFinish | ioriot/src/replay/rworker.c:334-341 | no deadlock and no lost wake-up: every reachable state has a continuation in which the worker joins all threads, without any assumption on the mutex |
| SchedulerFair.EveryFairRunFinishes | ioriot/src/replay/rworker.c:334-341 | from every reachable state, every infinite run in which everybody gets turns and waiting threads get their mutex comes to the point where all threads are joined |
| SchedulerFair.FairRoundExists | ioriot/src/replay/rthread.c:98-130 | in every reachable state some round is fair |
| SchedulerStarvation.TurnsAreNotEnough | ioriot/src/replay/rthread.c:110-130 | a reachable state and a round in which everybody gets a turn that leads back to it while the worker joins a thread that never gets the mutex |
| GenProof.JournalWellFormed | ioriot/src/generate/gioop.c:208-281 | for any capture every virtual descriptor is opened at most once and first, used only before its close, closed at most once and last, under one id, and its number lies in 11..num_mapped_fds |
| GenProof.ExitClosesEverything | ioriot/src/generate/gioop.c:847-869 | after exit_group every descriptor the process had open ends with a CLOSE line, whatever the order of the callback, and the process is gone |
| GenProof.DescriptorMaps | ioriot/src/generate/gprocess.c:46-101 | the two maps of a process are a bijection whose objects agree with both keys, descriptors are bounded and disjoint between processes, and each is open in the journal under its path's id |
| GenProof.OnePathOneId | ioriot/src/generate/generate.c:240-260 | ids are distinct per path and exactly 1..num_vsizes, and every line that names a path carries its id |
| GenProof.GeneratedGood | ioriot/src/generate/gioop.c:156-206 | every run keeps all invariants, so each removal from a descriptor map names a present key |
| JournalTags.LineTagsAscend | ioriot/src/generate/gioop.h:26-34 | when the tasks come in file order, the capture line numbers written into the journal never decrease |
| GenLaws.TaskAddsItsLines | ioriot/src/generate/gioop.c:156-281 | each task adds to the journal exactly the lines of its kind, and none if it failed before or its handler filters it: an accepted open its line behind the CLOSE of the descriptor it replaces, an operation or close on an open descriptor one line under the id of that descriptor's OPEN line, an exit one CLOSE for each open descriptor, all with the capture line and the mapped pid |
| GenLaws.UseIsReplayed | ioriot/src/generate/gioop.c:445-458 | an operation on an open descriptor adds one line, on the virtual descriptor and under the id its OPEN line has |
| GenLaws.TaskChangesItsProcess | ioriot/src/generate/gprocess.c:46-83 | a task changes at most the process it names: an accepted open maps the next virtual descriptor in place of the old one, a close removes both keys, an exit the process |
| GenLaws.TaskCounts | ioriot/src/generate/generate.c:262-272 | a new process takes one mapped pid, an accepted open one virtual descriptor, and only a pid beyond the map ends the generator |
| GenLaws.MappedPidsAreDistinct | ioriot/src/generate/generate.c:262-272 | in every run the mapped pids are between 1 and num_mapped_pids and no two processes share one; real descriptors are positive |
| GenPaths.TaskEntersItsPaths | ioriot/src/generate/generate.c:240-260 | a task keeps all ids and gives the next ones to the paths it names, then to the directories above those it updates for the first time, in this order |
| GenPaths.TaskUpdatesItsPaths | ioriot/src/generate/vsize.c:78-203 | which paths count as updated after a task: its own, those of the descriptors it closes, and directories it made known |
| Generator.Generator.RunTask | ioriot/src/generate/gioop.c:156-206 | the objects go through exactly one step of the specified generator |
| Generator.Generator.CreateVfdByRealFd | ioriot/src/generate/gprocess.c:46-83 | inserts the missed close, takes a recycled or new object that no map holds, and maps the next virtual number |
| Generator.Generator.OpenFile | ioriot/src/generate/gioop.c:208-259 | open, openat and creat: the specified state change, or none when the line is filtered |
| Generator.Generator.CloseFile | ioriot/src/generate/gioop.c:262-281 | writes the close, removes both keys and recycles the object |
| Generator.Generator.ExitGroup | ioriot/src/generate/gioop.c:847-869 | visits every open descriptor once in some order, closes it and removes the process |
| Generator.Generator.TakeVfd | ioriot/src/generate/gprocess.c:73-78 | an object from the ring or a new one, reachable from no map, carrying the new descriptor and offset 0 |
| Generator.Generator.Detach | ioriot/src/generate/gioop.c:274-275 | removes exactly the two keys of the descriptor, after which nobody owns the object |
| Generator.Generate | ioriot/src/generate/gwriter.c:22-57 | the journal left after all tasks is one the theorems of GenProof speak about |
| Replay.DescriptorOwnership | ioriot/src/replay/rioop.c:354-366 | for any capture, workers, threads and interleaving: the operations run on a virtual descriptor are a prefix of the journal's, all on one thread of one worker, with its open first and its close last |
| Replay.DescriptorSlot | ioriot/src/replay/rioop.c:340-363 | an open finds its slot of fds_map empty; a use or close finds the object of the one open of its descriptor unless that open failed or the map is too small |
| Replay.SlotAlways | ioriot/src/replay/rioop.c:340-363 | at every moment of every replay the slot of a descriptor is full exactly from its successful open to its close, if the map has the slot; after the close it stays empty |
| Replay.DescriptorComplete | ioriot/src/replay/replay.c:160-217 | when the responsible worker has finished, every journal operation on the descriptor has been run, in journal order |
| Replay.EveryDescriptorOwned | ioriot/src/replay/rworker.c:57 | with one thread per worker, or num_vsizes no multiple of 1024, every id a descriptor is used under keeps order |
| Replay.DescriptorOrder | ioriot/src/replay/rworker.c:184-301 | whatever the interleaving, the operations run on a virtual descriptor are a prefix of the journal's lines for it: open first, close last |
| Replay.DescriptorThread | ioriot/src/replay/rworker.c:230-276 | two operations on one virtual descriptor were run by the same thread of the same worker |
| Replay.EachWorkerAlone | ioriot/src/replay/rworker.c:183-189 | in the system each worker behaves as alone under its own moves, and the global log restricted to it is what it ran |
| ReplayBoundary.OwnershipExactly | ioriot/src/replay/rworker.c:275 | for any number of workers and any parent function that drops the last component: every descriptor of every capture and replay is owned by one thread in journal order if and only if there is one thread per worker or num_vsizes is no multiple of 1024 |
| ReplayBoundary.OwnershipUnderDirname | ioriot/src/generate/vsize.c:78-98 | the same with dirname(), which init_parent_dir calls |
| ReplayBoundary.DirnameDropsLast | ioriot/src/generate/vsize.c:78-98 | dirname() of a path below a directory is that directory |
| ReplayBoundary.OwnershipLost | ioriot/src/replay/rioop.c:354-366 | for any number of workers, several threads and any multiple of 1024: a capture with that many paths and a replay of its journal that closes a descriptor before opening it |
| ReplayBoundary.WorkerInSystem | ioriot/src/replay/replay.c:160-217 | whatever a worker can do alone it can do in the system |
| Replay.FdHasOneWorker | ioriot/src/replay/rworker.c:183-189 | every operation on a descriptor is run by the worker its vsize id selects |
| RangeTree.EnsureIsExact | ioriot/src/datas/btree.c:161-206 | for all integers the union of the node ranges grows by exactly [start, end) |
| RangeTree.EnsureKeepsOrder | ioriot/src/datas/btree.c:175-186 | strict search order survives, also when a node's key is lowered in place |
| RangeTree.EnsureAllIsUnion | ioriot/src/datas/btree.c:82-90 | after any sequence of requests the tree is a search tree and stores exactly the union of what was there and what was requested |
| RangeTree.NeverForgets | ioriot/src/datas/btree.c:227-246 | a range is reported right after it was ensured and after every later sequence of requests |
| RangeTree.HasIsSound | ioriot/src/datas/btree.c:227-246 | a reported range lies inside the stored union |
| RangeTree.HasIsComplete | ioriot/src/datas/btree.c:227-246 | when no stored range touches another, every non-empty covered range is reported, even without search order |
| RangeTree.TouchingRangesAreMissed | ioriot/src/datas/btree.c:231-245 | a hole after 10 bytes and two more requests: the tree covers [20,50) but does not report it |
| RangeTree.CompleteExactly | ioriot/src/datas/btree.c:227-246 | in a search tree every covered non-empty range is reported if and only if the search from no key ends inside the union |
| RangeTree.HasIsReach | ioriot/src/datas/btree.c:227-246 | a range is reported exactly if it ends no later than the furthest end the search from its start meets |
| RangeTree.OverlapCanBeSeamless | ioriot/src/datas/btree.c:231-245 | three requests after which ranges overlap and every covered range is reported all the same |
| RangeTree.JoiningIsOneNode | ioriot/src/datas/btree.c:161-206 | requests of which each starts inside or right behind what was asked for before, or swallows it, share one node from the least start to the furthest end |
| RangeTree.WrittenOnce | ioriot/src/generate/generate.c:208-218 | the init section gets at most one range for each node and no empty one |
| RangeTree.InsertExactly | ioriot/src/datas/btree.c:136-159 | in a search tree a key that is present keeps its data, an absent one is added, all others stay |
| RangeTree.WrittenIsExact | ioriot/src/generate/generate.c:208-218 | the ranges written to the init section cover exactly the stored bytes |
| BTree.BTree.EnsureRange | ioriot/src/datas/btree.c:82-90 | the linked nodes become the specified tree, in place, and size stays the number of nodes |
| BTree.Elem.EnsureRange | ioriot/src/datas/btree.c:161-206 | the subtree becomes the specified one and the result is 1 exactly if a node was added |
| BTree.Elem.HasRange | ioriot/src/datas/btree.c:227-246 | the answer of the specified search |
| BTree.Elem.WriteRanges | ioriot/src/datas/btree.c:265-277 | visits root, left, right and yields the non-empty ranges of all nodes |
| BTree.BTree.Insert | ioriot/src/datas/btree.c:40-55 | the specified insertion, counted only if a node was added |
| VSize.HoleStartsTree | ioriot/src/generate/vsize.c:225-238 | when a hole appears the new tree holds exactly the old bytes and the new range and the byte count is given up |
| VSize.TreeGrowsExactly | ioriot/src/generate/vsize.c:241-244 | from then on a request adds exactly its range to its own side |
| VSize.TreeOnlyGrows | ioriot/src/generate/vsize.c:205-268 | over any sequence of reads and writes a tree stays a search tree, forgets no byte and holds none nobody asked for |
| VSize.ReadIsServed | ioriot/src/generate/vsize.c:247-260 | with a read tree, every byte of a read is and stays in a read range or in a range written before |
| VSize.PlainSizeCovers | ioriot/src/generate/vsize.c:207-224 | exactly when the plain byte count reaches the end of the requested range |
| VSize.PlainSizeIs | ioriot/src/generate/vsize.c:207-224 | without a hole no tree appears and the size becomes the count of the request if that is larger, at offset 0 only if it is larger by more than 10 MiB |
| VSize.ReadOfWrittenIsFree | ioriot/src/generate/vsize.c:251-256 | once writes go to a tree, a read of what a write started with changes nothing, whatever was read and written in between |
| VSize.ReadOfUnwrittenIsRecorded | ioriot/src/generate/vsize.c:251-256 | a read with a byte in no write range requests its whole range, and with a read tree all its bytes are then in it |
| VSize.ReadTreeExactly | ioriot/src/generate/vsize.c:247-260 | over any sequence a read tree gains exactly the bytes of the reads that no write tree reported when they came |
| VSize.HoleToInit | ioriot/src/generate/generate.c:220-238 | from the first hole to the init section: a byte is in the lines if and only if it was there before, or lies in the range that opened the hole, or in a later read that no write tree reported when it came |
| VSize.ReadBehindSeekIsMissed | ioriot/src/generate/vsize.c:207-224 | a read, a seek and a read after which the plain size ends before the second range does |
| VSize.Vsize.Seek | ioriot/src/generate/vsize.c:270-280 | moves the offset and leaves sizes and ranges alone |
| VSize.InitLinesAreExact | ioriot/src/generate/generate.c:225-237 | the init lines cover exactly the read tree, or the bytes below the plain size |
| VSize.Vsize.EnsureDataRange | ioriot/src/generate/vsize.c:205-245 | the object takes the specified step on the chosen side |
| VSize.Vsize.Read | ioriot/src/generate/vsize.c:247-260 | if the search in the write tree finds the range, nothing changes and nothing becomes required; otherwise the range is requested on the read side and the file becomes required; the offset advances |
| VSize.Vsize.Write | ioriot/src/generate/vsize.c:262-268 | requests the range on the write side and advances the offset |
| VSize.Vsize.WriteInit | ioriot/src/generate/generate.c:220-238 | the init lines of a required regular file |
| KeyedList.List.Insert | ioriot/src/datas/list.c:48-105 | adds the binding in front unless the key is present; both links of every element stay consistent |
| KeyedList.List.Unlink | ioriot/src/datas/list.c:107-127 | takes exactly one element out of the doubly linked chain |
| KeyedList.List.Remove | ioriot/src/datas/list.c:129-159 | returns and removes exactly the binding of the key |
| KeyedList.List.Get | ioriot/src/datas/list.c:161-185 | what the key is bound to |
| KeyedList.List.RunCallback | ioriot/src/datas/list.c:198-207 | hands every value to the callback, front to back |
| HMap.HMap.Insert | ioriot/src/datas/hmap.c:96-174 | the represented map gains the binding unless the key is present, over slot, collision and list; the first entry of an address goes into its slot |
| HMap.HMap.Get | ioriot/src/datas/hmap.c:220-244 | what the represented map holds under the key |
| HMap.HMap.Remove | ioriot/src/datas/hmap.c:176-218 | which binding goes, and that it is exactly the key's if and only if the key is present or its address has no single entry |
| HMap.HMap.RunCallback | ioriot/src/datas/hmap.c:259-270 | every binding is visited exactly once |
| HMap.RemoveAbsentKey | ioriot/src/datas/hmap.c:180-184 | removing an absent key from a map with one entry takes away the entry of another key |
| PipelineRuns.ReachableInv | ioriot/src/generate/generate.c:125-170 | whatever the interleaving of the three threads, every reachable state has each task object in one place, lines in file order, verdicts and counts that match them, and stages that end in order |
| PipelineRuns.FileOrder | ioriot/src/generate/gparser.c:20-43 | at every moment the lines written are the first data lines of the capture, each once, in file order |
| PipelineRuns.Conservation | ioriot/src/generate/generate.c:153-170 | at the end every data line was parsed and run exactly once, all queues are empty, and filtered plus dropped tasks make up the failed lines |
| PipelineRuns.FilteredCount | ioriot/src/generate/gwriter.c:39 | at every moment the filtered count does not exceed the failed lines; at the end the difference is zero exactly if the run dropped no failed task |
| PipelineRuns.StagesDrain | ioriot/src/generate/generate.c:155-161 | each thread ends with its queue empty after everything before it has ended |
| PipelineLoss.FilteredExactly | ioriot/src/generate/gwriter.c:39 | the filtered count equals the failing lines in every finished interleaving if and only if no data line with number 1024 or more fails |
| PipelineLoss.LossIsLate | ioriot/src/generate/gwriter.c:39 | at every moment, if a failed task was dropped then a failing line with number 1024 or more has been run |
| PipelineLoss.LosesLine | ioriot/src/generate/generate.c:137-143 | for every failing line with number 1024 or more there is a run that drops its task |
| PipelineRuns.InitOverwritesNothing | ioriot/src/generate/generate.c:137-143 | gtask_init only writes into a task object that no queue and no other thread holds |
| PipelineBounds.ObjectsAreBounded | ioriot/src/generate/generate.c:125-170 | in every interleaving no ring overflows and at most 2049 task objects are in use, however long the capture |
| PipelineBounds.ObjectsOnDemand | ioriot/src/generate/generate.c:137-143 | a task object is created exactly when none came back, and goes out of use exactly when the writer finds the reuse ring full or at the end |
| PipelineFinish.CanFinish | ioriot/src/generate/generate.c:125-170 | no deadlock: every reachable state has a continuation in which the generator finishes |
| PipelineFair.EveryFairRunFinishes | ioriot/src/generate/generate.c:125-170 | from every reachable state, every infinite run in which each thread gets turns comes to the point where the generator has finished |
| Paths.StackNormalIdempotent | ioriot/src/mounts.c:22-66 | normalising twice is normalising once, for every string |
| Paths.ArrayNormalIdempotent | ioriot/src/utils/futils.c:24-69 | the same for the array-based normaliser |
| Paths.NormalisersAgree | ioriot/src/utils/futils.c:24-69 | on tokenised paths of at most 1024 components the two agree exactly on absolute paths with something left and relative ones with nothing left |
| PathLaws.NormalIsNormal | ioriot/src/mounts.c:22-66 | for every string the normal form has no component .. and no two slashes in a row |
| PathLaws.DotsAreInAToken | ioriot/src/mounts.c:30 | a string contains .. exactly if one of its components does |
| PathLaws.DotsInsideStay | ioriot/src/mounts.c:30-44 | /a..b is tokenised and is its own normal form |
| PathLaws.NothingToDo | ioriot/src/mounts.c:30-31 | a path with neither .. nor // is returned as it is |
| PathLaws.ComponentsDecide | ioriot/src/mounts.c:33-60 | any other path is normalised by its components alone, however they were separated |
| PathLaws.CleanIsKept | ioriot/src/mounts.c:43-60 | components other than . and .. are all kept, each behind a slash; none is written . |
| PathLaws.UpCancels | ioriot/src/mounts.c:41-42 | a component followed by .. can be taken out anywhere, whatever surrounds the two |
| PathLaws.TopIsItsOwnParent | ioriot/src/mounts.c:41-42 | .. in front can be taken out |
| PathLaws.DotMeansHere | ioriot/src/mounts.c:43 | . can be taken out anywhere |
| PathLaws.DownAndUp | ioriot/src/mounts.c:33-60 | a clean absolute path with one component and .. put in is normalised to the path without the two |
| PathLaws.UpAtTheTop | ioriot/src/mounts.c:33-60 | /.. in front of a clean absolute path goes |
| PathLaws.DoubleSlash | ioriot/src/mounts.c:33-60 | a doubled slash inside a clean absolute path goes |
| PathLaws.ArrayFollowsStack | ioriot/src/utils/futils.c:24-69 | for every string the array-based normaliser keeps what the stack-based one keeps of the components up to the first that fills the array of 1024, and writes relative paths without a slash in front |
| PathLaws.FirstFull | ioriot/src/utils/futils.c:37 | in every string there is such a component: the first to fill the array, or the last one |
| PathLoops.NormalizeWithStack | ioriot/src/mounts.c:22-66 | the stack loop computes the normal form its function defines |
| PathLoops.NormalizeWithArray | ioriot/src/utils/futils.c:24-69 | the array loop with its moving count and cap computes the normal form its function defines |
| PathLoops.RelativePath | ioriot/src/mounts.c:94-153 | the loops over parts build the specified relative path |
| PathLoops.DirnameInPlace | ioriot/src/utils/futils.c:286-328 | truncating in place leaves the parent directory of the string |
| PathLoops.IgnorePath | ioriot/src/mounts.c:391-408 | the backward loop over the ignored mount points: true exactly if the namespace directory or one of them begins the path |
| PathLoops.TransformPath | ioriot/src/mounts.c:410-479 | the backward search over mount points gives the specified outcome |
| Mounts.RefusedExactly | ioriot/src/mounts.c:391-431 | a path is refused exactly if /tmp/namespace- or an ignored mount point begins its normal form |
| Mounts.UnmappedExactly | ioriot/src/mounts.c:437-469 | any other path is left alone exactly if no mount point begins its normal form |
| Mounts.MappedBelowLast | ioriot/src/mounts.c:437-463 | and is moved below .ioriot/NAME of the last mount point that does |
| Mounts.RecoverTransformed | ioriot/src/mounts.c:410-479 | removing the first marker of a moved path gives back its normal form, if no mount point has a .ioriot component |
| Mounts.TransformIsInjective | ioriot/src/mounts.c:410-479 | with no .ioriot component in any mount point, two paths with the same replay path have the same normal form, for every name and however the mount points are written |
| Mounts.NestedReplayRootCollides | ioriot/src/mounts.c:437-463 | with a mount point inside a replay root two different normalised paths get the same replay path |
| Collisions.InjectiveExactly | ioriot/src/mounts.c:410-479 | for normalised mount points and a one-component name, distinct normalised paths get distinct replay paths if and only if no two replay roots of the table clash |
| Collisions.ClashCollides | ioriot/src/mounts.c:437-463 | two clashing replay roots give two different paths the same replay path, whatever the name |
| Collisions.ShortNameClashes | ioriot/src/mounts.c:437-463 | with name .i the mount points /mnt and /mnt/.ioriot clash: their replay roots overlap by part of the marker |
| Collisions.OneMountIsInjective | ioriot/src/mounts.c:437-463 | with a single mount point no two paths collide, whatever its components |
| Symlinks.RelativeResolves | ioriot/src/mounts.c:94-153 | following the relative path from the first directory and normalising gives the second path |
| Symlinks.DirnameOfAbs | ioriot/src/utils/futils.c:286-328 | dirname_r drops the last component of a clean path |
| Symlinks.DirnameOf | ioriot/src/utils/futils.c:286-328 | dirname_r on every non-empty string: what stands before the last component and its slash, whatever slashes follow; . or the name itself for a single component; / and an empty string for slashes only |
| Symlinks.RelativeIsShort | ioriot/src/mounts.c:94-153 | the relative path goes up once for each component of the directory that is not shared, then down the rest |
| Links.RelativeTarget | ioriot/src/mounts.c:500-505 | a relative target, whatever its text, is looked up in the directory of the link |
| Links.TargetIsMeant | ioriot/src/mounts.c:497-508 | a target written from the root, or some levels up and then down, is taken for the place it means in the directory of the link; up from the root stays at the root |
| Links.AcceptedExactly | ioriot/src/mounts.c:481-537 | a link whose target means a place on a mount point is accepted exactly if that place is moved below the same replay root as the link, and the new target is then the relative path to the moved place |
| Links.NotMovedIsRefused | ioriot/src/mounts.c:510-516 | a link to the root, or to a place that is not moved, is refused |
| Links.LinkSurvives | ioriot/src/utils/futils.c:236-261 | below the same replay root the new target resolves to the moved form of the place that was meant, and the initialiser accepts the link exactly when it is not a mount point itself |
| Links.InitAcceptsExactly | ioriot/src/utils/futils.c:236-261 | below a replay root the initialiser accepts a target, whatever its text, exactly if it is relative and leads to a place below the same root, as far as the array of 1024 components takes it |
| Symlinks.RootMovesEverything | ioriot/src/mounts.c:410-479 | with the root as the only mount point every clean path that is not ignored is moved below /.ioriot/NAME |
| Symlinks.MountPointLinkRefused | ioriot/src/utils/futils.c:236-261 | a link that is the mount point /a with a target /a/b is accepted by the generator and refused by the initialiser |

## Left out

- Weak memory: the source relies on x86 ordering; the model takes sequential consistency.
- Replay.DescriptorOwnership: with several threads it excludes the id without a slot in rthread_map, because order fails for it (SchedulerBoundary.OrderExactly).
- SchedulerProgress.WaitEnds: speaks about schedules in which every thread gets a turn in each round; an unfair scheduler can starve the worker.
- RangeTree.HasIsComplete: one direction, for trees whose ranges do not touch; the exact condition for search trees is RangeTree.CompleteExactly.
- Mounts.TransformIsInjective: one direction; the exact condition is Collisions.InjectiveExactly.
- Collisions.InjectiveExactly: for mount points that normalisation leaves as they are and a name that is one path component.
- SchedulerFair.EveryFairRunFinishes: assumes that a thread waiting for a mutex when a round begins gets it during the round, because turns alone are not enough (SchedulerStarvation.TurnsAreNotEnough).
- VSize.ReadIsServed: only once the read side is a tree; before that the plain byte count does not follow the offset (VSize.PlainSizeCovers).
- Links.LinkSurvives: for clean link and target paths on component-aligned mount points and at most 1024 components; the array-based normaliser drops what lies beyond.
- Links.AcceptedExactly: targets with . or with .. between other components are covered by Links.RelativeTarget and the laws of PathLaws only.
- Symlinks.SymlinkTarget: where no mount point matches the target the source searches a NULL string; the function returns no target there.
- The scheduler and the pipeline are transition systems on values, because their steps interleave; task and thread objects appear as numbers with an owner.
- HMap keeps key and data of a slot together where the source has two arrays, and hashes into natural numbers; negative and truncated long keys are not modelled.
- strtok_r is the function Paths.Tokens; allocation, freeing and string copies are not modelled.
- The capture parser's field extraction and the roughly forty handlers: one operation on a descriptor, one on a path, rename, open, close, sync and exit_group stand for them.
- Error exits for malformed journal lines, over-long lines and number overflow.
- rprocess_map, replay speed, timing, statistics and load average.
- Flags of a virtual size (directory, file, link, unsure, required beyond reads) and journalled link targets.
- fork and the lifetime of the shared mapping; the workers share one map of open descriptors.
- System calls of replay and initialisation: running an operation is appending it to a log.
- Reading /proc/mounts, purging and trashing, options, capture, SystemTap scripts and kernel modules.
