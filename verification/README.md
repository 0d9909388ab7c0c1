# Verified model of five system programs

This project models five of the repository's programs in Dafny 4.11 and proves properties of them
that hold for all inputs and, where the program is concurrent, for all interleavings.

| program | source | files |
|---|---|---|
| parallel directory copier | `HW5/program.c` | `Copier*.dfy` |
| BibakBOX mirroring, client and server | `Final_HW6/*.c` | `Mirror*.dfy` |
| shell pipelines | `HW2/terminal.c` | `ShellPipeline.dfy` |
| append or seek-and-write | `HW1/appendMeMore.c` | `AppendRace.dfy` |
| admission of clients | `Midterm_HW3/biboServer.c` | `Admission*.dfy` |

`dafny verify dfyconfig.toml` checks everything; `Wrappers.dfy` is shared by all of them.

**The directory copier** is a transition system (`CopierProtocol`): program counters for `main`, for
the traversal and for each worker; the two mutexes; sleeping, signalled and spuriously woken threads;
the ring; the open descriptors; the destination. A step is what one thread does between two points
where another can interfere; in particular the test of `done` and the wait that follows it are two
steps, so the shutdown broadcast can fall between them. The outcome of every system call on an entry
is part of the source tree, so a theorem about all trees is a theorem about all patterns of failing
calls, short writes and failing reads. The ring, the hash table and the copy loop are also classes
and loops of their own, proved against the functions the protocol steps with. The main results:

* every interleaving that finishes leaves the destination and the counters of one plain sequential
  recursive copy, whatever fails (`FinishedRunIsSequentialCopy`), and if nothing fails the destination
  shows exactly the source tree (`FinishedRunMirrorsSource`). Whatever fails and whatever was there before,
  every path shows what its source entry makes of it, and the printed histogram has every kind's number of
  opened files (`FinishedRunShows`, `FinishedRunReports`); every failure is reported exactly once
  (`EveryFailureReported`);
* a state without an enabled step is finished, or `main` waits for workers that all sleep or have
  exited, with everything copied (`StuckIffFinishedOrHung`, `HungRunHasCopiedAll`); this happens
  exactly when a worker stands between its test of `done` and its wait at the broadcast
  (`FinishesUnlessMissed`). Whatever the tree, the number of workers and the ring, the program as
  written has a run in which it does (`ShutdownCanBeMissed`), and the program is sure to finish if and
  only if `done` is set under `buffer_mutex` (`FinishesIffRepaired`); a finishing run always exists
  (`CanFinish`);
* without spurious wake-ups every run is finite, with a bound computed from the tree (`RunsAreFinite`);
* tasks keep their order, descriptors have one owner and are closed once, at most two per ring slot
  are open, bytes and histogram add up, and the traversal threads, creations and joins being steps of
  their own, are one chain of which only the last does any work, so the unlocked histogram update is
  never concurrent.

**Mirroring** is modelled over trees, path strings, byte streams and the disks of both sides. `cut` is
the network: how many bytes each `recv` delivers. The server's flattened list rebuilds its tree, and
the first part of a session, from clearing the client's directory on, mirrors the server's directory
byte for byte (`SessionMirrors`), provided everything in the client's directory can be removed, every
list record arrives in one piece and no `recv` runs across a file boundary. Each of these conditions is
shown to be exact for its own phase: for the clearing (`EmptiedIff`, and what stays otherwise in
`BehindUndeletable` and `BeforeUndeletable`); for the position in the stream behind the list, whatever
the memory holds that a short read leaves as it was (`ListInStepIffWhole`); for the bodies, together
with the size limit of the size field (`FilesArriveIffUncrossed`). The command
sequence sent is the one carried out on the server's disk, however tags and names are cut up, if and
only if no update's contents run into the next command and the disk admits each command
(`CommandsRecoveredIff`); and each command changes, on the server, the path that the client's change
was at. The change detector, which sees at most 100 files, always finds something to report when the
number of files it sees has changed, and what it reports is true of the whole directory.

**The pipeline wiring** holds for every number of commands and every interleaving of the shell's
forks and closes with the children's closes and `dup2`s, also if children end early. **The append race**
bounds the file's final size for any number and mixture of processes; for every mixture some
interleaving attains each of the two bounds, and none loses a byte if and only if no process that writes
anything seeks, or only one process writes anything (`KeepsAllIffHarmless`).
**The admission loop** is proved over every sequence of requests and of changes to the shared slots
and counter. Its array queue is an unlimited FIFO, and nobody is told to wait and then lost, if and only
if never more than 1024 clients are queued between two moments at which nobody waits.

Where the program does not do what one would want, the exact condition is a theorem: the missed
shutdown above, a list out of step after a cut record, bodies mixed by one `recv`, commands swallowed by
an update, clients told that they are queued and then lost, bytes lost to stale offsets. For each there
is also a lemma with a run in which it happens.

## Model

| member | source | states |
|---|---|---|
| CopierTree.CopyMirrorsSource | HW5/program.c:192-299 | Copied sequentially without failures, every path below the destination shows the source entry of that path with its kind and bytes, every other path what it showed before |
| CopierTree.CopyShows | HW5/program.c:192-299 | Whatever fails and whatever was at the destination: every path the traversal gets to shows what its entry makes of it (`mkdir` keeps what is there, `open` replaces it, a FIFO replaces it if it can be deleted and made), every other path what it showed before |
| CopierTree.CopyKeepsOldNames | HW5/program.c:211-217 | Whatever fails, an existing name that is neither opened for writing nor a FIFO's keeps its node, also where the source has a directory of that name |
| CopierTree.CopyCounts | HW5/program.c:211-275 | Whatever fails, files count if both ends could be opened, directories if their thread was joined |
| CopierTree.CopyCountsFifos | HW5/program.c:279-298 | Whatever fails, a FIFO counts if what was in its way before the copy can be deleted and it can be made |
| CopierTree.CopyKinds | HW5/program.c:255-296 | Whatever fails, a kind is recorded once for every opened file of that kind, and "fifo" once more for every FIFO counted |
| CopierTree.CopyCountsTree | HW5/program.c:229-231 | A faultless copy counts every regular file, directory and FIFO of the tree exactly once |
| CopierTree.CopyKeepsCountersTrue | HW5/program.c:266-272 | Whatever fails, `bytes_copied` is the length of all copied files together and there is one recorded kind per counted file or FIFO |
| CopierTree.CopyKeepsInodes | HW5/program.c:192-299 | Whatever fails, handling further entries keeps the bytes of every file already copied, and every name that shows a copied file shows one that exists |
| CopierTree.OpenedAreCreated | HW5/program.c:238-253 | Whatever fails, the copy creates one file per destination path it opens |
| CopierTree.OpenedOnce | HW5/program.c:245 | If names in a directory differ, no destination path is opened twice in a copy, so O_TRUNC never meets a file copied before |
| CopierTree.CompleteWritesKeepContent | HW5/program.c:417-429 | If no write is short, what was written is the source's content |
| CopierTree.LastDot | HW5/program.c:255-263 | The position found is that of the last dot |
| CopierTree.ExtensionIsKind | HW5/program.c:255-263 | The key of a file is what stands behind its last dot, without the dot, or "unidentified file" if it has none |
| CopierRing.IndexTests | HW5/program.c:385 | The two index tests tell exactly whether the queue is empty or holds one less than the slots |
| CopierRing.PutAppends | HW5/program.c:389-392 | Storing at `buffer_in` appends to the queue and overwrites nothing queued |
| CopierRing.DropRemovesFront | HW5/program.c:401-404 | Advancing `buffer_out` removes exactly the oldest task |
| CopierRing.OneSlotIsAlwaysFull | HW5/program.c:385-386 | The wait for a free slot can ever end if and only if there are at least two slots |
| CopierRing.TaskBuffer.Full | HW5/program.c:385 | The modular test is the capacity test on the queue's contents |
| CopierRing.TaskBuffer.Empty | HW5/program.c:313 | Equal indices mean an empty queue |
| CopierRing.TaskBuffer.AddTask | HW5/program.c:389-392 | The array's queue grows by the task at its end; the method refines the ring's `Put` |
| CopierRing.TaskBuffer.TakeTask | HW5/program.c:401-404 | The oldest task is returned and removed; the method refines the ring's `Drop` |
| CopierTransfer.CopyFd | HW5/program.c:413-436 | For every pattern of reads, short writes and failures the destination gains exactly the accepted prefixes up to the first failed write, `bytes_copied` their length; there is one complaint if a write fails, one if all writes succeed and the read fails, and none otherwise |
| CopierTransfer.OneComplaint | HW5/program.c:419-435 | There is at most one complaint about a file, and the protocol counts it the same way |
| CopierTransfer.WrittenStopsAtFailure | HW5/program.c:419-424 | Nothing behind a failed write reaches the destination |
| CopierHistogram.Hash | HW5/program.c:74-81 | The loop computes the key's 32-bit hash with signed characters and wrap-around, reduced to a bucket |
| CopierHistogram.AccumulateIsSum | HW5/program.c:74-81 | The hash is the sum of the signed characters times powers of 31, modulo 2^32 |
| CopierHistogram.Chain.Find | HW5/program.c:107-115 | The walk along a linked list finds the first node of a key, or none if there is none |
| CopierHistogram.Hashtable.constructor | HW5/program.c:93-99 | The new table has ten empty buckets, count 0, and no kind recorded |
| CopierHistogram.Hashtable.Get | HW5/program.c:128-143 | The value of a present key, otherwise 0 |
| CopierHistogram.Hashtable.Insert | HW5/program.c:102-125 | The rows become those that the specification of `insert` says; a present key counts one more whatever the value argument; an absent one gets the value; no other key's count changes, keys stay unique and in their own bucket, and `count` stays the number of nodes |
| CopierHistogram.Hashtable.Record | HW5/program.c:266 | `insert` of `get` plus one makes of the rows what the specification of a recording says, raises the key's count by exactly one in both cases, and so keeps mapping every kind to how often it was recorded |
| CopierHistogram.HitCounts | HW5/program.c:108-114 | Adding one at the first node of a key changes that key's count only and keeps keys unique and in their bucket |
| CopierHistogram.MissCounts | HW5/program.c:118-124 | A node put in front of its bucket's list adds its key only and keeps keys unique and in their bucket |
| CopierHistogram.RecordTallies | HW5/program.c:266 | After any recording the table still maps every kind to the number of times it was recorded |
| CopierHistogram.RecordAllTallies | HW5/program.c:93-125 | The new table, after any sequence of recordings, maps every kind to the number of times it was recorded and keeps keys unique and in their bucket |
| CopierHistogram.CountsAddUp | HW5/program.c:599-606 | The table has one node per recorded kind and the printed counts sum to the number of recorded entries |
| CopierProgress.MainKeepsMissed | HW5/program.c:565 | The steps of `main` keep: from the broadcast on, some worker sleeps or is about to exactly if the broadcast fell between a worker's test of `done` and its wait, whoever it woke |
| CopierInvariant.TravKeepsRing | HW5/program.c:382-396 | Traversal steps keep what every thread has learned about the ring and `done` under the mutex |
| CopierInvariant.WorkerKeepsRing | HW5/program.c:310-326 | Worker steps keep what every thread has learned about the ring and `done` under the mutex |
| CopierInvariant.TravKeepsQueue | HW5/program.c:382-396 | Traversal steps keep: added = completed, in flight, ring contents |
| CopierInvariant.WorkerKeepsQueue | HW5/program.c:322-325 | Worker steps keep: added = completed, in flight, ring contents |
| CopierInvariant.TravKeepsOpen | HW5/program.c:238-253 | Traversal steps keep: the open descriptors are exactly those of tasks not yet closed |
| CopierInvariant.WorkerKeepsOpen | HW5/program.c:400-409 | Worker steps keep: the open descriptors are exactly those of tasks not yet closed |
| CopierInvariant.WorkerKeepsData | HW5/program.c:417-429 | Worker steps keep: completed files are fully written, the one in flight up to its position, and bytes agree |
| CopierInvariant.TravKeepsWake | HW5/program.c:389-395 | Traversal steps keep: if the ring holds a task, some worker is awake or a signal is due |
| CopierInvariant.WorkerKeepsWake | HW5/program.c:310-326 | Worker steps keep: if the ring holds a task, some worker is awake or a signal is due |
| CopierRefinement.TravKeepsRest | HW5/program.c:192-299 | No traversal step changes the outcome of finishing everything sequentially from the current state |
| CopierRefinement.VisitKeepsRest | HW5/program.c:192-241 | Entering a directory, leaving it or handling an entry does not change the sequential outcome |
| CopierRefinement.WorkerKeepsRest | HW5/program.c:307-329 | No step of a worker changes the outcome of finishing everything sequentially |
| CopierRefinement.MainKeepsRest | HW5/program.c:545-569 | No step of `main` changes it |
| CopierSafety.StepKeepsInv | HW5/program.c:171-329 | Every step of every thread, spurious wake-ups included, keeps the whole invariant |
| CopierSafety.RunKeepsInv | HW5/program.c:545-569 | The invariant holds in every state of every run |
| CopierTheorems.FinishedRunIsSequentialCopy | HW5/program.c:545-569 | For every interleaving, every pattern of failures and any spurious wake-ups: when `main` has joined all threads, destination and counters are those of one sequential recursive copy and no descriptor is open |
| CopierTheorems.FinishedRunShows | HW5/program.c:171-303 | Whatever fails and whatever was there before, a finished run shows at every destination path what the source entry there makes of it, and leaves every other path alone |
| CopierTheorems.FinishedRunCounts | HW5/program.c:577-582 | A finished run has counted the files opened, the directories joined and the FIFOs that could be made |
| CopierTheorems.FinishedRunReports | HW5/program.c:599-606 | Whatever fails, the printed histogram of a finished run has, for every kind, the number of opened files of that kind, FIFOs included for "fifo", and no line for any other kind |
| CopierErrors.PrintedAndOwed | HW5/program.c:179-434 | In every reachable state the error messages printed so far, the FIFOs made and what the program has still to report make up the troubles of the source tree |
| CopierErrors.EveryFailureReported | HW5/program.c:179-434 | In every finished run every failure has been reported exactly once: what could not be read, made or opened, files whose copying failed, FIFOs not made |
| CopierTheorems.FinishedRunMirrorsSource | HW5/program.c:171-303 | A finished run without failures shows the source tree at the destination and leaves every other path alone |
| CopierTheorems.FinishedRunCountsTree | HW5/program.c:229-298 | A finished run without failures has counted the tree's numbers of files, directories and FIFOs |
| CopierTheorems.ReportAddsUp | HW5/program.c:577-606 | In every finished run the printed histogram has one line per recorded kind and sums to regular files plus FIFOs, and `bytes_copied` is the size of all destinations |
| CopierTheorems.TableTallies | HW5/program.c:266 | In every reachable state the table that the run's recordings have built, one by one, has every kind with the number of entries recorded so far |
| CopierTheorems.FifoConservation | HW5/program.c:382-409 | In every reachable state tasks added = completed, then at most one in flight, then the ring contents, in the order of the files |
| CopierTheorems.TakesOldest | HW5/program.c:313-323 | Despite the racy read of `done` no task is taken from an empty ring, and the one taken is the oldest |
| CopierTheorems.LeavesLast | HW5/program.c:317-321 | Once a worker leaves, the ring is and stays empty and nothing is ever added again |
| CopierTheorems.OneOwner | HW5/program.c:238-268 | Every open descriptor has exactly one owner: the task in flight, one in the ring, one about to be queued, or the open in progress |
| CopierTheorems.ClosedExactlyOnce | HW5/program.c:252-253 | Every close finds its descriptor open, every open finds it closed, and copying only uses open ones |
| CopierTheorems.DescriptorBound | HW5/program.c:238-253 | At most twice the ring size of regular-file descriptors are open in any reachable state |
| CopierTheorems.ByteAccounting | HW5/program.c:413-436 | In every reachable state `bytes_copied` plus a write not yet counted is the length of all destinations, each a prefix of what its source's chunks write |
| CopierTermination.StepLowersRank | HW5/program.c:192-326 | Every step other than a spurious wake-up lowers the rank of remaining entries, tasks, bytes, wake-ups and program counters |
| CopierTermination.RunsAreFinite | HW5/program.c:545-569 | Every run without spurious wake-ups has at most a number of steps computed from the tree and the thread count |
| CopierProgress.StuckIffFinishedOrHung | HW5/program.c:310-321 | A reachable state has no enabled step if and only if the program has finished or hangs in its joins, with `done` set, the ring empty and every worker asleep or exited |
| CopierProgress.HungRunHasCopiedAll | HW5/program.c:565-569 | A run that hangs has the destination and counters of the sequential copy and no open descriptor |
| CopierProgress.FinishesUnlessMissed | HW5/program.c:562-565 | A run without spurious wake-ups that can go no further has finished if and only if no worker was between its test of `done` and its wait at the broadcast |
| CopierShutdown.ShutdownCanBeMissed | HW5/program.c:313-314 | As written, every source tree, number of workers and size of ring has a run without spurious wake-ups in which everything is copied and `main` then waits for ever for a worker that sleeps for ever |
| CopierShutdown.FinishesIffRepaired | HW5/program.c:562-565 | Every run that can go no further has finished, if and only if `done` is set under `buffer_mutex` |
| CopierShutdown.CanFinish | HW5/program.c:545-569 | Every source tree, number of workers and size of ring has a run without spurious wake-ups that finishes, as written and repaired |
| CopierProgress.RepairedAlwaysFinishes | HW5/program.c:562-565 | With `done` set under `buffer_mutex`, a run that can go no further has finished with the sequential copy's outcome |
| CopierThreads.StepKeepsChain | HW5/program.c:221-229 | Any step of any traversal thread, creations and joins included, keeps the live threads one chain of parents; a step of the working thread is a visit of the protocol's stack of directories, the other steps leave the stack alone |
| CopierThreads.ProtocolFrames | HW5/program.c:192-228 | The protocol's traversal step is that visit |
| CopierThreads.SingleRunner | HW5/program.c:266 | At most one traversal thread works at any time, also between a child's creation and its join, so the unlocked `get` and `insert` and the path buffers are never used by two threads at once |
| CopierThreads.RunIsStack | HW5/program.c:221-229 | Every schedule of the threads runs the single stack of directories that the protocol steps, and creations and joins do not show |
| CopierThreads.DirectoryNeverChanges | HW5/program.c:221-222 | The path a thread reads through its parent's buffer stays the same for as long as the thread lives |
| MirrorPaths.ComponentsJoin | Final_HW6/BibakBOXServer.c:123 | `dir/rel` names what `rel` names below `dir` |
| MirrorPaths.RemoveBasePathInto | Final_HW6/BibakBOXClient.c:50-77 | The prefix test, the copy and the in-place shift leave the relative path with one leading separator |
| MirrorPaths.ShiftRight | Final_HW6/BibakBOXClient.c:73-76 | The in-place move puts a separator in front of the unchanged string |
| MirrorPaths.RelativePath | Final_HW6/BibakBOXClient.c:50-77 | Below the base one separator of either kind is dropped and one put in front unless there is one; any other path only gets the separator in front |
| MirrorPaths.PathCarriesOver | Final_HW6/BibakBOXServer.c:94-103 | A file below the client's base names the same file below the server's base |
| MirrorPaths.PathStringCarriesOver | Final_HW6/BibakBOXServer.c:94-103 | The path strings agree as well, exactly if the relative part does not itself begin with a separator |
| MirrorTree.GetDirectoryContents | Final_HW6/BibakBOXServer.c:107-150 | The recursive loop lists every entry, each directory directly followed by everything below it |
| MirrorTree.PathArray.Add | Final_HW6/BibakBOXClient.c:486-504 | A string is appended and all earlier ones survive the doubling of the array |
| MirrorTree.Client.CreateSameDirectoryStructure | Final_HW6/BibakBOXClient.c:582-610 | The client's disk is the rebuild of the rebased list, and every file's path is noted in order, created or not |
| MirrorRoundTrip.FlattenedRebuilds | Final_HW6/BibakBOXClient.c:582-610 | Rebuilding from the flattened list never fails to find a parent and shows at every path the tree's entry there, elsewhere what was there before |
| MirrorRoundTrip.RebuildKeepsOld | Final_HW6/BibakBOXClient.c:582-610 | Whatever the list and the disk, an existing name keeps its kind, and its content unless it is listed as a file |
| MirrorRoundTrip.RebuildIsRooted | Final_HW6/BibakBOXClient.c:582-610 | Whatever is new has its parent directory |
| MirrorRoundTrip.RebasedList | Final_HW6/BibakBOXClient.c:588 | The client's rewritten list is the server's tree flattened below the client's directory |
| MirrorRoundTrip.OneBodyPerPath | Final_HW6/BibakBOXServer.c:176-177 | Exactly as many bodies are sent as the client has noted paths |
| MirrorRoundTrip.BodiesFill | Final_HW6/BibakBOXClient.c:510-541 | Storing the i-th body at the i-th noted path gives every file its own content and touches nothing else |
| MirrorRoundTrip.MirrorsServerTree | Final_HW6/BibakBOXClient.c:582-610 | List, rebuild and bodies together: the client's directory shows the server's tree with contents, the rest of its disk is unchanged |
| MirrorListing.RecordRoundTrip | Final_HW6/BibakBOXServer.c:163-170 | A fixed-size record gives back its path and file flag |
| MirrorListing.SendDirectoryContents | Final_HW6/BibakBOXServer.c:156-173 | The loop sends the count and every record in order |
| MirrorListing.ReceiveDirectoryContents | Final_HW6/BibakBOXClient.c:545-563 | The loop computes the list received, each record read onto whatever the allocated memory held, also after a short read |
| MirrorListing.ListInStepIffWhole | Final_HW6/BibakBOXClient.c:555-560 | Whatever the memory held, the stream is left just behind the list if and only if every read delivers a whole record, and then the client has the server's list |
| MirrorListing.EmptyList | Final_HW6/BibakBOXClient.c:545-553 | A count of 0 or below is an empty list; without a whole count the client waits |
| MirrorListing.TornRecord | Final_HW6/BibakBOXClient.c:555-560 | A record cut before its flag: path right, flag whatever the memory held, the real flag still on the wire, so that the list may even come out right |
| MirrorStream.DecodeEncodeInt | Final_HW6/BibakBOXServer.c:182 | Signed integers of any width survive the wire |
| MirrorStream.LittleEndian | Final_HW6/BibakBOXServer.c:182 | The least significant byte comes first |
| MirrorStream.SendFile | Final_HW6/BibakBOXServer.c:175-209 | The server sends, for the listed regular files in order, the size and the bytes |
| MirrorStream.SaveBody | Final_HW6/BibakBOXClient.c:527-535 | The receive loop takes what successive `recv`s of 1024 bytes deliver until the size is used up |
| MirrorStream.BodyReceived | Final_HW6/BibakBOXClient.c:527-535 | A body is received exactly and the stream left behind it if no `recv` crosses its end; otherwise it comes out too long |
| MirrorStream.BodyConserves | Final_HW6/BibakBOXClient.c:527-535 | Whatever is received, no byte is lost, invented or moved; for a size of 0 or below nothing is taken |
| MirrorStream.BodyWaits | Final_HW6/BibakBOXClient.c:527-535 | With too little on the wire all of it is taken and the receiver waits |
| MirrorStream.FilesArriveIffUncrossed | Final_HW6/BibakBOXClient.c:506-543 | All files arrive byte for byte if and only if each is smaller than 2^31 bytes and no `recv` crosses a file boundary; the stream is then left just behind them |
| MirrorStream.BackToBackFilesCanMix | Final_HW6/BibakBOXServer.c:207 | Without the pause between files a `recv` can cross the boundary |
| MirrorClear.ClearDirectory | Final_HW6/BibakBOXClient.c:450-484 | The recursive loop leaves the disk that the specification of clearing says, failed openings and deletions included |
| MirrorClear.OnlyFoundGoes | Final_HW6/BibakBOXClient.c:450-484 | Whatever fails, clearing removes nothing but what it found in the directory and changes nothing else |
| MirrorClear.ClearStops | Final_HW6/BibakBOXClient.c:472-478 | Nothing behind the first undeletable file of a directory is touched |
| MirrorClear.BehindUndeletable | Final_HW6/BibakBOXClient.c:472-478 | An entry at or behind an undeletable file stays, with everything below it |
| MirrorClear.BeforeUndeletable | Final_HW6/BibakBOXClient.c:450-484 | An entry before any undeletable file goes exactly if it can be removed; below it, if it opens, exactly those paths go that clearing it alone would remove, and otherwise none |
| MirrorClear.EmptiedIff | Final_HW6/BibakBOXClient.c:450-484 | The directory ends up empty on the disk if and only if every file in it can be deleted, every non-empty subdirectory opened, and there is nothing else in it |
| MirrorSession.ClearedHasRoom | Final_HW6/BibakBOXClient.c:633 | A directory in which everything can be removed has, once cleared, room for any tree |
| MirrorSession.ListedContentsAreBodies | Final_HW6/BibakBOXServer.c:175-209 | Walking the flat list sends the tree's files in the tree's order |
| MirrorSession.SaveFile | Final_HW6/BibakBOXClient.c:506-543 | The loop receives one body per noted path and stores it there, until the paths are done, the stream runs dry or a file cannot be opened |
| MirrorSession.StoreIsFill | Final_HW6/BibakBOXClient.c:510-541 | Storing bodies one by one as they come fills the i-th path with the i-th body received, and fails exactly if one of the files cannot be opened |
| MirrorSession.StoreEndsEarly | Final_HW6/BibakBOXClient.c:510-541 | A file that cannot be opened ends the client with the files before it stored; a missing size or part of a body makes it wait, with what has come stored |
| MirrorSession.SessionMirrors | Final_HW6/BibakBOXClient.c:633-684 | If everything in the client's directory can be removed, all records come whole and no `recv` crosses a file boundary, then clearing, list, rebuild and bodies leave the client's directory with the server's files, byte for byte, and its directories, nothing else in it, the rest of the disk as it was, and nothing on the wire; entries that are neither file nor directory become directories |
| MirrorCommands.CreatedDetected | Final_HW6/BibakBOXClient.c:136-175 | The sender appends exactly one CREATE frame with the relative path and the size |
| MirrorCommands.DeletedDetected | Final_HW6/BibakBOXClient.c:177-208 | The sender appends exactly one DELETE frame with the relative path |
| MirrorCommands.UpdateDetected | Final_HW6/BibakBOXClient.c:290-350 | The sender appends exactly one UPDATE frame with size, relative path and contents in 1024-byte pieces |
| MirrorCommands.SentInTurn | Final_HW6/BibakBOXClient.c:136-350 | Frames sent one after the other are the stream that the server's parser is proved about |
| MirrorCommands.WireFormat | Final_HW6/BibakBOXClient.c:136-350 | The bytes of each command: length and tag, an update's size, length and name, and the size or the contents |
| MirrorServer.Server.CreateFolderStructure | Final_HW6/BibakBOXServer.c:65-92 | The loop makes the missing directories of a path one by one and stops at the first that cannot be made |
| MirrorServer.FoldersMade | Final_HW6/BibakBOXServer.c:65-92 | It succeeds exactly if nothing but directories is in the way; then all directories of the path exist and nothing else has changed |
| MirrorServer.FoldersAsFar | Final_HW6/BibakBOXServer.c:65-92 | The directories are made down to the first place where something else is in the way, and nothing else changes |
| MirrorServer.Server.Create | Final_HW6/BibakBOXServer.c:316-338 | The file system half of a CREATE makes of the path what the specification says |
| MirrorServer.CreateMakes | Final_HW6/BibakBOXServer.c:316-338 | A created name becomes an empty file if it has a dot and a directory if not, the directories above are made, nothing else changes; it fails exactly if something of the wrong kind is in the way |
| MirrorServer.CreateFails | Final_HW6/BibakBOXServer.c:316-338 | A CREATE that fails has made the directories above the name as far as possible, and nothing else |
| MirrorCommands.RecvExactly | Final_HW6/BibakBOXServer.c:426-436 | The loop computes the read-until-complete of the parser |
| MirrorCommands.ExactlyTakesPrefix | Final_HW6/BibakBOXServer.c:426-436 | However the bytes trickle in, exactly the requested ones are taken |
| MirrorCommands.HandleCreate | Final_HW6/BibakBOXServer.c:285-342 | The handler computes the parser of a CREATE payload and its effect on the server's disk, and whether the server ends |
| MirrorCommands.HandleDelete | Final_HW6/BibakBOXServer.c:344-377 | The handler computes the parser of a DELETE payload and its effect on the server's disk |
| MirrorCommands.HandleUpdate | Final_HW6/BibakBOXServer.c:223-283 | The handler computes the parser of an UPDATE payload: the file is opened before its contents come, the server ends if it cannot be, and the bytes received are written |
| MirrorCommands.ServeCommands | Final_HW6/BibakBOXServer.c:404-463 | The server's loop computes the parse of the whole stream, command after command, with the disk each leaves, until it has to wait or a message length of -1 or a failing call ends it |
| MirrorCommands.CommandParsed | Final_HW6/BibakBOXServer.c:425-451 | A command that the server's disk does not admit ends the server; any other is carried out and the stream left just behind it exactly if its contents stay clear of what follows; if not, it is an update and its file gets other contents |
| MirrorCommands.CommandsRecoveredIff | Final_HW6/BibakBOXServer.c:402-464 | The server carries out the very sequence of commands sent, however tags and names are delivered, if and only if no update's contents run into the next command and its disk admits each; the stream is then used up and the disk is what the commands make of it |
| MirrorCommands.EndsAtFailure | Final_HW6/BibakBOXServer.c:402-464 | If the commands stay apart and one is not admitted, the server carries out those before it and ends there |
| MirrorCommands.CutFrameWaits | Final_HW6/BibakBOXServer.c:223-377 | However much of a frame is missing at its end, the command is not carried out and the server waits, its disk unchanged except that an update whose name has come has truncated its file and stored what has come of the contents |
| MirrorCommands.OtherMessages | Final_HW6/BibakBOXServer.c:416-451 | A message length of -1 ends the server; other lengths below 1, and messages that begin with no tag, are skipped |
| MirrorCommands.EmptyName | Final_HW6/BibakBOXServer.c:287-306 | A name length of 0 or below is an empty name, and the stream is left just behind it |
| MirrorCommands.TagIsEnough | Final_HW6/BibakBOXServer.c:443-451 | What stands behind a tag in its message is ignored |
| MirrorCommands.NamesAndTagsSuffice | Final_HW6/BibakBOXServer.c:285-377 | Without updates no delivery can make commands run into each other |
| MirrorCommands.UpdatesCanRunOn | Final_HW6/BibakBOXServer.c:270-278 | Any non-empty update of at most 1023 bytes runs into any command behind it on a network that delivers all it has |
| MirrorCommands.UpdateLands | Final_HW6/BibakBOXServer.c:259-280 | An update of a file below the client's directory gives the same file below the server's the client's contents and changes nothing else; it is possible exactly if the directory is there and the name is no directory, and otherwise changes nothing |
| MirrorCommands.DeleteLands | Final_HW6/BibakBOXServer.c:366-372 | A deletion removes a file at the same path below the server's directory, and a directory if nothing is below it; it leaves a directory that is not empty, a missing name and the root alone |
| MirrorCommands.CreateLandsAtTop | Final_HW6/BibakBOXServer.c:316-338 | A creation in the client's directory makes, in the server's, a file if the name has a dot and a directory if not |
| MirrorCommands.CreateLands | Final_HW6/BibakBOXServer.c:316-338 | The same in any directory below it, which is made if it is missing |
| MirrorDiff.FileTable.Save | Final_HW6/BibakBOXClient.c:79-122 | The recursive scan fills the table as specified, with the break that ends the innermost loop only |
| MirrorDiff.ScanIsPrefix | Final_HW6/BibakBOXClient.c:79-122 | A scan yields the first 100 files of the depth-first order |
| MirrorDiff.FileIsListed | Final_HW6/BibakBOXClient.c:79-122 | Every file of the directory, or of a directory below it that opens, is in the depth-first order, with its path and time |
| MirrorDiff.ListedIsFile | Final_HW6/BibakBOXClient.c:79-122 | Nothing else is |
| MirrorDiff.PathsDistinct | Final_HW6/BibakBOXClient.c:97 | The paths of a scan are distinct |
| MirrorDiff.FindMissing | Final_HW6/BibakBOXClient.c:221-230 | The nested loops find the first path of one table that the other lacks |
| MirrorDiff.CheckDelete | Final_HW6/BibakBOXClient.c:210-232 | The path reported as deleted is the detection of the snapshot against a fresh scan |
| MirrorDiff.CheckCreate | Final_HW6/BibakBOXClient.c:243-262 | The path reported as created is the detection of a fresh scan against the snapshot |
| MirrorDiff.DetectedIff | Final_HW6/BibakBOXClient.c:215-238 | By pigeonhole a path is reported if and only if the number of files went the right way, and it is the first one missing |
| MirrorDiff.DeletionIsReal | Final_HW6/BibakBOXClient.c:210-241 | The path reported as deleted was a file before and is none now, although both scans stop at 100 files |
| MirrorDiff.CreationIsReal | Final_HW6/BibakBOXClient.c:243-273 | The path reported as created is a file now and was none before, although both scans stop at 100 files |
| ShellPipeline.Process.CreatePipes | HW2/terminal.c:113-117 | The loop adds the two ends of every pipe to the shell's descriptors |
| ShellPipeline.Process.Wire | HW2/terminal.c:142-169 | Loop and branches of a child perform exactly its sequence of closes and `dup2`s |
| ShellPipeline.Process.CloseAll | HW2/terminal.c:256-259 | The shell's loop closes both ends of every pipe |
| ShellPipeline.ChildIsWired | HW2/terminal.c:142-169 | A child ends up with the shell's own descriptors, standard input reading from the pipe before it and standard output writing to the pipe behind it, and nothing else |
| ShellPipeline.ParentIsClean | HW2/terminal.c:256-259 | The shell ends up with its own descriptors only |
| ShellPipeline.RunKeepsInv | HW2/terminal.c:121-123 | In every interleaving each process holds what its own calls so far leave of the shell's descriptors |
| ShellPipeline.WiringIsExact | HW2/terminal.c:111-169 | For every number of commands and every interleaving, once the wiring is done the only holder of a pipe's write end is the standard output of the command before it, the only holder of its read end the standard input of the command behind it |
| ShellPipeline.EofIffWriterExited | HW2/terminal.c:256-259 | Then a pipe has no writer left exactly when the command before it has ended |
| ShellPipeline.NoEarlyEof | HW2/terminal.c:121-169 | In every reachable state, wiring done or not, a pipe's write end is open somewhere unless the command before it has ended, and its read end unless the command behind it has |
| ShellPipeline.WiringProceeds | HW2/terminal.c:121-169 | Until the wiring is complete some process has a call to make |
| AppendRace.OpenFile.WriteBytes | HW1/appendMeMore.c:24-47 | Alone, a process appends its count of bytes, or those before the first failing call, and returns the code for it |
| AppendRace.StepKeepsInv | HW1/appendMeMore.c:24-39 | Any call of any process keeps the original contents, leaves no gap, and keeps the size between the bytes appended and all bytes written |
| AppendRace.AppendsAddUp | HW1/appendMeMore.c:12-15 | If all append, at any moment of any interleaving the file is the original followed by exactly the bytes written, in the end by all counts together |
| AppendRace.MixedBounds | HW1/appendMeMore.c:24-39 | In any mixture the file ends with at least the appended bytes added and at least any single seeking count, and at most all counts together; its original contents stay |
| AppendRace.BytesCanBeLost | HW1/appendMeMore.c:27-35 | For every mixture of processes some interleaving ends at the lower bound exactly: the appended bytes or the largest seeking count, whichever are more |
| AppendRace.NothingNeedBeLost | HW1/appendMeMore.c:24-39 | For every mixture some interleaving ends at the upper bound: nothing is lost |
| AppendRace.SureIffBoundsMeet | HW1/appendMeMore.c:24-39 | No interleaving loses anything if and only if the two bounds are equal |
| AppendRace.KeepsAllIffHarmless | HW1/appendMeMore.c:12-39 | No interleaving loses anything if and only if no process that writes anything seeks, or only one process writes anything |
| AdmissionQueue.Queue.Enqueue | Midterm_HW3/biboServer.c:55-65 | The client is appended, or the queue unchanged when the last position has been used |
| AdmissionQueue.Queue.Dequeue | Midterm_HW3/biboServer.c:67-79 | The oldest client is removed and returned, -1 if there is none |
| AdmissionQueue.AlwaysFifoIffFits | Midterm_HW3/biboServer.c:42-79 | Over any operations the array is an unlimited FIFO if and only if never more than 1024 clients are enqueued between two moments at which the queue is empty |
| AdmissionQueue.FirstMisfit | Midterm_HW3/biboServer.c:47-59 | The first client beyond that is lost, however many of the others have already left |
| AdmissionQueue.RefusedWith | Midterm_HW3/biboServer.c:47-59 | Any number of waiting clients from 1 to 1024 is possible at a refusal |
| AdmissionServer.Server.AddClient | Midterm_HW3/biboServer.c:373-381 | The first free slot is taken, or nothing changed if there is none |
| AdmissionServer.Server.RemoveClient | Midterm_HW3/biboServer.c:383-389 | The client's first slot comes free, or nothing changes if it has none |
| AdmissionServer.StepSlots | Midterm_HW3/biboServer.c:557-604 | A request takes the first free slot for its client, whatever its mode; a disconnected client's first slot comes free; nothing else changes a slot |
| AdmissionServer.FreeSlotsAddUp | Midterm_HW3/biboServer.c:373-389 | In every run the free slots are all of them, less those taken by requests that found one, plus those given back |
| AdmissionServer.RequestAnswered | Midterm_HW3/biboServer.c:566-588 | A request is answered 2 and gets a process if there is a free slot or its mode is neither 0 nor 1; otherwise mode 0 is answered 0, and mode 1 is answered 1 and queued last or, behind position 1023, refused |
| AdmissionServer.LongestWaitingServed | Midterm_HW3/biboServer.c:557-560 | With somebody waiting and a slot counted as empty, the client that has waited longest is told 2 and gets a process, and no request is read |
| AdmissionServer.Server.HandleRequest | Midterm_HW3/biboServer.c:566-588 | A request is answered by mode and free slots, with the same messages, queue and slots, and the round goes on to the fork for the same client or is cut short |
| AdmissionServer.Server.Serve | Midterm_HW3/biboServer.c:555-613 | The main loop computes the run of its rounds |
| AdmissionServer.RunKeepsClientInv | Midterm_HW3/biboServer.c:555-613 | In every run a client that has asked at most once is in one of the listed situations, and at most once in the queue |
| AdmissionServer.ClientIsTold | Midterm_HW3/biboServer.c:572-587 | In every run a mode-0 client that asks once is told exactly [0] or [2], a mode-1 client [2], [1] or [1, 2], and it stays at [1] exactly as long as it waits or if the queue refused it |
| AdmissionServer.RefusedForEver | Midterm_HW3/biboServer.c:579-583 | A client refused by the queue has been told 1 and is never told anything else |
| AdmissionServer.ClientsCanBeLost | Midterm_HW3/biboServer.c:56-59 | For every number of slots, the client after those in the slots and 1024 waiting ones is told 1 and lost, whatever happens later |
| AdmissionServer.RunIsQueue | Midterm_HW3/biboServer.c:555-613 | In every run the server's queue is the array queue after the operations of the run |
| AdmissionServer.NobodyLostIffFits | Midterm_HW3/biboServer.c:555-588 | In every run no client is refused by the queue if and only if never more than 1024 clients are queued between two moments at which nobody waits |
| AdmissionServer.OneProcessPerAdmission | Midterm_HW3/biboServer.c:596-602 | In every run exactly one process is started per 2 sent, in the same order |
| AdmissionServer.RoundStartsConnected | Midterm_HW3/biboServer.c:557-602 | Wherever a round has sent 2, at its end it starts one process, for that client, and otherwise none |
| AdmissionServer.ServedInOrder | Midterm_HW3/biboServer.c:557-560 | If no client asks twice, the clients accepted by the queue are, in order, those told 2 after 1 followed by those still waiting |

## Left out

Directory copier:

- A ring of one slot: its test at line 385 is always true, so `add_task_to_buffer` never returns; the protocol assumes two slots and `CopierRing.OneSlotIsAlwaysFull` states the boundary.
- `Task.filename` points into a reused stack buffer and appears only in error messages.
- `copy_file` is never called; `tasks_completed` and `LOAD_FACTOR` are unused.
- Failing `pthread_create` of the root or of a worker, and the choice of the destination directory in `main`: the destination root is an argument.
- A signal wakes exactly one sleeper; that POSIX may wake more is covered by the spurious wake-ups, which the termination bound excludes.
- Descriptor numbers are not reused in the model, and `malloc` and paths longer than 1023 bytes are not modelled.
- CopierTree.CopyKeepsInodes: every open gives a new inode. A second open of the same path would truncate the first copy, which needs a directory that lists a name twice; `CopierTree.OpenedOnce` excludes it otherwise.
- Counters are unbounded; the source's are `int`. Source and destination trees are disjoint and the source does not change.
- The handler for interrupts, timing and the text of what is printed.

Mirroring:

- Directories the server cannot open and entries it cannot `stat` are not part of its tree.
- MirrorStream.RecvInt: integers are delivered whole, as the programs assume.
- MirrorSession.SaveFile: a stream that runs dry blocks the receiver; a peer that closes the connection, which makes `recv` return 0 for ever, is not modelled.
- MirrorListing.ReceiveDirectoryContents: each allocation holds arbitrary bytes, and a path without a terminator in its field is read to the end of the field; the source would read on beyond it.
- MirrorCommands.HandleCreate: the name ends where its length says. The source does not terminate it here and in the handler of deletions, so what `strcat` reads behind it is up to the allocator; nor are its 256-byte path buffers modelled.
- MirrorCommands.ServeCommands: message lengths that no sender produces, below -1 or beyond the 1024-byte buffer. The former are skipped, as in the source; the latter are read, where the source would overrun its buffer.
- MirrorServer.Server.CreateFolderStructure: `mkdir` fails only if the directory above is missing or no directory.
- MirrorClear.ClearDirectory: the directory itself can be opened; below it any opening or deletion may fail.
- MirrorDiff.CheckDelete: detection only; the refresh of the snapshot is left out.
- MirrorDiff.CheckCreate: detection only; its refresh assigns a parameter that shadows the global table, so no claim about later polls is made.
- `check_update` and `remove_file_from_path`, the handover of the server's base path (taken as absolute), sleeps, connections and threads of the server.
- Files that disappear between the listing and their sending.

Shell:

- Parsing, `trim`, redirections to files, log files and `exec`; a failing `fork`, `pipe` or `dup2`; more than 20 commands.

Append:

- The argument handling of `main`, failing `open` and `close`.

Admission:

- The bound on clients served at once: the dequeuing branch takes no slot and `quit` does not restore the count, so the program does not keep it.
- AdmissionServer.Server.Serve: the count of empty slots and the release of slots are arbitrary inputs, which covers every behaviour of the clients' processes but says nothing about how many there are.
- A failing `fork` or a client whose FIFO cannot be opened ends the server.
- `biboClient.c`, the command handlers, signals and shared-memory set-up.
