# Verified model of the I/O motifs

This project models the concurrent, stateful and arithmetic core of the I/O motif benchmark and proves
what a whole run of it guarantees. `dafny verify dfyconfig.toml` checks everything.

| file | what it models |
|---|---|
| Common.dfy | shared types |
| Arith.dfy | ring indices modulo n, sums over processes |
| Clock.dfy | time differences and the order of traced operations |
| TraceEntries.dfy, TraceRing.dfy | the trace ring and its two threads as an interleaved step system, with its invariant |
| TraceTheorems.dfy | safety, the content of the file at exit, wake-ups and termination of the flush thread |
| TraceThreads.dfy | the same steps on the shared structure, updated in place, and whole calls and runs made of them |
| Barrier.dfy | the semaphore barrier for n processes, one step per semaphore operation, and its structure in place |
| Prng.dfy, Orbits.dfy, Xorshift.dfy | the generator interface, the counter, the xorwow generator and its cycles |
| Sample.dfy | sample objects: generating, reading and checking a byte buffer |
| Naming.dfy, Scanning.dfy | object names and paths, formatted and scanned, and which names the scan accepts |
| FileTree.dfy, Stores.dfy, Cleanup.dfy | directories and files, the two file drivers, the recursive removal of a workspace |
| Motif.dfy, MotifTheorems.dfy | many workers on the flat store, for any interleaving, with any generator |
| MotifTree.dfy | the same over the directory tree, one step per file system call, as a refinement of the flat store |
| MotifSteps.dfy | what single steps of these runs store, read and make |
| MotifTrace.dfy | what the trace files of such a run hold: the ring fed with the operations of a worker |
| Workspace.dfy | removing the workspace after such a run |
| RunMotif.dfy | one worker's run with its loops, on the objects of the modules above |
| XorshiftWalk.dfy, XorshiftSeed.dfy | the xorwow generator from one seed, up to the first identifier |
| XorshiftMotif.dfy | runs with the xorwow generator whose read phase rejects a good object |

How the code is represented:

- A concurrent part is a state, a deterministic step for each label or process, and schedules: a schedule is a
  sequence of labels, and a theorem about "every run" quantifies over all schedules. Critical sections, single
  stores into a ring slot, single copied records, semaphore operations and file system calls are single steps.
- The ring has n slots and requests a flush at multiples of b, with 0 < b < n; the code has n = 65536 and b = 204.
  Indices and lengths wrap modulo n, as uint16_t does in the code.
- The producer never looks at the backlog, so the ring theorems assume of the environment that the backlog stays
  below n when a record is completed. No other assumption is made on the schedule.
- A generator is a table of functions, as in the code; a generator is *faithful* when seeding it with what peek
  shows restores its state. PRNG_DEBUG is faithful. PRNG_XORSHIFT is not: its peek returns the last output although
  include/prng.h:28 promises the next one, and its state is restored exactly when it has just been seeded.
- XorshiftMotif.dfy has rejected objects for seed 169, which the option parser accepts (motif_1.c:142-145), and for
  seed 0, which a worker's clock can give (motif_1.c:290-296). The exact condition for all seeds and generators is
  `ValidIff`; `RestoredReadsBack` and `SeededReadsBack` say which objects always pass.
- The comment at utils/barrier.c:56 speaks of the barrier's next use. The turnstile keeps a token after a round, and
  a round that starts with a token is safe only for one process; the code uses each barrier for one round.
- trace_fini can take EXIT when nothing is left to flush. Away from the seam of the ring the file then also gets all
  n slots. `ExactIff` says for which numbers of records that can happen.

## Main results

- Trace ring, every schedule: `ProducerCanGo`, `ReachableIsSafe`, `FileHoldsCalls`, `FlushIsUnambiguous`, `NoLostWakeup`, `ExitTerminates`, and `ExactIff`
  for what the file holds at exit; `TraceAll` for the structure updated in place.
- Barrier, every schedule and any number of processes: `BarrierSafety`, `BarrierProgress`, `SafeRoundIff`.
- Motif, every interleaving of any number of workers: `VerdictsCompareBytes`, `StoreAtEnd`, `ReadsValidate`, `ValidIff`,
  `EveryRunCompletes`, `DebugNeverRefused`; over the directory tree `TreeRefinesFlat`, `TreeAtEnd` and
  `MakesDirectory`.
- Motif, ring and cleanup together: `TracesExactIff`, `DebugTracesExactIff`, `DestroyAfterRun`.
- Generators: `DebugCounts`, `EveryStateIsOnACycle`, `RestoresIffSeeded`, `XorshiftIsNotAlwaysValid`.
- Sequential code: `Sample.SampleCell.Check`, `ContentBytes`, `PathShows`, `AcceptedIff`, `Rmdir`, `DeltaMeaning`, `Run`.

## Model

| member | source | states |
|---|---|---|
| Clock.TimeDelta | utils/time.c:23-35 | the borrow loop ends and leaves the specified difference, also when delta is one of the operands |
| Clock.DeltaMeaning | utils/time.c:23-35 | the total of nanoseconds is conserved for all inputs; the result is normalised exactly when the nanosecond difference is below a second, and then unique |
| Clock.TracedInOrder | storage/storage_debug.c:184-187 | with a clock that never goes back, start plus duration of a traced operation is at most the start of any later one |
| Clock.TracedSpan | storage/storage_debug.c:184-187 | the traced start and duration add up to the end of the operation, counted from the start of the benchmark |
| TraceEntries.StoreAdvances | utils/trace.c:159-169 | each store into a slot keeps what the earlier ones established, whatever the slot held |
| TraceEntries.StoredIsAsked | utils/trace.c:159-169 | a filled slot reads back as the operation, times and first seven tag characters of the call, with stale tag bytes ignored |
| TraceEntries.DecodedHolds | utils/trace.c:159-169 | a slot that reads back as a call's record has its fields, its first seven tag characters, and a zero after a shorter tag |
| TraceEntries.ReadsBackAsPassed | test/test_trace.c:39 | operation and times read back as passed, a tag of up to seven characters whole and a longer one as its first seven |
| TraceRing.InvInit | utils/trace.c:97-100 | trace_init establishes the ring invariant over a buffer of any contents |
| TraceRing.StoreKeepsContent | utils/trace.c:152-169 | filling a slot disturbs no record that is still to be copied |
| TraceRing.BeginSegments | utils/trace.c:222-250 | from aligned markers the first segment and the rest add up to the records taken, or to a whole ring for an empty backlog away from the seam |
| TraceRing.StepKeepsInv | utils/trace.c:149-273 | every step of either thread keeps the ring invariant |
| TraceRing.RunKeepsInv | utils/trace.c:149-273 | the ring invariant holds after every schedule |
| TraceTheorems.SlotsLeftAreNext | utils/trace.c:222-259 | while a request is served, the slots still to be copied are the next positions of the file, in cyclic order |
| TraceTheorems.ProducerCanGo | utils/trace.c:115-179 | the producer is never held up: EXIT and each call can begin whatever the flush thread does, FLUSH can be posted after each trigger, and only completing a record needs room in the ring |
| TraceTheorems.FlushThreadCanGo | utils/trace.c:194-271 | the flush thread has its next step to take wherever it is, unless it sleeps or has ended |
| TraceTheorems.SleepAndWake | utils/trace.c:200-215 | it sleeps exactly when it finds no request, a posted request carries the newest marker and wakes it, and a request is taken with the markers of that moment |
| TraceTheorems.LogIsCalls | utils/trace.c:149-182 | the records asked for are those of the calls in the schedule, in order |
| TraceTheorems.FileHoldsCalls | utils/trace.c:152-259 | in every reachable state the file, and after it the uncopied slots, hold the calls of the schedule byte for byte |
| TraceTheorems.ReachableIsSafe | utils/trace.c:152-259 | in every reachable state without an EXIT on an empty backlog the file is a prefix of what was traced, uncopied slots hold their records, and the slot being filled is neither pending nor about to be copied |
| TraceTheorems.SegmentsAreSlice | utils/trace.c:222-247 | one or two segments in bounds are a cyclic slice of the ring |
| TraceTheorems.FlushArithmetic | utils/trace.c:222-259 | for every pair of markers the segments are the cyclic slice between them, none at the seam and the whole ring elsewhere when they are equal, and the marker updates end at the flush marker |
| TraceTheorems.TriggerSpacing | utils/trace.c:171-179 | after each call exactly the records since the last trigger are unrequested, fewer than b, also before the seam |
| TraceTheorems.FlushIsUnambiguous | utils/trace.c:200-211 | a FLUSH pending or taken covers at least one record and less than a lap, so its markers differ |
| TraceTheorems.FileAtExit | utils/trace.c:115-131 | at exit the file is what was traced, followed by the n slots in cyclic order exactly when EXIT was taken on an empty backlog away from the seam |
| TraceTheorems.Drain | utils/trace.c:234-267 | from any point of a flush the flush thread alone reaches the end of the request |
| TraceTheorems.ExactIff | utils/trace.c:115-131 | the file is exact in every interleaving if and only if the record count modulo n is zero or not a multiple of b |
| TraceTheorems.ExactIffInCode | utils/trace.c:28-59 | the same for the sizes in the code, 65536 slots and 204 records |
| TraceTheorems.ExactPossible | utils/trace.c:115-131 | every sequence of calls also has a complete run with an exact file |
| TraceTheorems.NoLostWakeup | utils/trace.c:200-215 | the flush thread sleeps only when nothing is pending, EXIT is never dropped, merged requests keep the newest marker, and the flush thread can otherwise always step |
| TraceTheorems.ExitTerminates | utils/trace.c:262-266 | once EXIT is posted every continuation has at most 2n + 12 steps, and a finished one without a failed write has exited |
| TraceThreads.TraceInfo.ClaimSlot | utils/trace.c:152-155 | reserving a slot in place is the specified step |
| TraceThreads.TraceInfo.StoreNextField | utils/trace.c:159-172 | each store, and the trigger test after the last one, is the specified step |
| TraceThreads.TraceInfo.RequestFlush | utils/trace.c:174-178 | posting FLUSH is the specified step |
| TraceThreads.TraceInfo.RequestExit | utils/trace.c:120-125 | posting EXIT is the specified step |
| TraceThreads.TraceInfo.TakeRequest | utils/trace.c:200-215 | the flush thread's locked section is the specified step |
| TraceThreads.TraceInfo.FirstSegment | utils/trace.c:222-250 | computing the first segment is the specified step |
| TraceThreads.TraceInfo.WriteRecord | utils/trace.c:254-255 | copying one record is the specified step |
| TraceThreads.TraceInfo.SecondSegment | utils/trace.c:243-250 | starting the second segment is the specified step |
| TraceThreads.TraceInfo.EndRequest | utils/trace.c:262-267 | ending a request is the specified step |
| TraceThreads.TraceInfo.WriteSegment | utils/trace.c:234-238 | writing a segment appends exactly its slots to the file |
| TraceThreads.TraceInfo.WriteBothSegments | utils/trace.c:234-259 | the one or two writes append the slots left, in order |
| TraceThreads.TraceInfo.ServeRequest | utils/trace.c:200-267 | an uninterrupted request appends the cyclic slice between the markers, leaves them equal and keeps the ring invariant |
| TraceThreads.TraceInfo.Trace | utils/trace.c:149-182 | a whole call in place keeps the ring invariant, adds the record asked for, and posts FLUSH and wakes the flush thread exactly at a trigger |
| TraceThreads.TraceInfo.TraceAll | utils/trace.c:115-182 | in place, any calls with each request served before the next one, and trace_fini: the file holds the records asked for, and n more slots exactly when the count ends on a trigger away from the seam |
| Barrier.StepKeepsInv | utils/barrier.c:50-67 | every operation of any process keeps the barrier invariant |
| Barrier.RunKeepsInv | utils/barrier.c:50-67 | in every schedule of a round each step uses up exactly one of 5n + 1 operations |
| Barrier.WhoCanGo | utils/barrier.c:50-67 | in every reachable state any process can arrive when none is inside the mutex, any can take the turnstile when all have arrived and none carries its token, and all others can move until through |
| Barrier.BarrierSafety | utils/barrier.c:50-67 | nobody is past the barrier semaphore before all n have counted themselves, one process signals, and the turnstile's tokens total none before and one after the last arrival |
| Barrier.StuckIsFinal | utils/barrier.c:50-67 | a state of the round in which no process can step has all of them through, count 0, mutex 1 and turnstile 1 |
| Barrier.BarrierProgress | utils/barrier.c:50-67 | a schedule is maximal if and only if it has 5n + 1 steps, and it then lets all n processes through |
| Barrier.SafeRoundIff | utils/barrier.c:56 | a round is safe if and only if the turnstile starts without tokens or there is one process, so the barrier is not reusable |
| Barrier.EarlyPassage | utils/barrier.c:65-66 | with a token left over, a process passes while another has not arrived |
| Barrier.BarrierCell.Advance | utils/barrier.c:50-67 | each operation on the shared structure is the specified step |
| Barrier.BarrierCell.Round | utils/barrier.c:50-67 | in place, under a scheduler that lets any process go on that can, the round ends with all through, count 0, mutex 1 and turnstile 1 |
| Prng.Replay | prng/prng.c:54-68 | seeding again replays the output sequence, for any driver, state and number of draws |
| Prng.StreamNext | prng/prng.c:65-68 | drawing once and then k times gives the outputs and the state of k + 1 draws |
| Prng.DebugCounts | prng/prng_debug.c:20-56 | from a seed the outputs are seed, seed + 1 and so on modulo 2^32, and peek shows the next one |
| Prng.DebugIsFaithful | prng/prng_debug.c:20-56 | for PRNG_DEBUG seeding with peek leaves every state unchanged |
| Prng.DebugAfter | prng/prng_debug.c:47-50 | k draws add k modulo 2^32 |
| Xorshift.StepIsBijective | prng/prng_xorshift.c:63-87 | the step on the five state words has an explicit inverse, on both sides |
| Xorshift.EveryStateIsOnACycle | prng/prng_xorshift.c:63-87 | every state comes back, and only after a multiple of 2^32 steps |
| Xorshift.NeverZero | prng/prng_xorshift.c:26-39 | in every run the first four words are all zero exactly when the seed was zero |
| Xorshift.SeededIsRotated | prng/prng_xorshift.c:26-39 | the words of a seed are the seed rotated left by 6, 12, 18, 24 and 30 bits, and peek shows the seed |
| Xorshift.PeekShowsLast | prng/prng_xorshift.c:90-93 | after a draw peek shows its output |
| Xorshift.RestoresIffSeeded | prng/prng_xorshift.c:90-93 | seeding with peek restores a state if and only if it is the image of a seed |
| Xorshift.NotFaithful | prng/prng_xorshift.c:90-93 | one draw can leave those states |
| Xorshift.XorshiftCell.Init | prng/prng_xorshift.c:26-39 | seeding the array in place |
| Xorshift.XorshiftCell.Next | prng/prng_xorshift.c:63-87 | the in-place shuffle is the specified step and returns its output |
| Orbits.ReturnsToStart | prng/prng_xorshift.c:63-87 | an injective map on a finite set brings every element back within the size of the set |
| Sample.SampleCell.Create | sample/sample_debug.c:114-132 | creating a sample generates a first one |
| Sample.BytesAddUp | sample/sample_debug.c:47-48 | the four bytes of a word weigh 1, 2^8, 2^16 and 2^24 in it |
| Sample.ContentBytes | sample/sample_debug.c:20-55 | for any generator the first output modulo 768, plus 768, is the length, each byte is the stated byte of the stated output, and the state moves on by one draw and one for each started word |
| Sample.DebugContent | sample/sample_debug.c:20-55 | the same in closed form for PRNG_DEBUG |
| Sample.SampleCell.Init | sample/sample_debug.c:39-55 | the length is that of the first output, byte i is byte i % 4 of the output after i / 4 further ones, least significant first, and the PRNG is where it should be |
| Sample.SampleCell.Read | sample/sample_debug.c:57-62 | the buffer holds the bytes read, and what lies beyond them is untouched |
| Sample.SampleCell.CheckWord | sample/sample_debug.c:78-86 | comparing a word is comparing its four bytes |
| Sample.SampleCell.CheckWords | sample/sample_debug.c:78-86 | the loop accepts exactly the generated whole words |
| Sample.SampleCell.CheckRemainder | sample/sample_debug.c:91-103 | the final comparison accepts exactly the generated remaining bytes |
| Sample.SampleCell.Check | sample/sample_debug.c:65-106 | for any generator the check is true exactly when length and bytes are what generating from this state gives, and the PRNG then ends in the same state |
| Naming.HexDigits | storage/storage_dirtree.c:36-38 | a number below 16^w prints as exactly w digits that stand for it |
| Naming.HexCharacters | storage/storage_dirtree.c:36-38 | each character is the one of its digit, in upper or lower case as the format says |
| Naming.PathShows | storage/storage_dirtree.c:34-58 | the components of a path show the low half of the client, its high half, the high half of the object, and both identifiers in full |
| Naming.FlatNameShows | storage/storage_debug.c:160-161 | a flat name shows client and object in eight lower-case digits each, with a dash between them |
| Naming.ScanObjectName | storage/storage_dirtree.c:149 | the scan with "%08X-%08X" accepts every name either driver makes and recovers both identifiers |
| Scanning.AcceptedIff | storage/storage_dirtree.c:149 | the scan accepts exactly the names made of a complete field, a dash and the beginning of a second field, with white space before either or none; any other one is rejected |
| Naming.NamesDiffer | storage/storage_dirtree.c:34-40 | different objects have different names and different paths |
| Naming.NameLengths | storage/storage_debug.c:160-161 | names have 17 characters and directories 4, so they fit their buffers |
| FileTree.MkdirMakes | storage/storage_dirtree.c:46-56 | each mkdir leaves its directory in place, whoever made it, and keeps the tree's shape |
| FileTree.CreateIffAbsent | storage/storage_dirtree.c:221-228 | a create is possible exactly when the directories exist and the object is not stored |
| FileTree.WriteAgrees | storage/storage_dirtree.c:235-236 | writing one object's file changes that object alone |
| Stores.FlatStore.Write | storage/storage_debug.c:157-190 | the write succeeds exactly when the object is absent, and stores the sample under it and nothing else |
| Stores.FlatStore.Read | storage/storage_debug.c:193-239 | the read returns the bytes stored, and leaves the sample alone when there are none |
| Stores.FlatStore.Destroy | storage/storage_debug.c:97-147 | it aborts exactly when some file name does not scan, and otherwise removes every file |
| Stores.TreeStore.MakePath | storage/storage_dirtree.c:42-58 | the three directories of the path are added, those that are missing, and nothing else changes |
| Stores.TreeStore.OpenWithPath | storage/storage_dirtree.c:221-233 | open, make the path and open again succeeds exactly when the object is absent, and makes directories only when the first open fails |
| Stores.TreeStore.Write | storage/storage_dirtree.c:214-254 | the same promise as the flat driver's write |
| Stores.TreeStore.Read | storage/storage_dirtree.c:257-303 | the same promise as the flat driver's read |
| Cleanup.EntriesCover | storage/storage_dirtree.c:126-130 | everything below a directory lies below one of its entries |
| Cleanup.RemovesOnlyEmpty | storage/storage_dirtree.c:167 | rmdir removes a directory exactly when nothing lies below it |
| Cleanup.RemoveDirRemoves | storage/storage_dirtree.c:163-167 | an emptied directory can be removed, and its whole subtree is then gone |
| Cleanup.FileSystem.Rmdir | storage/storage_dirtree.c:123-172 | the recursion ends, aborts exactly when a file name below does not scan, and otherwise empties the directory, keeps all else and restores the working directory |
| Cleanup.FileSystem.RemoveEntry | storage/storage_dirtree.c:145-168 | one entry goes with all below it, or the name check aborts |
| Cleanup.FileSystem.Destroy | storage/storage_dirtree.c:175-205 | the workspace and all below it are gone and the rest is as it was, unless a file name does not scan |
| Workspace.MountedIsWellFormed | storage/storage_dirtree.c:123-172 | hanging the drivers' tree in at the workspace leaves a well-formed file system |
| Workspace.Mount | storage/storage_dirtree.c:68-91 | wherever the workspace directory can be made, a drivers' tree can be hung in |
| Workspace.DestroyAfterRun | storage/storage_dirtree.c:175-205 | after any run of any number of workers the removal of the workspace does not abort, and leaves nothing of it and all else as it was |
| Motif.FillsWithKept | motif_1.c:325-330 | what a worker writes is what its object is to keep, the bytes of the first write that used the identifier |
| Motif.RefusedIffSettled | storage/storage_debug.c:164-169 | an exclusive create is refused exactly when the worker has used the identifier before |
| Motif.StepKeepsInv | motif_1.c:325-350 | every step of any worker keeps the invariant over workers and store |
| Motif.RunKeepsInv | motif_1.c:325-350 | the invariant holds after every interleaving |
| MotifTheorems.VerdictsAreDetermined | motif_1.c:341-350 | every check comes out as the generator alone decides, in every interleaving and for any generator |
| MotifTheorems.VerdictsCompareBytes | motif_1.c:341-350 | in every interleaving and for any generator a check passes exactly when the bytes generated at the first write with the identifier are those generated from the identifier |
| MotifTheorems.RestoredReadsBack | motif_1.c:327-346 | an object reads back whenever peek restores the state it was generated from, for any generator |
| MotifTheorems.FaithfulReadsBack | motif_1.c:327-346 | a faithful generator keeps under an identifier what the identifier generates |
| MotifTheorems.ReadsValidate | motif_1.c:325-350 | with a faithful generator every read validates and every filled object holds what its identifier generates, also after repeats and refusals |
| MotifTheorems.DebugReadsValidate | motif_1.c:325-350 | with PRNG_DEBUG every read validates, for any number of workers, seeds and positive counts |
| MotifTheorems.RefusedAreRepeats | motif_1.c:325-330 | the creates refused are as many as the identifiers that repeat an earlier one of the worker |
| MotifTheorems.EveryRunCompletes | motif_1.c:325-350 | every schedule is bounded, and one that cannot go on has written all objects and done all checks |
| MotifTheorems.SomeRunCompletes | motif_1.c:325-350 | up to 2^32 workers with any positive write count and any read count have a run that completes |
| MotifTheorems.AnyoneCanGo | motif_1.c:325-350 | in every reachable state each worker that has not finished can take its next step, whatever the others do |
| MotifTheorems.StoreAtEnd | motif_1.c:325-330 | in every interleaving the store ends with one object for each identifier of each worker and no other, with the bytes generated at the first write that used it |
| MotifTheorems.RepeatsAreTheRest | motif_1.c:325-330 | repeats and different identifiers add up to all |
| MotifTheorems.ValidIff | motif_1.c:325-350 | all checks pass in all interleavings if and only if each object read back is one the generator makes again from its identifier |
| MotifTheorems.ValidIffBytes | motif_1.c:325-350 | the same with that condition written out on generated bytes |
| MotifTheorems.DebugIdsSpaced | motif_1.c:325-330 | under PRNG_DEBUG identifiers move on by 193 to 385 an object, modulo 2^32 |
| MotifTheorems.DebugIdsExactly | motif_1.c:325-330 | the first identifier of a seed, and each next one, in closed form |
| MotifTheorems.DebugIdsDiffer | motif_1.c:325-330 | the first 11,155,760 identifiers of a worker are pairwise different, from any seed |
| MotifTheorems.DebugNeverRefused | motif_1.c:325-330 | workers that write at most that many objects from an empty workspace have no create refused |
| MotifTree.StepSimulates | storage/storage_dirtree.c:214-254 | each file system call of the tree driver is a step of the flat driver or invisible to it, whatever others have made |
| MotifTree.TreeRefinesFlat | storage/storage_dirtree.c:214-303 | every run over the tree is a run over the flat store, with the same objects and verdicts |
| MotifTree.TreeReadsValidate | storage/storage_dirtree.c:257-303 | parent directories always exist, and checks come out as over the flat store |
| MotifTree.TreeWriteOutcome | storage/storage_dirtree.c:221-233 | in every reachable state the second create succeeds exactly when the object is absent |
| MotifTree.EveryTreeRunCompletes | motif_1.c:325-350 | every schedule over the tree is bounded and ends with all objects written and checked |
| MotifSteps.WriteBegins | motif_1.c:325-328 | a write takes the identifier that peek shows and generates the sample from the same state |
| MotifSteps.CreateDecides | storage/storage_debug.c:164-169 | the create leaves an empty object, or nothing but a refusal when the object is there |
| MotifSteps.WriteStores | storage/storage_debug.c:172-187 | the write stores the bytes generated at this write, and is traced |
| MotifSteps.ReadTakes | storage/storage_debug.c:193-239 | the read returns the bytes stored under the identifier whose turn it is, and is traced |
| MotifSteps.CheckCompares | motif_1.c:346-349 | the check compares the bytes read with those that the identifier generates |
| MotifSteps.ChangedObjectIsFound | motif_1.c:341-350 | in any state, also after objects were changed or lost, the verdict is on the bytes stored then |
| MotifSteps.ChangedFileIsFound | motif_1.c:341-350 | the same over the directory tree |
| MotifSteps.AnyoneCanGoInTree | storage/storage_dirtree.c:214-303 | in every reachable state of the tree each worker that has not finished can take its next step |
| MotifSteps.FirstCreate | storage/storage_dirtree.c:221-225 | the first open succeeds exactly when the object is absent and its directories exist; otherwise the path is made |
| MotifSteps.MakesDirectory | storage/storage_dirtree.c:42-58 | each mkdir adds the next directory of the object's path, made or found, and nothing else |
| MotifSteps.SecondCreate | storage/storage_dirtree.c:226-233 | the second open leaves an empty file, or nothing but a refusal when the object is there |
| MotifSteps.TreeWriteStores | storage/storage_dirtree.c:235-251 | the write stores the bytes generated at this write, and is traced |
| MotifSteps.TreeReadTakes | storage/storage_dirtree.c:257-303 | the read returns the bytes of the object's file, and is traced |
| MotifSteps.TreeVerdictsCompareBytes | motif_1.c:341-350 | checks over the tree compare the same bytes as over the flat store |
| MotifSteps.TreeAtEnd | storage/storage_dirtree.c:214-254 | in every interleaving the tree ends with one file for each identifier of each worker and no other file, with the stated bytes, and with directories on objects' paths only |
| MotifTrace.TracedAtEnd | storage/storage_debug.c:164-187 | in every interleaving a worker ends having traced its writes that were not refused, then all its reads |
| MotifTrace.TreeTracedAtEnd | storage/storage_dirtree.c:221-251 | the same over the directory tree |
| MotifTrace.TraceFileOfRun | include/utils.h:73-82 | when motif and flush thread are through, the trace file has one write record for each write not refused, then one read record for each read, all without tag, in every interleaving of either |
| MotifTrace.TracesExactIff | utils/trace.c:115-131 | all trace files are exact in all interleavings if and only if each worker's number of records, counted modulo 65536, is zero or no multiple of 204 |
| MotifTrace.DebugTracesExactIff | utils/trace.c:115-131 | with PRNG_DEBUG and at most 11,155,760 writes a worker that number is the write count plus the read count |
| RunMotif.WriteObject | motif_1.c:327-329 | one turn writes, under the identifier peek shows, the bytes generated from the state then, or is refused, for any generator |
| RunMotif.WritePhase | motif_1.c:325-330 | the loop stores every identifier and changes no other client's objects |
| RunMotif.ReadPhase | motif_1.c:341-350 | each check passes exactly when the bytes then stored are those that the identifier generates |
| RunMotif.Run | motif_1.c:302-350 | a worker that starts on a clean store validates all it reads back |
| XorshiftMotif.FirstIdentifier | sample/sample_debug.c:39-54 | from seed 0 the first xorwow sample takes 239 draws, which give the first identifier and a first object of 1200 bytes |
| XorshiftMotif.SeededReadsBack | prng/prng_xorshift.c:90-93 | an object whose state came from a seed reads back |
| XorshiftMotif.OtherLength | sample/sample_debug.c:69-75 | a first object of another length than its identifier generates does not read back |
| XorshiftSeed.WordsAfter | prng/prng_xorshift.c:63-87 | any number of draws moves the four shifted words alone, adds to the counter and outputs their sum |
| XorshiftSeed.StepInPlainShifts | prng/prng_xorshift.c:63-87 | one draw written in plain shifts and exclusive ors on the five words, with the output their sum with the counter |
| XorshiftWalk.TwoHundred | prng/prng_xorshift.c:63-87 | the shifted words after two hundred steps from the first draw of seed 169 |
| XorshiftSeed.FirstLengths | sample/sample_debug.c:39-54 | from seed 169 the first object has 1401 bytes and its identifier generates 1498 |
| XorshiftMotif.XorshiftIsNotAlwaysValid | motif_1.c:341-350 | with PRNG_XORSHIFT a worker with seed 0 or 169 finds its first object not valid |

## Left out

- The RADOS driver (storage/storage_rados.c): it calls a library that is not part of this model.
- Logging, argument parsing, option lists, driver tables beyond the generator's, trace file formatting and the CSV conversion: easy list walks and plumbing.
- Real input/output faults, short writes, failed allocation, shared memory set-up and process creation: assumed to succeed, except that a failed write stops the flush thread at any record.
- Overrun of the ring: excluded by the assumption on completing a record, because the code has no check for it.
- trace_flush (utils/trace.c:134-143): it does not move the marker, and nothing in the repository calls it.
- Ring and stores in one interleaving: they are separate systems, joined by the operations each worker has traced; the times in the records are whatever the clock showed.
- The memory model: steps of the two trace threads are sequentially consistent; the unlocked copy and the unlocked fill are ordered by the steps of the model.
- Clock readings, throughput figures and overflow of time_t: the clock is any sequence that does not go back.
- The state in which a failed check leaves the generator: the interleaved model keeps the seeded state, which the next read replaces.
- A read of an object is one step in the interleaved model, its validation another; the open, fstat, read and close inside it are not separated.
- The fifth xorwow word is kept as a number, apart from the array of the four that are shifted.
- Words are laid out in memory with the least significant byte first.
- Existing files in a workspace at start: the interleaved theorems start from an empty one; the theorems about single drivers do not.
- Interleaving of other workers with RunMotif.Run: that method runs alone; the interleavings are the subject of Motif.dfy and MotifTree.dfy, on values.
