# Models and proofs for the operating-systems assignments

Dafny models of the parts of the repository whose correctness is not obvious from reading
one function, with proofs of what they are for. `dafny verify dfyconfig.toml` checks all of
it. Five subsystems are modelled:

* **The concurrent hash table** of `Assignment4/parallel_hash.c`: linear probing with
  tombstones, per-slot locks, probes without locks, a counter next to a pointer, and a gate
  that admits operations on one key in the order of their ids. `HashSpec` is the sequential
  map, `HashTable` the table as a state machine in which one step is one access to shared
  memory, `Gate` the gate, `HashSystem` both together, `HashTheorems` the results;
  `HashProbe`, `HashSteps`, `HashGlobal` and `HashInvariant` hold the proof. The main result:
  in every interleaving each operation returns what it returns when the stream is performed
  one operation at a time, and the final table is the final map. `HashProgress` and
  `HashTermination` show that every run gets there within a bound. `HashAlone` and
  `HashOverwrite` say exactly what happens when the table is too small, `HashOneThread` turns what a
  thread does alone into runs of the program, and `HashTooSmall` has streams on which it fails.
  `HashFile` goes from the bytes of the input file to the answers.
* **The list of virtual-memory areas** of `Assignment3/mmap.c`: a linked list of nodes, edited
  in place by `vm_area_map`, `vm_area_unmap` and `vm_area_mprotect`. `AreaList` is the view of a
  list as a function from addresses to protections, and its seams, where two areas with one protection
  touch; view and seams together are the list. `AddressSpace` is the linked list, `Mprotect` (with
  `MprotectEdits`), `Munmap` and `Mmap` are the calls with all their branches, `MmapLaws` has laws across
  calls, `MmapRuns` any sequence of calls. Each call's contract decides the list it leaves.
* **The reader-writer lock** of `Assignment4/rwlock.c`: one 64-bit word with wrap-around
  (`RwLock`). It excludes for up to 2^15 + 1 threads and for no number above that.
* **Descriptors and pipes** of `Assignment2/file.c` and `Assignment2/pipe.c` (`Descriptors`):
  who holds a reference to a file object, and when objects and pipes are freed; `DescriptorLimits` has
  the calls that read past a table.
* **Block hashing** of `Assignment4/thread_func.c` (`BlockHash`) and **the file of operations**
  written by `inputgen.c` and read by `read_op` (`OpFile`, with `Bytes`).

Code that changes things step by step is a class or a method with loops here (`Space`, `Kernel`,
`InputManager`, `Output`, the methods of `Mprotect`, `Munmap` and `Mmap`); each such method is
proved against a specification on values, and the laws are proved about those specifications.
Code that several threads run at once is a state machine with one program counter a thread;
its invariants are proved for every step and its results for every run, of any length.

## What was found

The models follow the code. Where the code does not do what it is for, a lemma gives an input,
and another gives the exact condition:

* `vm_area_unmap` (line 660 lacks a guard) moves an area down over a hole when the range ends in
  a hole below it: `Munmap.ExactUnless`, `Munmap.HoleIsFilled`, `MmapLaws.MapThenUnmapFails`. When the range ends below the
  mmap area, the first area is moved out of the mmap area: `Munmap.StaysInRange`, `Munmap.LeavesRange`.
* `vm_area_map` returns the end of the new run instead of its start after a three-way merge (line 460):
  `MmapLaws.SearchReturnsBase`, `MmapLaws.SearchReturnsEnd`; its search does not end when nothing fits and the
  list is not empty (lines 427-452): the `Hang` outcome of `Mmap.VmAreaMap`, `MmapLaws.SearchEnds`, `MmapLaws.SearchHangs`.
* `vm_area_mprotect` does not join an area that has the protection already and goes on behind the range with
  the areas in front of it: `MmapRuns.ProtectMakesSeam`, `MmapRuns.ProtectSeamed`. A hint in front of all areas or behind
  them is not joined with what it touches (lines 517-547): `MmapRuns.HintMakesSeam`. A process that maps without hints and
  unmaps has the fewest areas possible at each moment: `MmapRuns.FewestAlways`.
* Line 551 adds two addresses to decide whether an occupied hint is tried again behind the area that holds it:
  `MmapLaws.OccupiedHint`, `MmapLaws.RetriedHint`. In a range that starts beyond half of its end no hint is ever tried
  again: `MmapLaws.NeverRetried`.
* Line 512 compares the flag word with `MAP_FIXED` where line 549 tests a bit. `Mmap.Flags` keeps the
  two apart: a hint whose run ends behind the range, with `MAP_FIXED` and another flag, is searched for
  anywhere: `MmapLaws.FixedIgnored` says exactly when another run is mapped, `MmapLaws.FixedMoves` gives an input.
* The wrap test of the probes cannot hold for home slot 0, and the second pass of `insert_update`
  skips the home slot and may stop at a slot with another key. The exact conditions are `HashAlone.LookupReturns`,
  `HashAlone.PurgeReturns`, `HashAlone.InsertReturns` and `HashOverwrite.InsertOverwrites`. The program gets there:
  `HashTooSmall.NeverCompletes` gives, for a table of any size, a stream with as many keys as slots whose one-threaded
  run never ends, and `HashTooSmall.LosesKey` a stream of two keys in two slots in which one key takes the slot of the
  other. Neither can happen while the table has more slots than the stream has insertions of absent keys, which
  is what the theorems about runs assume; `HashTooSmall.FillingInput` shows that one slot less is too few.
* The reader-writer lock fails with 2^15 + 2 threads or more: `RwLock.OneTooMany`, `RwLock.ExclusionLimit`.
* `create_pipe` reads past the descriptor table exactly when the only free descriptor from 3 on is the last one, and
  `open_standard_IO` exactly when an open stream is opened again and there is none: the `Overrun` outcomes of
  `Descriptors.Kernel.CreatePipe` and `Descriptors.Kernel.OpenStandardIO`, with the calls that lead there for a table of
  any size in `DescriptorLimits.PipeOverruns` and `DescriptorLimits.StreamOverruns`.
* An open of a regular file that finds the table full loses the object: `Descriptors.Kernel.OpenRegular`,
  `DescriptorLimits.OpenLoses`.

## Model

| member | source | states |
|---|---|---|
| HashTable.HashFunc | Assignment4/Assignment4_Problem_Statement/part-3/common.h:58-63 | the home slot lies in the table |
| HashTable.HomeOfHalves | Assignment4/Assignment4_Problem_Statement/part-3/common.h:58-63 | the home slot of a key is the sum of its two 32-bit halves, modulo the size |
| HashSpec.SeqMapKey | Assignment4/Assignment4_Problem_Statement/part-3/main.c:36-49 | in the sequential run only operations on a key change the map at that key |
| HashSpec.AnswerKey | Assignment4/Assignment4_Problem_Statement/part-3/main.c:36-49 | a result depends on the map at the operation's key only |
| HashSpec.SeqMapEntry | Assignment4/Assignment4_Problem_Statement/part-3/main.c:36-49 | a key is in the sequential map if and only if some PUT on it has no DEL and no other PUT on it behind it, and it has that PUT's id and value |
| HashProbe.NeverFull | Assignment4/parallel_hash.c:110-117 | with fewer fresh PUTs in the stream than slots, some slot is never used, whatever the schedule |
| HashProbe.Advance | Assignment4/parallel_hash.c:86-89 | with an unused slot left, a probe that meets a used slot with another key has not reached the stop test's slot, and the next slot is one further on |
| HashProbe.EndOfChain | Assignment4/parallel_hash.c:86-95 | a key whose probe reaches an unused slot is in no slot |
| HashProbe.KnowsStable | Assignment4/parallel_hash.c:86-94 | what a thread has learnt without a lock stays true through any step of a thread on another key |
| HashSteps.WorkSound | Assignment4/parallel_hash.c:80-172 | every step leaves the thread with true knowledge, or returns the sequential result with the table updated at its key |
| HashInvariant.StepKeeps | Assignment4/parallel_hash.c:80-172 | every atomic step keeps: no key in two slots, no unused slot between home slot and key, locks held by one thread, no half-done slot without a lock, the count, every thread's knowledge; and a return gives the sequential answer |
| HashInvariant.EnterKeeps | Assignment4/Assignment4_Problem_Statement/part-3/main.c:40-45 | entering the table on a free key keeps the invariant |
| HashInvariant.InitKeeps | Assignment4/Assignment4_Problem_Statement/part-3/common.h:65-73 | init_hashtable establishes it |
| HashInvariant.UsedBounds | Assignment4/parallel_hash.c:138-144 | the count is never negative and stays below the table size even before pending additions are made |
| HashInvariant.AddInPlace | Assignment4/parallel_hash.c:14-35 | a 64-bit add on the 32-bit counter that stays in range leaves the pointer next to it alone |
| Gate.StepKeeps | Assignment4/parallel_hash.c:38-78 | every step at the gate keeps its invariant |
| Gate.Admission | Assignment4/parallel_hash.c:67-77 | a thread leaves read_op only when every earlier operation on its key has returned |
| Gate.RunExclusive | Assignment4/parallel_hash.c:69-74 | two operations on one key are never past the gate together |
| Gate.InOrder | Assignment4/parallel_hash.c:69-74 | operations on one key return in stream order |
| Gate.LeastNeverWaits | Assignment4/parallel_hash.c:69-74 | the operation with the least id in progress is held back by nobody and its thread is not waiting |
| Gate.NoneLostKeep | Assignment4/parallel_hash.c:38-45 | no wakeup is lost although the broadcast precedes the clear: a waiting thread always has a blocker that is still to signal |
| Gate.WaitsForKey | Assignment4/parallel_hash.c:67-77 | a thread is put to wait only when an earlier operation on its own key is in progress |
| Gate.GoesThrough | Assignment4/parallel_hash.c:67-77 | a thread that no earlier operation on its key holds back goes through by its own steps, one for each entry still to be looked at and one more |
| Gate.NoDeadlock | Assignment4/parallel_hash.c:38-77 | if nobody can act at the gate and nobody is in the table, all threads have exited |
| HashSystem.StepKeeps | Assignment4/Assignment4_Problem_Statement/part-3/main.c:36-49 | every step of the whole program, spurious wakeups included, keeps the whole invariant |
| HashSystem.RunInv | Assignment4/Assignment4_Problem_Statement/part-3/main.c:36-49 | it holds after every run |
| HashTheorems.ProgramUsable | Assignment4/Assignment4_Problem_Statement/part-3/common.h:58-73 | what the theorems ask of an input and a table size, for the program's own hash function: keys not zero, ids increasing, fewer PUTs of absent keys than slots |
| HashTheorems.Serializable | Assignment4/parallel_hash.c:38-172 | in every run, with any number of threads up to 32, each operation that has returned has the result of the run one operation at a time |
| HashTheorems.FinalTable | Assignment4/parallel_hash.c:38-172 | when all threads have exited, `Final` holds: all operations have their sequential results, each key is in one slot, the table holds exactly the sequential map with the id of the last PUT on each key, and a slot without a key is unlocked and as init_hashtable or a purge leaves it |
| HashTheorems.OneKeyAtATime | Assignment4/parallel_hash.c:47-78 | in no run are two threads inside the table with one key, and a thread inside has all earlier operations on its key behind it |
| HashTheorems.WaitsForItsKey | Assignment4/parallel_hash.c:67-77 | in every run a waiting thread has an earlier operation on its own key in progress |
| HashTheorems.AssertionsHold | Assignment4/parallel_hash.c:104-105 | no assertion of insert_update fails in any run |
| HashTheorems.CounterConserved | Assignment4/parallel_hash.c:138-144 | in every run `used` plus uncounted insertions is the number of live slots plus uncounted purges, and the table pointer next to it never changes |
| HashTheorems.DumpHashTable | Assignment4/Assignment4_Problem_Statement/part-3/common.h:109-126 | the loop prints a line for each slot with a key, in order, and is left with `used` less their number, in 32 bits |
| HashTheorems.CountedAtRest | Assignment4/Assignment4_Problem_Statement/part-3/common.h:124 | at the end of every run the count is the number of live slots: the assertion of dump_hash_table holds |
| HashTheorems.DumpAtEnd | Assignment4/Assignment4_Problem_Statement/part-3/common.h:109-126 | called with the table and count that any complete run leaves, dump_hash_table is left with 0 and its lines are the sequential map with the ids of the last PUTs, each key once |
| HashTheorems.OnlyHolderWrites | Assignment4/parallel_hash.c:129-143 | only the thread that holds a slot's lock changes the slot |
| HashProgress.ProbesEnd | Assignment4/parallel_hash.c:110-117 | each step of a thread inside decreases a measure that is never negative and at most 3 * table_size + 11, whatever the others do, home slot 0 included |
| HashProgress.SomebodyInside | Assignment4/parallel_hash.c:109-126 | if a thread is inside the table, some thread inside can step: the slot locks do not deadlock |
| HashProgress.NoDeadlock | Assignment4/Assignment4_Problem_Statement/part-3/main.c:36-58 | in no reachable state is the program stuck before all threads have exited |
| HashTermination.RunLength | Assignment4/Assignment4_Problem_Statement/part-3/main.c:36-58 | a run of n threads over m operations has at most m * (3 * table_size + 33 * n + 52) + 2 * n steps, plus 34 for each spurious wakeup |
| HashTermination.MaximalRunsFinish | Assignment4/Assignment4_Problem_Statement/part-3/main.c:36-58 | a run that cannot go on except by spurious wakeups is complete: all threads have exited and `Final` holds |
| HashAlone.LookupReturns | Assignment4/parallel_hash.c:86-95 | a lookup that runs alone returns if and only if its home slot is not 0, or its key is in the table, or some slot was never used |
| HashAlone.PurgeReturns | Assignment4/parallel_hash.c:148-172 | so does a purge on a table without held locks |
| HashAlone.InsertReturns | Assignment4/parallel_hash.c:98-146 | an insertion or update that runs alone returns if and only if its assertions hold and the same is true of its probe |
| HashOverwrite.InsertOverwrites | Assignment4/parallel_hash.c:119-143 | an insertion of an absent key that runs alone takes a slot holding another key if and only if its home slot is not 0 and every other slot holds a key and the home slot has been used |
| HashOneThread.Serve | Assignment4/Assignment4_Problem_Statement/part-3/main.c:36-49 | what a thread does alone on the table between start and return is a part of a run of the program with one thread, with the same result |
| HashOneThread.OnlyRun | Assignment4/Assignment4_Problem_Statement/part-3/main.c:36-49 | the program has one run only when it has one thread |
| HashTooSmall.LosesKey | Assignment4/parallel_hash.c:119-143 | PUT 1, PUT 3, DEL 1, PUT 1, GET 3 in two slots: a run answers the GET with -1, the sequential map with the text |
| HashTooSmall.NeverCompletes | Assignment4/parallel_hash.c:86-95 | for every table size, PUT 1 to PUT size, DEL size, GET size: no run of one thread ends, and none gets stuck |
| HashTooSmall.FillingInput | Assignment4/Assignment4_Problem_Statement/part-3/README:11-12 | that stream has as many keys as the table has slots, and one insertion of an absent key too many for the theorems about runs |
| AreaList.SpliceView | Assignment3/mmap.c:205-224 | replacing neighbouring areas in a window changes the view inside the window only |
| AreaList.SpliceWellFormed | Assignment3/mmap.c:205-224 | and keeps the list sorted, disjoint, non-empty, on pages, in range |
| AreaList.SpliceBegins | Assignment3/mmap.c:205-224 | and moves the starts of areas inside the window only |
| AreaList.SameList | Assignment3/mmap.c:133-689 | two well-formed lists with the same view and the same seams are the same list |
| AreaList.Fewest | Assignment3/mmap.c:304-331 | a list without seams has the fewest areas of all lists with its view |
| AreaList.ResizeAt | Assignment3/mmap.c:239-247 | moving the ends of one area between its neighbours changes the view in that area, before or after, only |
| AddressSpace.Space.InsertAfter | Assignment3/mmap.c:208-221 | a new node is linked in behind a node, and the list of areas says so |
| AddressSpace.Space.UnlinkAfter | Assignment3/mmap.c:306-308 | a node is unlinked from its predecessor |
| AddressSpace.Space.Seek | Assignment3/mmap.c:186-189 | finds the first area that ends above an address, and its predecessor |
| Mprotect.VmAreaMprotect | Assignment3/mmap.c:133-363 | keeps the list well-formed; returns 0 exactly when the rounded range is covered and there is room for the new areas; then exactly the pages of the range get prot, and in the range and at its ends all areas that could be one are one, but for the two cases of `Skipped`; on -1 nothing has changed |
| Mprotect.CoverageScan | Assignment3/mmap.c:138-156 | true exactly when each address of the unrounded range is mapped |
| MprotectEdits.CoveredPages | Assignment3/mmap.c:138-161 | then each page of the rounded range is mapped |
| Mprotect.ProtectMiddle | Assignment3/mmap.c:204-224 | a range inside an area: three areas in its place, refused at 127 |
| Mprotect.ProtectTail | Assignment3/mmap.c:226-248 | the end of an area: a new area, or the next one grows down if it touches and has prot |
| Mprotect.GrowNext | Assignment3/mmap.c:243-247 | the boundary between two areas moves down: the exact list |
| Mprotect.CutEnd | Assignment3/mmap.c:260-270 | the end of an area becomes an area with prot: the exact list |
| Mprotect.ProtectPastInside | Assignment3/mmap.c:250-274 | the end of an area and more, with the recursive call |
| Mprotect.ProtectHead | Assignment3/mmap.c:279-302 | the first part of an area: the previous one grows if it touches and has prot, or a new area |
| Mprotect.GrowPrev | Assignment3/mmap.c:283-287 | the boundary between two areas moves up: the exact list |
| Mprotect.NewBefore | Assignment3/mmap.c:288-301 | the first part of an area becomes an area with prot: the exact list |
| Mprotect.ProtectWhole | Assignment3/mmap.c:304-331 | a whole area: the list afterwards has one area with prot in place of it and each neighbour that touches it and has prot |
| Mprotect.ProtectPastFront | Assignment3/mmap.c:333-357 | a whole area and more, with the recursive call |
| Mprotect.ProtectRest | Assignment3/mmap.c:255-270 | the recursive call never fails and completes the range, joins included: it finds an adjacent predecessor with prot; the remaining length strictly shrinks |
| MprotectEdits.RoomBehind | Assignment3/mmap.c:255-270 | behind an adjacent area with prot, the rest of a covered range needs no new area |
| MprotectEdits.CutOut | Assignment3/mmap.c:204-224 | cutting an area in up to three parts gives the middle one prot and changes nothing else |
| MprotectEdits.Fuse | Assignment3/mmap.c:304-331 | fusing adjacent areas with prot around one changes that one's pages only, and removes the starts between them only |
| MprotectEdits.FuseJoined | Assignment3/mmap.c:304-331 | an area joined with each neighbour that touches it and has prot leaves nothing to be joined there |
| MprotectEdits.JoinedChain | Assignment3/mmap.c:250-274 | what is joined in the first part of the range and in the rest is joined in all of it |
| Munmap.VmAreaUnmap | Assignment3/mmap.c:606-689 | for every page-aligned range: the list stays linked, sorted and disjoint; it stays valid if and only if the range does not end below the mmap area or the list was empty; -1 exactly when an area is to be split at 128 areas, and then nothing has changed; else the view of every address is as `Unmapped` says and the seams are those outside the range |
| Munmap.ExactUnless | Assignment3/mmap.c:660-663 | the call removes exactly the requested pages if and only if the range does not end in a hole in front of the first area at or after addr |
| Munmap.HoleIsFilled | Assignment3/mmap.c:660-663 | an input on which a hole becomes mapped |
| Munmap.StaysInRange | Assignment3/mmap.c:660-663 | after a call that succeeds the areas are in the mmap area if and only if the range did not end below it or there were no areas |
| Munmap.LeavesRange | Assignment3/mmap.c:660-663 | an input on which an area leaves it |
| Munmap.CutHole | Assignment3/mmap.c:636-647 | the range strictly inside an area |
| Munmap.LoseEnd | Assignment3/mmap.c:649-657 | an area loses its end |
| Munmap.MoveStart | Assignment3/mmap.c:660-663 | an area's start is moved to the end of the range, up or down |
| Munmap.DropArea | Assignment3/mmap.c:665-680 | an area in the range is unlinked, and the range moves on to the next area's start |
| Mmap.VmAreaMap | Assignment3/mmap.c:367-599 | keeps the list well-formed; without a hint the lowest address that fits is mapped and joined with all it touches; with one see HintedMeaning; a failed call leaves the list unchanged; what is returned, and when the search does not end |
| Mmap.FindHole | Assignment3/mmap.c:427-500 | the loop stops at the first gap that fits or at the last area, and no lower address fits |
| Mmap.MapAtStart | Assignment3/mmap.c:392-421 | an empty list, or a gap in front of all areas |
| Mmap.MapAtEnd | Assignment3/mmap.c:431-452 | behind the last area, which grows if it has prot and else gets a neighbour, or for ever |
| Mmap.MapBetween | Assignment3/mmap.c:457-493 | a gap between two areas: all that can be joined is, the view changes by the run only |
| Mmap.MapHinted | Assignment3/mmap.c:505-590 | a call with a hint, its retries included: each raises the address or falls back to the search |
| Mmap.HintBetween | Assignment3/mmap.c:555-587 | a free hint between two areas, with the four merge cases |
| Mmap.HintedMeaning | Assignment3/mmap.c:505-590 | whatever the branch, a call with a hint that succeeds has mapped one free run in the range with prot and changed nothing else, joining what it touches unless it lies in front of all areas or behind them; one that fails has changed nothing |
| Mmap.FirstFitUnique | Assignment3/mmap.c:427-500 | only one address is the first fit |
| MmapLaws.MapThenUnmap | Assignment3/mmap.c:367-689 | mapping and then unmapping a run restores every page if and only if the run does not end in a hole that unmapping fills |
| MmapLaws.MapThenUnmapFails | Assignment3/mmap.c:606-689 | an input on which it does not |
| MmapLaws.FitsInGap | Assignment3/mmap.c:427-452 | some address is free for a length if and only if one of the gaps, the first and the last included, is long enough |
| MmapLaws.SearchEnds | Assignment3/mmap.c:427-452 | a search never ends if and only if there are areas and no gap is long enough |
| MmapLaws.SearchReturnsBase | Assignment3/mmap.c:456-493 | the value a search returns is the address of a run that has been mapped if and only if the run does not fill the first gap that takes it, between two areas with its protection |
| MmapLaws.SearchReturnsEnd | Assignment3/mmap.c:459-465 | an input on which it returns the end instead |
| MmapLaws.SearchHangs | Assignment3/mmap.c:427-452 | an input on which the search does not end |
| MmapLaws.FirstGapFits | Assignment3/mmap.c:427-500 | the first fit is the start of the first gap that is long enough, and what the new run touches are the areas beside that gap |
| MmapLaws.FixedIgnored | Assignment3/mmap.c:505-590 | with the MAP_FIXED bit a call succeeds and maps another run than the one at the hint if and only if other bits are set, the hint is in the range, its run ends behind it, and some gap takes the length, at 128 areas without a new one |
| MmapLaws.FixedMoves | Assignment3/mmap.c:511-514 | an input on which it does |
| MmapLaws.OccupiedHint | Assignment3/mmap.c:548-553 | an occupied hint without MAP_FIXED is tried again at the end of the area that holds it if the two addresses add up to no more than the end of the range, and else searched for |
| MmapLaws.RetriedHint | Assignment3/mmap.c:551 | an input on which it is tried again |
| MmapLaws.NeverRetried | Assignment3/mmap.c:551 | in a range that starts beyond half of its end a successful call has taken the hint or the first fit |
| MmapRuns.PerformAll | Assignment3/mmap.c:133-689 | after every call of any sequence of map, unmap and mprotect calls the list is well-formed and has changed as that call promises, view and seams, up to the first call that searches for ever or unmaps below the mmap area |
| MmapRuns.DidOnce | Assignment3/mmap.c:133-689 | the list before a call and the call decide the list behind it |
| MmapRuns.FewestAlways | Assignment3/mmap.c:367-689 | after every sequence of maps without hints and unmaps from an empty list there is no list with fewer areas and the same view |
| MmapRuns.ProtectMakesSeam | Assignment3/mmap.c:250-302 | from a list without seams, mprotect makes one if and only if an area with prot starts inside the range and goes on behind it |
| MmapRuns.ProtectSeamed | Assignment3/mmap.c:279-282 | an input on which it does |
| MmapRuns.HintMakesSeam | Assignment3/mmap.c:517-547 | from a list without seams, taking a free hint makes one if and only if it lies in front of all areas or behind them and touches one with its protection |
| RwLock.StepDecodes | Assignment4/rwlock.c:16-43 | every atomic step, wrap-around included, keeps the word equal to 2^48 * (1 - writers) - readers modulo 2^64 |
| RwLock.RunDecodes | Assignment4/rwlock.c:10-43 | it does in every run of any number of threads |
| RwLock.RunExclusive | Assignment4/rwlock.c:10-43 | with at most 2^15 + 1 threads never a writer with another writer or with a reader |
| RwLock.OneTooMany | Assignment4/Assignment4_Problem_Statement/part-2/common.h:17-38 | for any greater number of threads a run in which a subtraction wraps and reader and writer are in together |
| RwLock.ExclusionLimit | Assignment4/rwlock.c:16-37 | every run excludes if and only if there are at most 2^15 + 1 threads |
| RwLock.ReaderEnters | Assignment4/rwlock.c:31-37 | in every run of up to 2^48 threads read_lock lets a reader in if and only if the number of writers in or trying, modulo 2^16, is 0 or has wrapped past 2^15 |
| RwLock.WriterEnters | Assignment4/rwlock.c:16-21 | and write_lock a writer if and only if no reader is in or trying and the number of writers in or trying is 0 modulo 2^16 |
| RwLock.Admission | Assignment4/rwlock.c:16-37 | with at most 2^15 + 1 threads: a reader gets in if and only if no writer is in or trying, a writer if and only if nobody is |
| RwLock.ReadersShare | Assignment4/rwlock.c:31-37 | any number of readers up to 2^48 can be in together |
| RwLock.CanDrain | Assignment4/rwlock.c:18-42 | from every reachable state a finite schedule returns the word to 2^48 |
| RwLock.CanAcquire | Assignment4/rwlock.c:16-37 | and then lets any chosen waiting thread in |
| Descriptors.Kernel.GenericClose | Assignment2/file.c:117-146 | gives up one reference; the object is freed with the last one and the pipe with the second of its ends, once; every count stays exact |
| Descriptors.Kernel.CloseEnd | Assignment2/file.c:129-137 | the flag of the end that goes is cleared; the pipe is freed exactly when the other end is gone too |
| Descriptors.Kernel.FreePipeInfo | Assignment2/pipe.c:19-26 | is called only for a pipe that is not freed yet |
| Descriptors.Kernel.AllocFile | Assignment2/file.c:25-33 | a new object with one reference, counted in the statistics |
| Descriptors.Kernel.FreeFileObject | Assignment2/file.c:16-23 | an object to which nobody refers goes, and the statistics follow |
| Descriptors.Kernel.OpenRegular | Assignment2/file.c:279-305 | the lowest free descriptor from 3 on names the new object; with none free the object is lost |
| Descriptors.Kernel.OpenStandardIO | Assignment2/file.c:46-79 | the stream's own descriptor names a new object of its type, readable for standard input and else writable; or a further descriptor names an open stream's object, which reads past the table exactly when none is free |
| Descriptors.Kernel.CreatePipe | Assignment2/pipe.c:103-174 | the two lowest free descriptors name the ends of a new pipe; reads past the table exactly when the only free one is the last |
| Descriptors.Kernel.FdDup | Assignment2/file.c:311-340 | the lowest free descriptor names the same object; all errors change nothing |
| Descriptors.Kernel.FdDup2 | Assignment2/file.c:343-368 | newfd names oldfd's object and nothing else changes, also for oldfd == newfd; what newfd named loses a reference |
| Descriptors.Kernel.Close | Assignment2/file.c:117-146 | the slot is empty and its reference given up |
| Descriptors.Kernel.DoFileFork | Assignment2/file.c:87-100 | the child's slots name what the parent's name, each one counted |
| Descriptors.Kernel.DoFileExit | Assignment2/file.c:102-115 | all references of the process are given up, no other slot changes |
| Descriptors.Kernel.PerformAll | Assignment2/file.c:87-368 | any sequence of calls of any processes: each call does to the slots and processes what `Did` says, up to the first that reads past a table, which `Overreads` characterises; then each object named by a slot has as many references as there are slots naming it, no slot names a freed object, the statistics count the objects alive, the pipes not freed are those with an end alive, and a pipe that has been freed is never live again |
| Descriptors.Kernel.Lifetimes | Assignment2/file.c:16-33 | in every valid state each object named by a slot has as many references as there are slots naming it, the objects alive are those named and those lost, and the statistics count them |
| Descriptors.Kernel.PipeLifetimes | Assignment2/file.c:128-137 | a pipe not freed has a live end, and is_ropen and is_wopen hold exactly while the matching end is alive |
| Descriptors.Kernel.PipesAlive | Assignment2/file.c:128-137 | a pipe is not freed if and only if one of its ends is alive |
| DescriptorLimits.PipeOverruns | Assignment2/pipe.c:103-174 | for a table of any size, calls after which create_pipe reads past it |
| DescriptorLimits.StreamOverruns | Assignment2/file.c:65-79 | for a table of any size, calls after which open_standard_IO reads past it |
| DescriptorLimits.OpenLoses | Assignment2/file.c:279-305 | for a table of any size, calls after which an object is alive that no descriptor names |
| Descriptors.RefsPut | Assignment2/file.c:333-334 | filling an empty slot adds one to the slots that name its object and nothing to the others |
| Descriptors.RefsDrop | Assignment2/file.c:126 | emptying a slot takes one away |
| Descriptors.TiedFork | Assignment2/file.c:93-98 | after the copy the slots and the tables agree |
| BlockHash.CalculateAndStoreHash | Assignment4/Assignment4_Problem_Statement/part-1/main.c:15-26 | the 64-bit sum of the whole words, at most 8, of the block |
| BlockHash.HashOfWhole | Assignment4/Assignment4_Problem_Statement/part-1/main.c:15-26 | the hash of a whole block is the sum of its eight words in 64 bits |
| BlockHash.HashOfZeros | Assignment4/Assignment4_Problem_Statement/part-1/main.c:15-26 | zeros hash to 0, and bytes behind the last whole word do not count |
| BlockHash.HashCount | Assignment4/Assignment4_Problem_Statement/part-1/main.c:69-71 | just enough blocks for the file |
| BlockHash.StepInv | Assignment4/thread_func.c:15-31 | every step of every thread keeps data and output pointer in step, claims unique, and hashes right |
| BlockHash.AllHashed | Assignment4/thread_func.c:8-33 | for every number of threads and every schedule, when all have exited each block's hash is stored and no other is |
| BlockHash.StoresOnce | Assignment4/thread_func.c:22-30 | a thread stores inside the array, to an element of its own that nobody has stored to, whose index is the block's |
| BlockHash.NeverPast | Assignment4/thread_func.c:15-31 | in every state of every run hashes has an element for each block, optr does not pass its end, and dataptr does not pass the end of the last block |
| BlockHash.NeverStuck | Assignment4/thread_func.c:16-27 | some thread can go on until all have exited |
| BlockHash.RunLength | Assignment4/thread_func.c:8-33 | no schedule is longer than 7 steps a block and 11 a thread |
| BlockHash.MaximalRunsHash | Assignment4/thread_func.c:8-33 | a schedule that cannot go on has stored each block's hash |
| Bytes.LoadStore | Assignment4/Assignment4_Problem_Statement/part-3/inputgen.c:86-97 | a value stored in n bytes is loaded back |
| Bytes.LoadTop | Assignment4/Assignment4_Problem_Statement/part-3/inputgen.c:86-97 | the last byte of a word counts most |
| OpFile.RandText | Assignment4/Assignment4_Problem_Statement/part-3/inputgen.c:55-75 | 8 to 32 letters and digits |
| OpFile.GenerateRandText | Assignment4/Assignment4_Problem_Statement/part-3/inputgen.c:55-75 | writes length and text behind what is in the buffer |
| OpFile.Output.CreatePut | Assignment4/Assignment4_Problem_Statement/part-3/inputgen.c:77-113 | appends exactly the encoding of the PUT |
| OpFile.Output.CreateGetDel | Assignment4/Assignment4_Problem_Statement/part-3/inputgen.c:115-146 | appends exactly the encoding of the GET or DEL |
| OpFile.EncodedSmall | Assignment4/Assignment4_Problem_Statement/part-3/inputgen.c:115-146 | the bytes of a GET and of a DEL with small fields, one by one |
| OpFile.EncodedPut | Assignment4/Assignment4_Problem_Statement/part-3/inputgen.c:77-113 | those of a PUT of one character |
| OpFile.InputManager.ReadOp | Assignment4/parallel_hash.c:47-65 | reads the fields at curr, moves curr past the record, tells the end, and refuses other operations |
| OpFile.ParseEncoded | Assignment4/parallel_hash.c:52-58 | a record between any other bytes is read back, field by field, with its text and its end |
| OpFile.NextRecord | Assignment4/parallel_hash.c:47-65 | in the encoding of any list of records, the read position behind i records gives record i, and behind the last the end |
| OpFile.EndForever | Assignment4/parallel_hash.c:62-65 | at and behind the end every further call returns -1 |
| OpFile.InputManager.ReadAll | Assignment4/Assignment4_Problem_Statement/part-3/main.c:36-49 | reading until -1 yields exactly the records that were written, in order |
| HashFile.OpsOfFile | Assignment4/parallel_hash.c:47-65 | the operations in the encoding of a list of records are those of the records, in order, with the text of each PUT in the file where the operation says, and nothing else |
| HashFile.MapOfTexts | Assignment4/Assignment4_Problem_Statement/part-3/main.c:36-49 | the map of the sequential run stands, text by text, for the texts that the records put and delete |
| HashFile.SuitableUsable | Assignment4/Assignment4_Problem_Statement/part-3/inputgen.c:77-146 | what the theorems about runs ask, said of the records of the file |
| HashFile.FileServed | Assignment4/Assignment4_Problem_Statement/part-3/main.c:36-58 | in every run on a file of records, when all threads have exited, each record has its answer; that of a GET is, byte for byte, the text of the last PUT on its key |

## Left out

Assumptions of the hash table model:

- Memory is sequentially consistent; one step is one load, store, lock operation or atomic add. The tests that
  insert_update and purge_key make while they hold a slot's lock are one step, which `HashTheorems.OnlyHolderWrites` justifies.
- Ids increase along the stream, keys are not zero, and the stream has fewer PUTs of absent keys than the table has
  slots. The documentation (`Assignment4/Assignment4_Problem_Statement/part-3/README`, lines 11-12) allows a table as large as the
  number of unique keys, which is not enough (`HashTooSmall`): a tombstone is not reused while an unused slot is left.
- The hash function of the state machine is any function into the table; `HashTheorems.Program` puts hashfunc in its place.
- Taking the next record and moving curr is one step of the gate, on a list of operations; `OpFile` models the bytes, and
  `HashFile` says which list they stand for.
- Histories (the map so far, results, positions, the insertions that have opened a slot) are kept beside the state and read by no step.
- The per-thread log files, argument checks and thread creation of main.c.
- serial_hash.c, a second table for one thread; the specification is a map.

Memory areas:

- mmap.h is not part of this model: the bounds of the mmap area are symbolic, page-aligned and not negative.
- Addresses are page-aligned, lengths positive, and sums do not overflow the 32-bit int of the source.
- Page tables, update_map, unmap, map and MAP_POPULATE, TLB flushes and page faults.
- Lines 308-311 and 304-317 read fields of a node just after it is freed; the model reads them before.
- Refusals of mprotect that cannot happen once the range is covered (lines 171, 175-181, 191-197, 251, 334) have no branch of their own.
- Area counts above 128 (lines 171, 384, 623): a valid list never has that many.

Reader-writer lock:

- Fairness: progress is stated as the existence of a schedule.

Descriptors:

- The close system call and process creation are not in the repository: Close empties the slot after generic_close, a new
  process has an empty table, and after do_file_exit the process has no table.
- Descriptors.Kernel.OpenRegular: starts where the file is found and its mode checked; the file system is not part of this model.
- Descriptors.Kernel.AllocFile: allocation does not fail.
- A process's table is one entry of a map of tables rather than a field of its own object.
- After an `Overrun` nothing is said about the state.
- Reading, writing and lseek of files, pipe data, keyboard and console.

Blocks and files:

- Descriptors of files, mmap of the input and printing of the results. The file ends before the address space does, and
  behind its end the mapping reads as zeros.
- The text file and the choice of operations in inputgen's main; results of rand() are parameters.

Not modelled at all: Assignment1 (pipelines, grep, directory sizes), `Assignment3/cfork.c` and page-fault handling, which
rest on page-table helpers that are not in the repository.
