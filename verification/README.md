# peekbeam event pipeline

peekbeam watches one process or cgroup. Tracepoint handlers in the kernel keep three small maps
(a pending descriptor and a pending path per process, and the set of sockets known to belong to
the target) and push records into four bounded rings; a record that finds its ring full is gone.
Userspace empties the rings in batches into four tables: syscall counts and times, connections,
files, and kernel allocation counters. Tracepoints of any thread interleave freely with the drains.

This project models that pipeline, the headless loop that drives it, the summary built from the
tables and the `/proc` readers beside them, and proves what the tables mean.

| file | what it holds |
|---|---|
| `Records.dfy` | the records, the fixed-width casts |
| `Kernel.dfy` | every handler as a function of the kernel state; failing helpers are inputs of the step |
| `Probes.dfy` | the kernel side as it runs: a class whose methods update the maps and rings |
| `Tables.dfy` | what one record does to each table, with unbounded and with 64-bit accumulators |
| `Aggregator.dfy` | the four drain loops as they run, over a class with mutable tables |
| `World.dfy` | runs: arbitrary interleavings of tracepoints and single takes from any ring |
| `Refinement.dfy` | the pipeline against a tracker without rings |
| `Syscalls.dfy`, `SyscallTruth.dfy`, `SyscallExact.dfy` | the syscall table against its log, and against what threads did |
| `RecordFacts.dfy`, `TableFacts.dfy`, `TextFacts.dfy`, `ReaderFacts.dfy`, `LoopFacts.dfy` | the same operations pinned from outside: literal numbers, plain arithmetic, printed text |
| `Connections.dfy`, `Agreement.dfy`, `Sockets.dfy` | the connection table against its log and the tracked sockets; attribution |
| `Files.dfy`, `FileProvenance.dfy`, `Races.dfy`, `FileTruth.dfy` | the file table against its log; where records come from; what threads did |
| `Memory.dfy` | the allocation counters |
| `Headless.dfy`, `MidPoll.dfy`, `Printed.dfy` | the timed loop, over the two classes and a clock; arrivals during a poll; what lines say about what arrived |
| `Counterexamples.dfy` | small runs that show why hypotheses are needed |
| `Sorting.dfy`, `Summary.dfy` | the three sorted lists of a summary |
| `Text.dfy`, `MemStats.dfy` | text parsing, summing and unit scaling |
| `Folds.dfy`, `Sums.dfy`, `Repeats.dfy`, `Wrappers.dfy` | helpers |

The two classes (`Probes`, `Aggregator`) are tied to functions on plain states: each method's
`ensures` gives the whole new state, and the theorems are about runs of those functions.
`Headless.RunHeadless` closes the circle: it runs both classes and its postcondition speaks of
`WorldAt`, which `Headless.WorldAtIsReachable` shows to be the state reached by a run of the arrived
tracepoints; `Printed.dfy` states what follows for printed tables.

## What came out

* Unconditionally, in every run: each table is the fold of exactly the records accepted and already
  taken; every network record is attributable to the target; with each handler as one step,
  every file record has its own earlier stash.
* Without ring overflow the pipeline refines a tracker that has no rings, so batching, ring sizes
  and drain order do not matter once the rings are drained.
* A comment at `peekbeam/src/main.rs:289-290` says a syscall from another thread does not clobber the
  pending entry, and one at `peekbeam-ebpf/src/main.rs:37-41` that one pending operation per process
  is safe because a thread is in one syscall at a time. The key is the process, not the thread, and
  the model follows the code. `Counterexamples.OverlapClobbers` and `OverlapMisattributes` are
  lossless runs that go wrong. `SyscallExact.ShownIsExactIff` says exactly when a shown time is that
  of the completed calls, `FileTruth.AttributedIff` exactly when an exit is attributed to its own call.
* Losing records can overstate time as well as understate it (`Counterexamples.LossCanOverstate`).
  A matched interval is real exactly when the thread's own Exit was not lost before it
  (`SyscallTruth.InsideIffExitNotLost`); losing only Enters never overstates.
* The connection table and the tracked sockets can part in several ways: two tracked sockets share a
  tuple and one closes, a socket opened before tracing closes with a tracked one's tuple, a tuple
  changes, a record is lost, the map is full. `Agreement.AgreementIff` gives the exact condition for
  any run, step by step.
* An exit handler looks its pending entry up and deletes it in two helper calls. Two exits of one
  process that overlap there can send two records from one stash (`Counterexamples.RaceSharesStash`);
  `Races.DistinctStashesIff` says exactly when that happens.
* The shown accumulators are the true totals modulo 2^64, and equal to them exactly while every
  total fits (`Tables.WrappedIsExactIffInRange`).

## Model

| member | source | states |
|---|---|---|
| `Kernel.HandleKeepsBounds` | peekbeam-ebpf/src/main.rs:34-68 | whichever tracepoint fires and whichever helpers fail, no map exceeds 1024 or 128 entries and no ring its capacity |
| `Kernel.HandleExtends` | peekbeam-ebpf/src/main.rs:113-402 | handlers only ever append to rings; they never reorder or remove a queued record |
| `Records.AsI32` | peekbeam-ebpf/src/main.rs:181-194 | the narrowing of a 64-bit descriptor keeps it modulo 2^32 and leaves every value that fits unchanged |
| `ProbesClass.Probes.Fire` | peekbeam-ebpf/src/main.rs:97-402 | one tracepoint changes the maps and rings as `Kernel.Handle` says and keeps them within their sizes |
| `ProbesClass.Probes.TryEmit` | peekbeam-ebpf/src/main.rs:113-136 | a call outside the target, with an unreadable number or refused by the syscall ring changes nothing, file tracking included; otherwise the record is queued first and file handling follows |
| `ProbesClass.Probes.HandleFileSyscall` | peekbeam-ebpf/src/main.rs:141-155 | dispatch by direction and syscall number to stash, emit or nothing |
| `ProbesClass.Probes.StashOpen` | peekbeam-ebpf/src/main.rs:159-164 | a readable path is inserted for its process, replacing what was pending; a failed read or insert changes nothing |
| `ProbesClass.Probes.EmitOpen` | peekbeam-ebpf/src/main.rs:166-188 | the pending path is consumed in every case; an Open record goes out only for a readable nonnegative result |
| `ProbesClass.Probes.StashDescriptor` | peekbeam-ebpf/src/main.rs:192-195 | a readable descriptor, cut to 32 bits, is inserted for its process |
| `ProbesClass.Probes.EmitMove` | peekbeam-ebpf/src/main.rs:197-218 | the pending descriptor is consumed even when the call failed; a record carries a nonnegative byte count |
| `ProbesClass.Probes.EmitClosed` | peekbeam-ebpf/src/main.rs:220-241 | the pending descriptor is consumed; a Close record goes out only for result zero |
| `ProbesClass.Probes.TryNetState` | peekbeam-ebpf/src/main.rs:254-300 | the socket is tracked before the remaining reads, and forgotten only after its CLOSE record was accepted |
| `ProbesClass.Probes.TryNetRetransmit` | peekbeam-ebpf/src/main.rs:313-348 | a retransmit is recorded only for a tracked socket and never changes what is tracked |
| `ProbesClass.Probes.TryKmalloc` | peekbeam-ebpf/src/main.rs:360-375 | an allocation in the target's context is recorded with the bytes given |
| `ProbesClass.Probes.TryKfree` | peekbeam-ebpf/src/main.rs:388-402 | a free in the target's context is recorded |
| `RecordFacts.SyscallRecordSays` | peekbeam-ebpf/src/main.rs:113-129 | a syscall record goes out exactly for a boundary of the target whose number could be read and that the ring takes; it carries the process, the direction, the time and the number as an unsigned 64-bit value |
| `RecordFacts.RefusedChangesNothing` | peekbeam-ebpf/src/main.rs:115-129 | any other boundary changes no map and no ring |
| `RecordFacts.FileRecordIff` | peekbeam-ebpf/src/main.rs:141-240 | exactly which exits send a file record, with the syscall numbers as literals: 56 and 437 with a pending path, 63, 64, 67 and 68 with a pending descriptor, and no error; 57 with a pending descriptor and result zero |
| `RecordFacts.FileRecordSays` | peekbeam-ebpf/src/main.rs:148-152 | a file record is Open iff the number is 56 or 437, Read iff 63 or 67, Write iff 64 or 68, Close iff 57; it carries the pending path or descriptor, the bytes transferred, or the low 32 bits of the new descriptor |
| `RecordFacts.EntryLeaves` | peekbeam-ebpf/src/main.rs:143-146 | an entry leaves something pending in the path map iff the number is 56 or 437 and in the descriptor map iff it is 57, 63, 64, 67 or 68: the path in 64 bytes padded with zeros, or the low 32 bits of the descriptor |
| `RecordFacts.ExitTakes` | peekbeam-ebpf/src/main.rs:166-224 | an exit takes away what is pending in the map of its family, sent or not, and touches nothing else |
| `RecordFacts.PendingMapsHold128` | peekbeam-ebpf/src/main.rs:43-49 | a new process enters a pending map only below 128 entries; one that is there is replaced |
| `RecordFacts.NetRecordIff` | peekbeam-ebpf/src/main.rs:254-293 | a network record goes out exactly for a tracked socket, or a state change in the target's context, when every read its address family needs succeeded and the ring takes it |
| `RecordFacts.NetRecordSays` | peekbeam-ebpf/src/main.rs:265-292 | it carries the ports and family as read, each in its own place, the state modulo 2^16, and both addresses: 16 bytes for family 10, else the four bytes read and twelve zeros |
| `RecordFacts.TrackedAfter` | peekbeam-ebpf/src/main.rs:256-297 | after a state change its socket is tracked iff it was, or was added in the target's context below 1024 entries, and no record of state 7 went out; other sockets are as before |
| `RecordFacts.MemRecordSays` | peekbeam-ebpf/src/main.rs:360-402 | which allocations and frees send a record, and what it carries |
| `AggregatorClass.StatsWrap` | peekbeam/src/main.rs:309-313 | updating a 64-bit statistics row gives the residue of the unbounded update |
| `AggregatorClass.ConnStepWraps` | peekbeam/src/main.rs:339-351 | the same for a connection row |
| `AggregatorClass.FileStepWraps` | peekbeam/src/main.rs:368-391 | the same for a file row |
| `AggregatorClass.Aggregator.DrainSyscalls` | peekbeam/src/main.rs:294-318 | the loop empties its ring; the table is the fold of the records that were queued, accumulators modulo 2^64 |
| `AggregatorClass.Aggregator.DrainNetEvents` | peekbeam/src/main.rs:322-353 | the same for the network ring and the connection table |
| `AggregatorClass.Aggregator.DrainFileEvents` | peekbeam/src/main.rs:357-393 | the same for the file ring and the file table |
| `AggregatorClass.Aggregator.DrainMemEvents` | peekbeam/src/main.rs:397-415 | the same for the allocation ring and the counters |
| `AggregatorClass.Aggregator.PollEvents` | peekbeam/src/main.rs:417-422 | one poll empties all four rings into all four tables and touches nothing else on the kernel side |
| `Tables.WrappedIsExactIffInRange` | peekbeam/src/main.rs:100-156 | what the 64-bit accumulators show is the true total if and only if every total is below 2^64 |
| `TableFacts.ShownModulo` | peekbeam/src/main.rs:100-156 | every shown accumulator is the true total modulo 2^64, and everything else is shown unchanged |
| `TableFacts.NetRecordUpdates` | peekbeam/src/main.rs:331-351 | a record updates exactly the connection of its family, ports and addresses: a state change to 7 takes it off, anything else lists it with that state, and only a retransmit counts |
| `TableFacts.FileRecordUpdates` | peekbeam/src/main.rs:366-391 | a record updates exactly the row of its process and descriptor: an open starts it afresh, a read adds to the bytes read, a write to the bytes written, a close marks a row that is there |
| `Pipeline.RunBounded` | peekbeam-ebpf/src/main.rs:34-68 | maps and rings are within their sizes in every reachable state |
| `Pipeline.TablesAreFolds` | peekbeam/src/main.rs:294-422 | in every reachable state each queue is the untaken tail of the accepted records and each table the fold of the rest: nothing lost, reordered or taken twice |
| `Pipeline.AbsorbIsFoldOfLogs` | peekbeam/src/main.rs:294-422 | current tables plus queued records amount to the fold of all accepted records, however the drains were scheduled |
| `Refinement.TakeKeepsView` | peekbeam/src/main.rs:294-415 | taking any record from any ring is invisible to the reference tracker |
| `Refinement.RoomIsExact` | peekbeam-ebpf/src/main.rs:129-400 | what the refinement excludes is exactly loss to a full ring: there is room if and only if the step would not have sent more with larger rings |
| `Refinement.FireSimulates` | peekbeam-ebpf/src/main.rs:113-402 | unless it loses a record to a full ring, one tracepoint does to tables-plus-queues and maps what the atomic tracker does |
| `Refinement.PipelineRefinesTracker` | peekbeam/src/main.rs:294-422 | for every interleaving without overflow, tables plus queued records are exactly the tracker's tables and the kernel maps its maps |
| `Refinement.SchedulesAgree` | peekbeam/src/main.rs:417-422 | two overflow-free runs of the same tracepoints, with any ring sizes, batching and drain order, show the same tables once drained |
| `Syscalls.SysTableMeaning` | peekbeam/src/main.rs:303-316 | for every log: a call is pending iff its key's last record is an Enter; a row is the number and total duration of matched Exits of that number, and exists iff there is one |
| `Syscalls.Conservation` | peekbeam/src/main.rs:303-316 | for every log and key: Enters = matched + overwritten + pending, Exits = matched + orphaned |
| `TableFacts.MatchedExitAdds` | peekbeam/src/main.rs:307-313 | for every log: an Exit that finds its process's Enter of that number raises the count by one and the time by Exit minus Enter, or by nothing when it is not later; no other row changes |
| `TableFacts.OrphanedExitAddsNothing` | peekbeam/src/main.rs:307-308 | an Exit that finds none changes nothing |
| `TableFacts.TotalWithinSpread` | peekbeam/src/main.rs:309-313 | for every log, timestamps in any order: a row's time is at most the number of its Exits later than their Enter times the spread of its timestamps |
| `Syscalls.CountsAreConserved` | peekbeam/src/main.rs:308-312 | a shown count is the matched calls summed over the processes seen, and at most the Enters and the Exits of that syscall |
| `Syscalls.RowCountsSumToMatched` | peekbeam/src/main.rs:308-312 | the counts of all rows, in any order, add up to all matched Exits |
| `Syscalls.MatchedIntervalsDisjoint` | peekbeam/src/main.rs:303-309 | whatever was lost, matched intervals of one process and number follow each other in the log, and so in time wherever timestamps do not decrease |
| `Syscalls.OneCallWithinWindow` | peekbeam/src/main.rs:303-313 | with nondecreasing timestamps, the matched time of one key plus its open interval fits between the first record and now |
| `Syscalls.TotalWithinWallClock` | peekbeam/src/main.rs:309-313 | under arbitrary loss a row's time is at most distinct processes times the span of the log, and its accumulator has not wrapped while that product fits in 64 bits |
| `Syscalls.AverageBrackets` | peekbeam/src/main.rs:107-115 | avg * count <= total < (avg + 1) * count for every nonempty row |
| `Syscalls.AverageIsReal` | peekbeam/src/main.rs:107-115 | for every log, with unbounded accumulators, every listed row has a positive count and its average lies between two durations measured for that syscall (`Printed.ShownAverageIsReal` carries it to shown rows) |
| `SyscallTruth.CreditedIsMatched` | peekbeam/src/main.rs:303-313 | summing matched durations Exit by Exit or Enter by Enter gives the same total |
| `SyscallTruth.MatchedIntervalInsideCall` | peekbeam/src/main.rs:303-313 | a matched interval lies inside the call of the thread whose Enter it used |
| `SyscallTruth.InsideIffExitNotLost` | peekbeam/src/main.rs:303-313 | for any log that keeps an arbitrary subset of the boundaries: a matched interval lies inside the call of the thread whose Enter it used if and only if that thread's own Exit was not lost before it; with distinct timestamps exactly then it is no longer than the call |
| `SyscallTruth.KeptExitsLeakNothing` | peekbeam/src/main.rs:303-313 | if every Exit was kept, no matched Exit stands in for a lost one, however many Enters were lost |
| `SyscallTruth.MatchedAtMostTrue` | peekbeam/src/main.rs:303-313 | as long as no matched Exit stands in for a lost one, the matched time of the kept records is at most the true time |
| `SyscallTruth.LogIsKept` | peekbeam-ebpf/src/main.rs:113-129 | the records the ring accepted in a run are the boundaries of the target's threads that could be read and were not refused, in order |
| `SyscallTruth.ReportedTimeNeverOverstates` | peekbeam/src/main.rs:291-318 | in every reachable state, with any drops, unreadable numbers and queued records: unless a matched Exit stands in for a lost one, a row's time is at most the time threads really spent in that syscall, in-flight calls counted to now |
| `SyscallTruth.LostEntersNeverOverstate` | peekbeam/src/main.rs:291-318 | so in every run whose Exits were all recorded, and in particular without losses |
| `SyscallTruth.ExactWithoutOverlap` | peekbeam/src/main.rs:291-318 | once drained, if every boundary was read and recorded and no two calls of a syscall overlapped in one process, its row shows exactly the time of its completed calls |
| `SyscallExact.ExactIffOwnMatches` | peekbeam/src/main.rs:303-313 | for any trace in which every Exit of the syscall has its own Enter, with calls possibly still in flight: the matched time is at most the completed time, and equal to it if and only if every Exit is paired with its own thread's Enter |
| `SyscallExact.ShownIsExactIff` | peekbeam/src/main.rs:291-318 | so in every drained state of a lossless run: the time shown is at most the time of the completed calls, and exactly that if and only if every Exit is paired with its own thread's Enter |
| `SyscallTruth.ExactIffNoOverlap` | peekbeam/src/main.rs:291-318 | the companion for traces that also hold Exits of calls entered before tracing began: if all traced calls have ended, the row is exact if and only if no two of them overlap |
| `Counterexamples.LossCanOverstate` | peekbeam-ebpf/src/main.rs:129-129 | a run of two one-nanosecond calls with two refused records whose row shows 100 ns: the first call's own Exit was lost before the matching one |
| `Counterexamples.OverlapClobbers` | peekbeam/src/main.rs:289-309 | a lossless run in which a second thread's Enter replaces the first: one call of 10 ns is shown, two of 20 ns were made |
| `Connections.ConnTableMeaning` | peekbeam/src/main.rs:338-351 | for every log: listed iff something happened after the connection's last CLOSE; state is the latest reported, retransmits those since that CLOSE |
| `Connections.RowsAreIndependent` | peekbeam/src/main.rs:331-351 | a row is determined by the connection's own records alone |
| `Agreement.StepAgreesIff` | peekbeam-ebpf/src/main.rs:254-348 | from a state in which the settled connections are the tuples of the tracked sockets, any step whatever leads to one if and only if it meets a guard on the state before it; lost, refused and unreadable records, full maps, shared and changed tuples included |
| `Agreement.AgreementIff` | peekbeam-ebpf/src/main.rs:254-348 | in any run, with no hypothesis: they agree in every state up to the n-th if and only if every step before it meets the guard |
| `Agreement.ConnectionsAgree` | peekbeam-ebpf/src/main.rs:254-348 | in particular, without loss on the target's sockets and with each tracked socket's tuple fixed and its own, in every reachable state, whatever other sockets do |
| `Agreement.CloseAgreesIffTupleUnshared` | peekbeam-ebpf/src/main.rs:258-297 | closing a socket, tracked or seen for the first time, keeps that agreement if and only if no other tracked socket has its tuple |
| `Counterexamples.SharedTupleIsDropped` | peekbeam/src/main.rs:340-342 | a lossless run in which two target sockets share a tuple: table and tracked sockets agree until one closes; then the other is tracked and not listed |
| `Counterexamples.UntrackedCloseDrops` | peekbeam-ebpf/src/main.rs:258-297 | a lossless run in which a target socket opened before tracing closes with the tuple of a tracked one: no two tracked sockets ever share a tuple, and yet the tracked one is no longer listed |
| `Sockets.TrackedWasClaimed` | peekbeam-ebpf/src/main.rs:254-297 | a tracked socket changed state in the target's context earlier and no CLOSE record for it went out since; no assumption on drops, full maps or failed reads |
| `Sockets.EveryRecordIsAttributable` | peekbeam-ebpf/src/main.rs:254-317 | every emitted network record is such a state change itself or is preceded by one that still stands |
| `Files.FileTableMeaning` | peekbeam/src/main.rs:366-391 | for every log: a row exists iff the descriptor was opened or transferred on; path of the last open else unknown, byte sums since birth, closed iff a Close followed the birth |
| `Files.EveryFileRecordWellShaped` | peekbeam-ebpf/src/main.rs:162-240 | in every run each file record has a nonnegative signed 64-bit byte count, a path only if it is an Open, and a path length within the buffer |
| `Files.CastsKeepSums` | peekbeam/src/main.rs:385-390 | for such records the cast to u64 preserves every sum |
| `Files.SettledBytesAreSums` | peekbeam/src/main.rs:373-390 | so in every run the settled byte totals are the plain sums of the signed counts since the row's birth |
| `FileProvenance.EmissionStep` | peekbeam-ebpf/src/main.rs:129-240 | a file record leaves only in a step that put an Exit record on the syscall ring, and carries what was pending for that process |
| `FileProvenance.PendingHasSource` | peekbeam-ebpf/src/main.rs:159-204 | what is pending was put there by the last successful stash of that process and family and not consumed since |
| `FileProvenance.EveryFileRecordHasSource` | peekbeam-ebpf/src/main.rs:159-241 | every Read, Write or Close goes back to an earlier stash of that descriptor by the same process, every Open to one of that path |
| `FileProvenance.SourcesAreDistinct` | peekbeam-ebpf/src/main.rs:166-241 | with each handler as one step, no two file records share a stash: the map to sources is injective |
| `Races.ExitIsLookThenFinish` | peekbeam-ebpf/src/main.rs:166-241 | an exit split into its lookup and its deletion is, when nothing comes in between, the handler of the other modules |
| `Races.RecordHasStash` | peekbeam-ebpf/src/main.rs:166-241 | in any interleaving of split exits every record goes back, through its exit's lookup, to an earlier stash of the same process with what it carries, not deleted before the lookup |
| `Races.DistinctStashesIff` | peekbeam-ebpf/src/main.rs:198-224 | in any interleaving of split exits, no two records come from one stash if and only if between the lookups of any two sending exits of one process and family there is a stash |
| `Races.SharingNeedsOverlap` | peekbeam-ebpf/src/main.rs:198-224 | two records of one stash need exits that overlap: the later lookup comes before the earlier deletion |
| `Races.SeparateExitsAreDistinct` | peekbeam-ebpf/src/main.rs:198-224 | so without overlapping exits of one process and family all stashes are distinct |
| `Counterexamples.RaceSharesStash` | peekbeam-ebpf/src/main.rs:198-201 | two exits that both look before either deletes send two records from one stash |
| `FileTruth.PendingFollowsFlight` | peekbeam-ebpf/src/main.rs:141-241 | in orderly runs, what is pending per process and family is exactly the argument of the call in flight |
| `FileTruth.FileLogIsTruth` | peekbeam-ebpf/src/main.rs:141-241 | in orderly runs the file records sent are exactly the effects of the calls made, thread by thread |
| `FileTruth.FileTableIsTruth` | peekbeam/src/main.rs:357-393 | so each settled row has the path read at the last successful open returning that descriptor, the byte sums since its birth, and is closed iff a successful close followed |
| `FileTruth.PathIsRecovered` | peekbeam/src/file_table.rs:5-13 | the bytes shown are those the user-string helper returned at the entry, marked cut exactly when they filled the buffer |
| `FileTruth.PendingIsLast` | peekbeam-ebpf/src/main.rs:159-204 | without losses and with any overlaps, what is pending is the argument of the last family entry of the process, unless an exit came after it |
| `FileTruth.AttributedIff` | peekbeam-ebpf/src/main.rs:141-241 | in a run that loses nothing, with any overlaps, an exit sends exactly the effect of its own call if and only if that call failed or the last family entry or exit of the process before it is an entry with the same argument; for a call entered before tracing began, none or an exit |
| `FileTruth.LogIsTruthIffAttributed` | peekbeam-ebpf/src/main.rs:141-241 | in such runs with distinct times the whole file log is the effects of the calls made if and only if every successful call finds its own argument at its exit |
| `Counterexamples.OverlapMisattributes` | peekbeam-ebpf/src/main.rs:192-218 | two overlapping reads of one process credit the bytes of one to the descriptor of the other |
| `Memory.MemTableMeaning` | peekbeam/src/main.rs:406-413 | for every log the counters are the number of Alloc records, their bytes, and the number of Free records |
| `Memory.MemTableIsTruth` | peekbeam-ebpf/src/main.rs:360-402 | if every allocation and free of the target was read and recorded, the settled counters are those allocations, the bytes given and those frees |
| `Headless.PollsReflectEverything` | peekbeam/src/headless.rs:32-33 | if no batch overflows and tracepoints fire between polls, the tables after the n-th poll reflect exactly all tracepoints before it |
| `MidPoll.MidPollReflects` | peekbeam/src/main.rs:417-422 | with tracepoints firing while the rings are being drained, every table then reflects at least the records accepted before the poll and at most those accepted by its end, in order |
| `Headless.PollIsRun` | peekbeam/src/main.rs:417-422 | a poll is a stretch of single takes of the pipeline that empties the rings |
| `Headless.WorldAtIsReachable` | peekbeam/src/headless.rs:32-49 | what the loop sees after n polls is the state reached by a run whose tracepoints are exactly the arrivals so far, so theorems about runs apply to what it prints |
| `Headless.BuildSummary` | peekbeam/src/headless.rs:61-79 | a line shows the tables as they are, the whole seconds since the start, and the memory figures and page faults as read then |
| `Headless.StreamIfDue` | peekbeam/src/headless.rs:42-46 | reads the clock once; prints iff that reading is at least `refresh` after the last line, and then reads it for the summary and for the new `last_emit` |
| `Headless.ShouldStop` | peekbeam/src/headless.rs:35-41 | stops iff shutdown was requested or, by a reading made now, the duration has passed |
| `Headless.RunHeadless` | peekbeam/src/headless.rs:29-58 | the loop ends; everything it asked of the clock, in order, is accounted for by its rounds; it went on after each round and stopped at the first poll after which the flag was set or the duration read as passed; the streamed lines are exactly those whose reading was due, each from the tables of its poll; one final line from the last poll |
| `Headless.ElapsedMustPrint` | peekbeam/src/headless.rs:42-46 | a poll made when `refresh` has passed since the last line prints |
| `Headless.LineIffDue` | peekbeam/src/headless.rs:42-46 | there is a line for a poll if and only if its reading was due, and it shows exactly the records accepted before that poll and the memory figures and page faults then read |
| `Headless.LinesAreSpaced` | peekbeam/src/headless.rs:42-46 | the k-th streamed line is at least k intervals old |
| `Headless.PollsWithinDuration` | peekbeam/src/headless.rs:38-48 | with a duration there are at most ceil(duration / 50 ms) + 1 polls and no streamed line |
| `LoopFacts.LineSays` | peekbeam/src/headless.rs:61-79 | a line carries its own poll's tables, memory figures and page faults, and uptime * 10^9 <= elapsed < (uptime + 1) * 10^9 |
| `LoopFacts.DueInPlain` | peekbeam/src/headless.rs:42-46 | a poll prints exactly when the loop streams and its reading is at least `refresh` nanoseconds after the last line |
| `LoopFacts.EndsInPlain` | peekbeam/src/headless.rs:35-41 | the loop goes on while the flag is clear and less than the duration has passed, and ends at the first poll where one no longer holds |
| `LoopFacts.SleepsLast` | peekbeam/src/headless.rs:48-48 | each round that goes on ends at least 50 000 000 nanoseconds after its last reading |
| `Printed.PrintedTimeNeverOverstates` | peekbeam/src/headless.rs:42-58 | a printed time is at most the time the threads of the arrived tracepoints really spent in that syscall, under the condition above |
| `Printed.PrintedTimeIsExact` | peekbeam/src/headless.rs:42-58 | without losses and overlaps it is exactly the time of the completed calls, modulo 2^64 |
| `Printed.PrintedTimeIsExactIff` | peekbeam/src/headless.rs:42-58 | without losses and with any overlaps and calls in flight, while that time fits: exact if and only if every Exit is paired with its own thread's Enter |
| `Printed.ShownAverageIsReal` | peekbeam/src/main.rs:107-115 | in every reachable state, while the 64-bit row fits, its count is positive and its average lies between two durations measured among the records taken |
| `Printed.ShownTimeWithinWallClock` | peekbeam/src/main.rs:309-313 | in every reachable state the 64-bit total is at most distinct processes times the span of the records taken, whatever was lost |
| `Printed.ShownTimeWithinSpread` | peekbeam/src/main.rs:309-313 | the same for the 64-bit row shown in any reachable state, whatever was lost and in whatever order records came |
| `Printed.PrintedFilesAreTrue` | peekbeam/src/headless.rs:42-58 | in an orderly run a printed file row is what the calls that arrived did to that file |
| `Printed.PrintedConnectionsAreTracked` | peekbeam/src/headless.rs:42-58 | in an orderly run the printed connections are exactly the tuples of the tracked sockets |
| `Sorting.SortDescSorts` | peekbeam/src/summary.rs:100-124 | the sort is nonincreasing, a permutation, and keeps ties in order |
| `Sorting.StableSortIsUnique` | peekbeam/src/summary.rs:100-124 | those three determine the result, so any stable descending sort returns the same list |
| `Summaries.SummaryIsFaithful` | peekbeam/src/summary.rs:87-124 | for all tables and iteration orders each list has exactly one row per entry, as multisets, in nonincreasing order of its key |
| `Summaries.OrderOnlyBreaksTies` | peekbeam/src/summary.rs:87-124 | the hash maps' iteration order changes neither the rows nor the figure at any rank |
| `Summaries.ListsDescend` | peekbeam/src/summary.rs:100-124 | time never rises along the syscalls, retransmits along the connections, and bytes read plus written modulo 2^64 along the files |
| `Summaries.SyscallRowsSay` | peekbeam/src/summary.rs:87-99 | each syscall has a row with its own name, category, count, total and total divided by count, and each row is that of some syscall |
| `Summaries.ConnectionRowsSay` | peekbeam/src/summary.rs:102-110 | each connection has a row: local side from source address and port, remote side from destination address and port, its state and retransmits; and each row is that of some connection |
| `Summaries.FileRowsSay` | peekbeam/src/summary.rs:113-123 | each descriptor has a row with its own process, number, path, status and bytes, and each row is that of some descriptor |
| `Summaries.CountersSay` | peekbeam/src/summary.rs:164-166 | allocations, allocated bytes and frees are the three counters, each in its own place |
| `Summaries.ListedCountsAreMatchedCalls` | peekbeam/src/summary.rs:87-99 | in a summary of any reachable state the listed counts add up to the matched calls among the records taken: modulo 2^64 always, exactly while they fit |
| `Text.LinesOfUnlines` | peekbeam/src/mem_stats.rs:109-109 | splitting printed lines gives the lines back |
| `Text.WordsOfSpaced` | peekbeam/src/mem_stats.rs:171-171 | whitespace splitting recovers space-separated tokens |
| `Text.AfterLastFinds` | peekbeam/src/mem_stats.rs:168-170 | the text after the last occurrence is found, whatever comes before it |
| `Text.ParsePrint` | peekbeam/src/mem_stats.rs:177-178 | parsing a printed number that fits gives it back |
| `TextFacts.WordsSplitAtSpace` | peekbeam/src/mem_stats.rs:110-110 | every space ends a word: the words of a text are those of the two sides of any space in it |
| `TextFacts.ParsesIff` | peekbeam/src/mem_stats.rs:114-116 | exactly what parses: a text gives n iff it is n in decimal, perhaps with zeros and a plus sign in front, and n is in range |
| `TextFacts.LineEndsCrLf` | peekbeam/src/mem_stats.rs:109-109 | a carriage return before a newline is dropped with it |
| `TextFacts.LastLineStands` | peekbeam/src/mem_stats.rs:109-109 | a last line without a newline is a line as it stands |
| `TextFacts.TrimStrips` | peekbeam/src/mem_stats.rs:58-60 | trimming removes the spaces on both sides and nothing else |
| `TextFacts.AfterLastNone` | peekbeam/src/mem_stats.rs:168-170 | nothing is found exactly when the character does not occur |
| `MemStats.AddStatus` | peekbeam/src/mem_stats.rs:109-124 | one status file adds 1024 times the sum of its matching numeric lines to each accumulator, modulo 2^64 |
| `MemStats.ReadProcesses` | peekbeam/src/mem_stats.rs:100-138 | totals are 1024 times the sums over readable processes and their number; an error iff none is readable |
| `ReaderFacts.StatusLineCounts` | peekbeam/src/mem_stats.rs:110-122 | a line printed as key, tab, blanks, number and unit counts the number for its own key and nothing for any other |
| `ReaderFacts.LineCountsIff` | peekbeam/src/mem_stats.rs:110-123 | any line counts for a key exactly when its first word is the key and its second writes a 64-bit number |
| `ReaderFacts.StatusIsReported` | peekbeam/src/mem_stats.rs:100-138 | a process whose status file prints the four figures, among any other lines and in any order, is reported with 1024 times each, in its own place, modulo 2^64 |
| `MemStats.ProcessesPermute` | peekbeam/src/mem_stats.rs:104-129 | the order of the pids does not matter |
| `MemStats.ProcessesAdd` | peekbeam/src/mem_stats.rs:104-129 | two lists together report the sum of what they report apart |
| `MemStats.UnrelatedLinesIgnored` | peekbeam/src/mem_stats.rs:109-124 | a line about something else changes no figure, wherever it stands |
| `MemStats.StatFieldsRecovered` | peekbeam/src/mem_stats.rs:166-176 | for every command name, spaces and parentheses included, fields 10 and 12 are the ones read; a record without field 12 is refused |
| `MemStats.StatRoundTrip` | peekbeam/src/mem_stats.rs:166-178 | printed counters come back as the numbers they were |
| `ReaderFacts.CounterOrZero` | peekbeam/src/mem_stats.rs:174-179 | a counter that writes no 64-bit number counts as zero, and the record still counts |
| `MemStats.ReadFaults` | peekbeam/src/mem_stats.rs:158-186 | totals over the pids whose record parses, modulo 2^64; an error iff there is none |
| `MemStats.ReadCgroup` | peekbeam/src/mem_stats.rs:53-92 | each figure is the last parseable line for its key; an error iff a file is unreadable or `memory.current` is no number |
| `MemStats.ProcsRoundTrip` | peekbeam/src/mem_stats.rs:94-98 | the pids printed one per line in `cgroup.procs` are the pids read back |
| `MemStats.ReadMemory` | peekbeam/src/mem_stats.rs:43-51 | the cgroup controller's figures where it can be read, else the sums over the processes of the target |
| `ReaderFacts.CgroupIsReported` | peekbeam/src/mem_stats.rs:53-92 | what `memory.current` and `memory.stat` print comes back, each figure in its own place |
| `ReaderFacts.LineReplacesIff` | peekbeam/src/mem_stats.rs:69-81 | such a line of `memory.stat` replaces the figure of its key; any other line leaves it |
| `ReaderFacts.CgroupReadsIff` | peekbeam/src/mem_stats.rs:56-64 | the controller is available exactly when both files can be read and `memory.current`, trimmed, writes a 64-bit number |
| `ReaderFacts.ControllerIsPreferred` | peekbeam/src/mem_stats.rs:43-51 | where the controller can be read its figures are reported, whatever the processes say |
| `ReaderFacts.FallsBackToProcesses` | peekbeam/src/mem_stats.rs:46-49 | where it cannot, the sums over exactly the processes printed in `cgroup.procs`; page faults over those in any case |
| `ReaderFacts.OneProcessReported` | peekbeam/src/mem_stats.rs:43-45 | a single process is reported by its own status file and stat line, end to end |
| `MemStats.ReadHostFaults` | peekbeam/src/mem_stats.rs:152-186 | page faults summed over the target's processes; an error iff none can be read |
| `ReaderFacts.SumsFailIff` | peekbeam/src/mem_stats.rs:126-183 | the process sums fail exactly when no status file can be read, page faults exactly when no stat record parses |
| `MemStats.ScaleBytes` | peekbeam/src/mem_stats.rs:188-196 | value * 1024^unit is the byte count, the unit is the largest that fits up to TiB, and the value is in [1, 1024) except at the ends |
| `ReaderFacts.UnitInBytes` | peekbeam/src/mem_stats.rs:188-196 | the unit in plain bytes: B below 1024, then KiB, MiB, GiB, and TiB from 2^40 on |
| `MemStats.UnitsAreMonotone` | peekbeam/src/mem_stats.rs:191-196 | each byte count has one unit, and more bytes never get a smaller one |

## Hypotheses

Helpers that can fail are inputs of each step: context reads and the user-string read are optional
values, map insertion and ring output carry a flag saying whether they go through when there is
room. The filter's verdict is a flag, the time a number; nothing is assumed about either unless a
lemma says so. Ring capacities are parameters.

Each handler is one step: what it reads from a map and what it changes there happen together. Only
`Races` splits a handler, where the split shows in a stated property; for the socket handlers the
hypothesis is that state changes of one socket do not run on two CPUs at once.

* `NoOverflow`: no record was lost to a full ring (`Refinement.RoomIsExact`). Outputs may still be
  refused for other reasons, and a ring may be full while nothing is written to it.
* `Describes`: a list of the boundaries the target's threads crossed, with their true syscall numbers
  also where a handler failed to read them.
* `NoneLost`: every boundary, or every Exit, was read and recorded. `NoMemLost`: the same for the
  target's allocations and frees.
* `NoLeak`: no matched Exit stands in for a lost one.
* `Traceable`: every Exit of the syscall has its own Enter, and boundaries of one process and number
  have distinct times. Calls may be in flight.
* `WellFormed`: a thread leaves the call it entered before it enters another. Exits of calls entered
  before tracing began are allowed.
* `OrderlyNet`: for tracked sockets and those the target claims, the reads succeed, insertions and
  outputs go through, and the tuple is fixed and shared with no other tracked socket. Other sockets
  may do anything.
* `LosslessCalls`: every boundary of the target is read and recorded, arguments are kept, file
  records are accepted, and threads are in one call at a time. `OrderlyCalls`: moreover a process has
  at most one open-class and one descriptor-class call in flight; one of each may overlap. Calls
  already in flight when tracing began are allowed.

Order of timestamps is assumed only where a lemma says so: `Nondecreasing` for the window of a whole
log, `UpToNow` and `StrictlyIncreasing` only among boundaries of one process and number. Rings filled
from several CPUs need not keep a global order.

## Left out

- Terminal interface, container and pod lookup, loading and attaching, privilege checks, command line, signals: outside the pipeline. The target filter is a flag and shutdown a function of the poll count.
- Syscall names, categories, TCP state names and address formatting: lookup tables, parameters of the summary.
- Byte offsets, record sizes and alignment: records are datatypes, and the size check on a taken record never fails.
- Ring internals: a ring holds a fixed number of records; 256 KiB divided by record size and header is not computed.
- Return codes of the handlers: the kernel ignores them.
- Reading the clock: a handler reads it when it builds its record; the model gives each tracepoint one time.
- Headless.PollsReflectEverything: tracepoints fire between polls in the loop; `MidPoll` states what holds when they fire during a poll, and `Pipeline` allows every interleaving.
- Maps mutated in place: the class fields are values of type `map` and `set` that the methods reassign, so iteration order and aliasing do not appear, except as the order parameter of a summary.
- Path text: `format_path` yields the bytes shown and whether an ellipsis follows; lossy decoding and shortening for display are left out.
- Rendering as JSON or text, and microseconds as doubles: rows hold nanoseconds. Two totals that differ only beyond double precision would tie in the original and do not here.
- FileTruth.PathIsRecovered: speaks of the bytes the user-string helper returned, which may already be cut; how the helper cuts them, and the lossy decoding for display, are not modelled.
- ProbesClass.Probes.Fire: rings are fields of type `seq`; how a ring lays records out in memory is not modelled.
- Overflow of an accumulator wraps, as in a release build; a debug build would panic instead.
- MemStats.ScaleBytes: the value is a real number; the original divides a double, exactly except for byte counts above 2^53, and prints one decimal.
- Headless.RunHeadless: without a duration, termination needs a poll at which shutdown is requested; the original may run forever.
- SyscallTruth.ExactIffNoOverlap: assumes that all traced calls of the syscall have ended; `SyscallExact.ShownIsExactIff` allows calls in flight and assumes instead that every Exit has its Enter. With both untraced Enters and calls in flight, time credited to the wrong call on one side can cancel time missing on the other.
- SyscallExact.ShownIsExactIff: needs distinct timestamps per process and number, because an overlap of zero length loses no time.
