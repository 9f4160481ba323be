# A verified model of libkperf

libkperf collects hardware events on Linux: counting and sampling through the perf ring buffers, BPF counters for
processes and cgroups, Arm SPE records, syscall tracing, uprobe and kernel tracing (UTrace), symbol resolution and
export to perf.data. This project models the parts of it where several steps must agree with each other and proves
what those parts are for, over every input, every run and every interleaving. `dafny verify dfyconfig.toml` checks
the whole project.

The kernel, the clock, files and the other back ends appear as parameters: a counter reading, a published record, the
outcome of an open, the answer of a back end. They are arbitrary in every theorem.

## What is proved

* **BPF counters** (`SchedCounter`, `SchedCgroup`, with `BpfValue`). Every run of task switches, forks and
  read-and-clear, with full maps and reused pids too. The counts of a CPU are conserved, and the fork filter only ever
  names a nearest tracked ancestor or self; with fresh pids it names all of them if and only if no descendant of a
  tracked task forks after the map is used up. A key's count is exact if and only if, whenever it is charged, no
  uncounted task has run on that CPU since the last charged switch (the switch program leaves the snapshot alone for
  them), with a run that charges 150 for 50. Intervals run from one readable switch to the next. For cgroups, every
  cell equals what its intervals earned, and attribution to a cgroup is exact when its index is its own; two counter
  objects give two cgroups the same index.
* **The sampling ring** (`RingBuffer`, `RingProtocol`). The copying reader against a byte-level specification, then
  every interleaving with a producer that respects the tail: records come in order, whole and once, and one is missing
  if and only if the call that ends a read found it published but unread. A published record is given by its bytes, with
  its length in the size field. A wrapped record longer than the copy buffer is exact only up to that size.
* **Locks** (`SafeHandler`, `Seqlock`). Mutual exclusion and absence of deadlock for the per-key lock, for its set, for
  its holders and for its callers: at most one thread is between the return of tryLock and the start of releaseLock.
  Its set is the held keys if and only if no thread erases a key another one holds. The time-conversion reader never
  returns a mixture, accepts exactly the attempts no update touched and gives up exactly after 10001 refused ones; a
  user-access reader that starts inside an update can return a mixture if and only if a changed field is still to be
  stored and the update changes another field too.
* **Fixed-point time** (`FixedPoint`). Both conversions are the scaled value modulo 2^64; the second one exactly when
  the product of the remainder fits 64 bits.
* **Arm SPE** (`Framing`, `SpeDecoder`, `SpeRoundTrip`, `SpeTid`, `SpeWindow`). Every header byte, packet and bit of the
  operation mask means what its bits say; decoding undoes encoding; two reads are one read, whatever follows, exactly
  when the first leaves its slot reset, as at a record boundary; the carried-index scan gives every record of a read
  the plain search's task, except for one record; the two segments of the circular buffer are its window. A read stays
  inside the record buffer exactly when there is a slot to spare or the last record stays incomplete; a buffer of as
  many slots as the limit, as the library allocates it, overruns at the limit.
* **perf.data** (`PerfLayout`, `PerfData`, `PerfDumper`). A reader that follows the written header gets back every
  attribute with its id, every record in order and the build ids. A sample record is framed exactly when it has at most
  2728 branches.
* **UTrace** (`UTrace`). For every run of calls with back ends failing at any point, every descriptor is live or was
  closed exactly once, no session entry names a closed back end, and nothing is left once the client holds no handle.
* **Syscall tracing** (`PairGreedy`, `SyscallTrace`, `TraceAnalysis`). The pairs use each event once and are right. No
  pairing inside the stretches the scan cuts is larger; no pairing of the whole data is larger exactly when no thread
  has more pairs of a function in the whole data than in the function's stretches, as with data in list order. A
  second pass over the functions is lost. The number of pairs has a closed form in the timestamps, which also tells
  when the raw-syscall loop misses some; that loop reads past the end exactly when there are some exits but fewer than
  enters.
* **Groups, splitting, counting** (`GroupInit`, `UncoreSplit`, `UncoreSum`, `Counting`). Which event lists survive
  opening and which groups are published; splitting and aggregating uncore events gives one row per event with the sum
  over the devices of its class with its event, in the user's order exactly when no unsplit event follows two adjacent
  split ones; on any readings counts are conserved exactly when no repeated reading of a sub-event that counted meets a
  pending row; a reported count is growth times enabled over running, rounded down, and the counts add up to the
  counter.
* **Symbols** (`Modules`, `StackKey`, `StackMemo`). The module list stays sorted and the binary search is the linear
  scan; in every run of samples each gets its own stack exactly when stacks of one process with one key agree in the
  decimal widths of their addresses, as they do when all addresses have one width.

`Words`, `LittleEndian` and `Sums` hold machine words, byte encodings and sums over maps.

## Model

| member | source | states |
|---|---|---|
| `SchedCounter.Program.OnSwitch` | pmu/bpf/sched_counter.bpf.c:47-89 | the maps after a switch are the specified ones: a reading error or an untracked task changes nothing, a tracked one is charged the difference to the snapshot, and the snapshot moves |
| `SchedCounter.Program.OnNewTask` | pmu/bpf/sched_counter.bpf.c:91-110 | a child inherits its parent's key unless it already has one; a child of an untracked task gets none |
| `SchedCounter.Program.InitAccum` | pmu/bpf/perf_counter_bpf.cpp:204-235 | zero rows for the pids that have none, existing rows kept |
| `SchedCounter.Program.InitPidForEvent` | pmu/bpf/perf_counter_bpf.cpp:192-250 | rows and filter entries only where there were none; from empty maps it is a start state of a run |
| `SchedCounter.Program.ReadBpfProcess` | pmu/bpf/perf_counter_bpf.cpp:88-133 | reports the non-zero counters of each row and zeroes the row, pid after pid; unknown pids are skipped |
| `SchedCounter.FilterIsSound` | pmu/bpf/sched_counter.bpf.c:91-110 | in every run the key of a mapped pid is a nearest tracked fork ancestor of it or itself |
| `SchedCounter.FilterIsNearestTracked` | pmu/bpf/sched_counter.bpf.c:91-110 | with fresh pids, a pid is mapped to a key exactly when the key is its nearest tracked fork ancestor or itself, for all pids, if and only if no descendant of a tracked task forks once the tracked pids and the earlier such forks fill the map |
| `SchedCounter.FullMap` | pmu/bpf/sched_counter.bpf.c:103-108 | the child that finds the map full is never mapped, and its switches are not charged |
| `SchedCounter.FilterHasRows` | pmu/bpf/sched_counter.bpf.c:69-78 | in every run every key in the filter has an accumulator row, so the branch for a missing row is never taken |
| `SchedCounter.FilterIsOwners` | pmu/bpf/sched_counter.bpf.c:91-110 | in every run the filter is the inheritance of keys along the forks, up to the capacity of the map |
| `SchedCounter.ChargedExactly` | pmu/bpf/sched_counter.bpf.c:47-89 | reported plus stored for a key on a CPU is the sum of the differences charged to it, modulo 2^64, in every run |
| `SchedCounter.ExactIffUndisturbed` | pmu/bpf/sched_counter.bpf.c:69-88 | on a CPU whose counter only rises, a key's count is what the tasks mapped to it ran between readable switches if and only if at each of their charged switches no unmapped task has run a counted interval since the last charged switch |
| `SchedCounter.CountIsRanAndStray` | pmu/bpf/sched_counter.bpf.c:69-88 | in every run a key's count is what the tasks mapped to it ran plus the unmapped time in front of their intervals, modulo 2^64 |
| `SchedCounter.NoStrayWithoutStrangers` | pmu/bpf/sched_counter.bpf.c:69-88 | a CPU on which only mapped tasks run has no unmapped time |
| `SchedCounter.StrangerIsCharged` | pmu/bpf/sched_counter.bpf.c:70-73 | a run in which a task that ran 50 is charged 150, because the untracked task before it left the snapshot behind |
| `SchedCounter.Conserved` | pmu/bpf/sched_counter.bpf.c:47-89 | on each CPU, reported plus accumulated over all keys is the current snapshot minus the initial one, in every run |
| `BpfValue.ChargeFields` | pmu/bpf/sched_counter.bpf.c:69-84 | charging a difference moves counter, enabled and running time of a cell, each by its own difference modulo 2^64 |
| `SchedCgroup.KeysNeverAlias` | pmu/bpf/sched_cgroup.bpf.c:142-161 | neither the event-and-CPU key nor the cgroup-and-event key is the same for two different pairs |
| `SchedCgroup.Program.InstallEvent` | pmu/bpf/perf_counter_bpf.cpp:393-408 | installing a counter at its key leaves every other installed counter in place |
| `SchedCgroup.Program.GetCgroupIdx` | pmu/bpf/sched_cgroup.bpf.c:79-109 | the indices of the known cgroups among the first ten ancestor levels, in order |
| `SchedCgroup.Program.AddToCgroups` | pmu/bpf/sched_cgroup.bpf.c:155-171 | each listed cgroup's cell grows once per occurrence of its index; other cells, events and CPUs are unchanged |
| `SchedCgroup.Program.CgroupCount` | pmu/bpf/sched_cgroup.bpf.c:111-176 | every event is snapshotted and its difference charged to the running task's cgroups; a read error leaves the event alone |
| `SchedCgroup.Program.ReadBpfCgroup` | pmu/bpf/perf_counter_bpf.cpp:135-180 | reports the cell of every CPU at the key formed with the known events, and zeroes exactly that cell; a key outside the map reports nothing |
| `SchedCgroup.ReadKeyIff` | pmu/bpf/perf_counter_bpf.cpp:152 | that key is the one the switch program uses if and only if the index is 0 or user space knows as many events as the program was loaded with |
| `SchedCgroup.CellIsEarned` | pmu/bpf/sched_cgroup.bpf.c:111-176 | in every run, reported plus stored of a cell is the sum of the differences of its intervals, times how often the running thread has the index, modulo 2^64 |
| `SchedCgroup.ExactAttribution` | pmu/bpf/sched_cgroup.bpf.c:79-176 | with an index of its own, a cgroup's count is the sum over exactly the intervals whose task has it among the first ten levels |
| `SchedCgroup.SharedIndexIsCharged` | pmu/bpf/sched_cgroup.bpf.c:155-171 | for every configuration with a shared index, a run in which one interval of another cgroup is counted for this one |
| `SchedCgroup.Counter.RegisterCgroup` | pmu/bpf/perf_counter_bpf.cpp:410-426 | a new name gets the size of this object's own index map, a known one keeps its index |
| `SchedCgroup.TwoObjectsShareAnIndex` | pmu/bpf/perf_counter_bpf.h:58 | two cgroups registered through two objects both get index 0, so neither is alone |
| `RingBuffer.PerfMmap.CopyDataInWhileLoop` | pmu/sample_process.cpp:33-51 | the copy buffer holds the bytes of the ring slice, wrapping as often as needed, and keeps its other bytes |
| `RingBuffer.PerfMmap.PerfMmapRead` | pmu/sample_process.cpp:53-87 | the record, the new start, the copy buffer and the corruption verdict are the specified ones in every case: nothing there, bad size, in place, wrapped, too long |
| `RingBuffer.SizeFieldIsDec` | pmu/sample_process.cpp:64-65 | the size of a record is the little-endian number in bytes 6 and 7 of its header |
| `RingBuffer.PerfMmap.ReadEvent` | pmu/sample_process.cpp:89-103 | one read up to the current head, and the position is remembered |
| `RingBuffer.PerfMmap.RingbufferReadInit` | pmu/sample_process.cpp:105-126 | the jump over lost data happens if and only if more than a buffer was written |
| `RingProtocol.LostIff` | pmu/sample_process.cpp:27-31 | in every run, a record the consumer is past was not delivered if and only if a PerfMmapReadDone found it published but unread |
| `RingProtocol.ReadFinds` | pmu/sample_process.cpp:53-103 | in a reachable state a read finds the next published record whole, or nothing exactly when there is none, and never corruption |
| `RingProtocol.SizeOfRecord` | pmu/sample_process.cpp:64-65 | a published record, a 4-byte type, a 2-byte misc and a 2-byte size field followed by its body, has its own length in that field |
| `RingProtocol.StepKeeps` | pmu/sampler.cpp:288-347 | every step of producer or consumer keeps the buffer and the delivery history right |
| `RingProtocol.RunDelivers` | pmu/sampler.cpp:288-347 | in every interleaving the deliveries are published records in order, none twice, none torn, and a missing one fell between an empty read and the end of that read |
| `RingProtocol.NoGapNoLoss` | pmu/sampler.cpp:288-347 | without such a gap the caller has exactly the published records, byte for byte |
| `RingProtocol.LongWrappedRecord` | pmu/sample_process.cpp:75-84 | a wrapped record longer than the copy buffer is exact up to that size, and whole if and only if stale bytes happen to match |
| `RingProtocol.NeverOverrun` | pmu/sample_process.cpp:105-126 | with a producer that respects the tail the consumer is never more than a buffer behind |
| `RingProtocol.Drains` | pmu/sampler.cpp:288-347 | in every run a Read call during which nothing is published ends, after delivering exactly the unread records in order and skipping none |
| `RingProtocol.ConsumeFrees` | pmu/sample_process.cpp:27-31 | once the tail is published, the producer can publish a record if and only if it fits besides the unread ones |
| `SafeHandler.MutualExclusion` | util/safe_handler.h:27-68 | in every run in which no thread erases a key another one holds, no two threads hold a key, and the set is the held keys |
| `SafeHandler.CallsReturn` | util/safe_handler.h:27-48 | in every run a thread that comes back from tryLock holds the key it asked for, and one that comes back from releaseLock does not, nor is the key in the set at that moment |
| `SafeHandler.OwnedIff` | util/safe_handler.h:27-48 | a key is owned exactly when some step of the run returned from tryLock of it and no later step of the thread started releaseLock of it |
| `SafeHandler.OwnersExclude` | util/safe_handler.h:27-48 | in such a run at most one thread is between the return of its tryLock of a key and the start of its releaseLock of it |
| `SafeHandler.TestsFirst` | util/safe_handler.h:30-39 | a thread goes for the mutex only after it found the key free, and inserts only after it did so again while owning the mutex |
| `SafeHandler.SetIsHeldIff` | util/safe_handler.h:27-68 | in every run the set is the held keys throughout if and only if no thread erases a key another one holds |
| `SafeHandler.HoldersRule` | util/safe_handler.h:27-68 | where only holders release, no thread erases a key another one holds |
| `SafeHandler.NoDeadlock` | util/safe_handler.h:27-68 | whatever clients do, while a thread is inside a call some thread inside a call can move |
| `SafeHandler.StrangerReleaseBreaksExclusion` | util/safe_handler.h:44-48 | for any two threads and any key, a run in which a release by the one that does not hold it lets both hold it |
| `Seqlock.TscReadIsConsistent` | pmu/spe.cpp:114-141 | an accepted time conversion has the four fields of one published version, in every interleaving with the writer |
| `Seqlock.LockCounts` | pmu/spe.cpp:120-137 | in every run the lock word counts the beginnings and ends of updates, and the published versions are the finished updates in order |
| `Seqlock.AcceptsIff` | pmu/spe.cpp:114-141 | an attempt that loaded everything is accepted if and only if the lock was not bumped since the attempt began and, for the time conversion, was even; then what it loaded is what the page holds |
| `Seqlock.GivesUp` | pmu/spe.cpp:114-141 | the attempt counter is the number of refused attempts, and the read fails exactly when a time conversion has been refused 10001 times |
| `Seqlock.UserReadIsConsistentFromEven` | pmu/perf_counter_default.cpp:94-126 | the user-access read is one published version whenever the lock word it started from was even |
| `Seqlock.UserReadIsConsistentIfAtomic` | pmu/perf_counter_default.cpp:94-126 | it is always one published version when the writer is atomic to the reader |
| `Seqlock.UserReadTearsIff` | pmu/perf_counter_default.cpp:94-126 | in every run, a reader that starts inside an update can accept a mixture before the update ends if and only if a changed field is still to be stored and the update changes another field too |
| `Seqlock.UpdateTearsIff` | pmu/perf_counter_default.cpp:94-126 | an update can tear some reader if and only if it changes at least two fields |
| `Seqlock.UserReadCanTear` | pmu/perf_counter_default.cpp:94-126 | a run that tears, from the start |
| `FixedPoint.MulShrIsScaled` | util/read_reg.h:41-60 | the product by halves is floor(a * mult / 2^shift) modulo 2^64 for every shift up to 32 |
| `FixedPoint.MulShrMonotone` | util/read_reg.h:41-60 | later counter values give later times when the result fits |
| `FixedPoint.TscIsScaledIff` | pmu/spe.cpp:143-149 | the conversion is exact modulo 2^64 if and only if remainder times multiplier fits 64 bits |
| `FixedPoint.TscIsScaled` | pmu/spe.cpp:143-149 | with shift at most 32 it always fits, so the conversion is always exact |
| `FixedPoint.TscMonotone` | pmu/spe.cpp:143-149 | later cycles give later times when the result fits |
| `FixedPoint.ConversionsAgree` | pmu/spe.cpp:143-149 | both conversions agree on every shift they share |
| `SpeDecoder.HeaderPatterns` | pmu/decoder/arm_spe_decoder.cpp:21-148 | the header ranges used to tell packets apart are the shifts and masks of the source |
| `SpeDecoder.KindPatterns` | pmu/decoder/arm_spe_decoder.cpp:69-148 | what kind of packet each of the 256 header bytes starts, from its bits |
| `SpeDecoder.LengthPatterns` | pmu/decoder/arm_spe_decoder.cpp:41-148 | a packet is one byte long, or has as many payload bytes as bits 4 and 5 of its header say |
| `SpeDecoder.EndHeaders` | pmu/decoder/arm_spe_decoder.cpp:319 | exactly the headers 1 and 0x71 end a record |
| `SpeDecoder.FixupTopByte` | pmu/decoder/arm_spe_decoder.cpp:150-172 | the top byte becomes 0xFF exactly for addresses whose bits 55 to 52 are set, the rest is kept |
| `SpeDecoder.OpMaskBits` | pmu/decoder/arm_spe_decoder.cpp:231-265 | each bit of an operation mask from the bits of header and payload |
| `SpeDecoder.PacketFields` | pmu/decoder/arm_spe_decoder.cpp:174-301 | which field each packet sets, to what, and that it keeps all others |
| `SpeDecoder.StorePkt` | pmu/decoder/arm_spe_decoder.cpp:303-329 | one packet fills the current slot, and a packet that ends a record opens the next one; out of range exactly when that slot does not exist |
| `SpeDecoder.SpeGetRecord` | pmu/decoder/arm_spe_decoder.cpp:303-329 | the call stays inside the record buffer if and only if there is a slot to spare, or there is room and fewer packets end a record than the room; then the buffer, position and room are those of the packets in the bytes |
| `SpeDecoder.ExactBufferOverruns` | pmu/spe.cpp:637 | a buffer of as many slots as the limit is overrun by that many one-byte records, and holds one fewer |
| `SpeRoundTrip.PacketsConcat` | pmu/decoder/arm_spe_decoder.cpp:99-148 | the packets of two byte strings of whole packets are the packets of both together |
| `SpeRoundTrip.TwoCallsAreOne` | pmu/decoder/arm_spe_decoder.cpp:303-329 | two calls cut at a record boundary leave the records, position and room of one call |
| `SpeRoundTrip.DecodeOfEncode` | pmu/decoder/arm_spe_decoder.cpp:99-329 | every encoded sample that fits comes back in its own slot, in order, and other slots are untouched |
| `SpeRoundTrip.AbsentFields` | pmu/decoder/arm_spe_decoder.cpp:303-326 | a record without a context, data source or operation packet has -1 there, and always -1 for the process |
| `SpeRoundTrip.CutAgreesIff` | pmu/decoder/arm_spe_decoder.cpp:303-329 | two calls leave what one call leaves, for every continuation, if and only if the first leaves its slot freshly reset |
| `SpeRoundTrip.CutInsideRecord` | pmu/decoder/arm_spe_decoder.cpp:303-310 | a cut inside a record loses the thread id read before it |
| `SpeTid.SetTidByTimestamp` | pmu/spe.cpp:485-524 | the slots in the range are the specified assignment, the carried index too, all other slots unchanged |
| `SpeTid.ScanIsNaive` | pmu/spe.cpp:485-524 | for records in time order, one without an id gets the first later switch, else the last switch-out, if and only if it is not the one that exhausts the scan, which keeps -1; switch times need not be sorted |
| `SpeTid.RawOrderIsOrder` | pmu/spe.cpp:489-492 | records whose counter does not go back, and whose times fit 64 bits, are in order of time |
| `SpeTid.ExhaustsOnce` | pmu/spe.cpp:512-520 | at most one record per read exhausts the scan |
| `SpeTid.AssignConcat` | pmu/spe.cpp:485-524 | assigning two stretches with the index carried over is assigning both at once |
| `SpeWindow.SizeOfWindow` | pmu/spe.cpp:546-558 | the size computed from the two offsets is the number of bytes written, up to a full buffer |
| `SpeWindow.SegmentsAreWindow` | pmu/spe.cpp:560-602 | the one or two segments are exactly the circular window of bytes |
| `SpeWindow.TwoSegmentsAreOne` | pmu/spe.cpp:580-594 | decoding and naming two segments cut at a record boundary gives the records, room and index of one read of the linear window |
| `SpeWindow.FitsTwice` | pmu/spe.cpp:580-589 | two segments stay inside the record buffer if and only if the window they make up does |
| `SpeWindow.SpeCore.CoreAuxData` | pmu/spe.cpp:526-544 | one segment is decoded and its new records named, earlier slots unchanged; without time conversion it is decoded only; out of range exactly when its records do not fit |
| `SpeWindow.SpeCore.CoreSpeData` | pmu/spe.cpp:560-602 | a read of the AUX buffer leaves what one read of the circular window leaves, and remembers the head; it stays in range if and only if the records of the window fit and, when the window wraps, times can be converted |
| `SpeWindow.WindowIsNamed` | pmu/spe.cpp:483-544 | after a read, every record of its bytes that carries no thread id has the plain search's task, except the one record that exhausts the scan |
| `PerfLayout.UnpackPack` | pmu/dump_perf_data.cpp:40-86 | the fields of a packed structure are read back, whatever follows it |
| `PerfLayout.RecordsOfConcat` | pmu/dump_perf_data.cpp:176-206 | records whose headers give their own size are cut apart again |
| `PerfLayout.ReadEntryBytes` | pmu/dump_perf_data.cpp:289-298 | a branch entry is read back with one-bit flags and a 16-bit cycle count, whatever was in the other bits |
| `PerfLayout.WordKeeps` | pmu/dump_perf_data.cpp:294-297 | the bits of an entry that no field covers keep what was in the buffer |
| `PerfLayout.ReadSampleBytes` | pmu/dump_perf_data.cpp:267-301 | a written sample is read back: address if it had one, ids, time, period and every branch |
| `PerfLayout.SampleFramedIff` | pmu/dump_perf_data.cpp:274-277 | the size field of a sample record gives its size if and only if it has at most 2728 branches |
| `PerfLayout.ReadHeaderBytes` | pmu/dump_perf_data.cpp:51-59 | the file header is read back, with no event types and no features beyond the first word |
| `PerfLayout.StartsWithMagic` | pmu/dump_perf_data.cpp:136-138 | the file starts with the characters PERFILE2 |
| `PerfData.WriteFixed` | pmu/dump_perf_data.cpp:274-287 | the fixed part of a sample written in place over an uninitialised buffer; without a symbol the address bytes stay |
| `PerfData.WriteEntries` | pmu/dump_perf_data.cpp:289-298 | the branch entries written in place, each over the bits already there |
| `PerfData.WritePmuData` | pmu/dump_perf_data.cpp:267-301 | exactly the bytes of the record change, and the offset moves by the 16-bit size |
| `PerfData.FillsIff` | pmu/dump_perf_data.cpp:256-301 | the records fill the buffer if and only if each has at most 2728 branches; they never overrun it |
| `PerfData.Fill` | pmu/dump_perf_data.cpp:184-196 | when they all fit, the buffer is a sequence of records that read back as the samples with their event numbers; the events looked up are entered in the table and no number changes |
| `PerfDumper.LastIndex` | pmu/dump_perf_data.cpp:520-526 | the number of an event is its last position in the list |
| `PerfDumper.PrepareEvt2Id` | pmu/dump_perf_data.cpp:520-526 | exactly the listed events are numbered, each by its last position |
| `PerfDumper.NumberNamesEvent` | pmu/dump_perf_data.cpp:285 | a sample's number leads back to its event's name if and only if the event was listed; any other sample carries 0 |
| `PerfDumper.Dumper.WriteEvtIds` | pmu/dump_perf_data.cpp:528-537 | every id is at the offset remembered for its event, whatever the order of the map |
| `PerfDumper.Dumper.WriteFileAttrs` | pmu/dump_perf_data.cpp:539-549 | one attribute per listed event, pointing at the event's id |
| `PerfDumper.Dumper.Start` | pmu/dump_perf_data.cpp:94-174 | succeeds if and only if there are events and a period; then ids, attributes and synthesized records are in place and the data section starts at the file position |
| `PerfDumper.Dumper.Dump` | pmu/dump_perf_data.cpp:176-206 | the data section grows by the metadata and by the samples, ends at the file position, and stays a sequence of records when the samples fit; each new record reads back as its sample |
| `PerfDumper.Dumper.End` | pmu/dump_perf_data.cpp:208-240 | the finished file is header, ids, attributes, data, feature section and build ids, contiguous |
| `PerfDumper.BuildIdsRead` | pmu/dump_perf_data.cpp:208-240 | the feature bit of the header and the section after the data lead a reader to exactly the build ids written |
| `PerfDumper.FinishedReads` | pmu/dump_perf_data.cpp:94-240 | following the written header gives every attribute with its event's number, every record in order and the build ids |
| `PerfDumper.Record` | pmu/dump_perf_data.cpp:94-240 | for Start, any batches and End: a reader of the file sees every event with its number, then the synthesized records, each batch's metadata and samples in order, and the build ids |
| `UTrace.Sessions.OpenNative` | pmu/trace.cpp:568-638 | at every point of failure the descriptor taken is closed and its probes removed |
| `UTrace.Sessions.OpenJava` | pmu/trace.cpp:640-660 | a failed attach closes its descriptor, success records a Java session |
| `UTrace.Sessions.OpenJvm` | pmu/trace.cpp:676-714 | succeeds if and only if the parent descriptor and Java open; a native failure is tolerated; failure restores every session table |
| `UTrace.Sessions.OpenKernel` | pmu/trace/kernel_trace_manager.cpp:51-139 | succeeds only while no kernel session holds the trace lock; failure may use up a number but opens nothing |
| `UTrace.Sessions.Open` | pmu/trace.cpp:781-875 | which requests and answers succeed, exactly; every failure gives back what it took, success is one more handle with a user session, a kernel session or both, and no other session changes |
| `UTrace.Sessions.Enable` | pmu/trace.cpp:1067-1101 | closes exactly the native back end of a JVM session that fails, and the kernel back end only after the user session started |
| `UTrace.Sessions.Disable` | pmu/trace.cpp:1103-1138 | closes exactly the back ends that fail, the kernel one last and whatever the user part says |
| `UTrace.Sessions.Read` | pmu/trace.cpp:1140-1203 | a Java failure ends the read before the native back end is touched; failing optional back ends are closed |
| `UTrace.Sessions.CloseUser` | pmu/trace.cpp:763-779 | every descriptor of the session is closed once, and no other |
| `UTrace.Sessions.Close` | pmu/trace.cpp:1205-1225 | closing a held handle closes exactly the back ends still live in that session; a kernel-only session goes before a user session of the same number |
| `UTrace.Perform` | pmu/trace.cpp:781-1225 | one call of a client that closes only handles it holds keeps the ledger and does to the sessions exactly what that call is for |
| `UTrace.Run` | pmu/trace.cpp:781-1225 | the ledger and the client's handles are right after any calls and any back-end answers, and from each moment of the run to the next the sessions change as the call between them says |
| `UTrace.ClosedAtMostOnce` | pmu/trace.cpp:451-525 | no descriptor is closed twice and no live one was closed |
| `UTrace.EntriesAreLive` | pmu/trace.cpp:676-714 | no entry of either session map names a closed back end |
| `UTrace.AllClosed` | pmu/trace.cpp:1205-1225 | when the client holds no handle, every descriptor ever handed out was closed exactly once and no probe, Java session, kernel session or map entry is left |
| `UTrace.SharedExactly` | pmu/trace.cpp:869-875 | two live sessions have the same handle if and only if one is kernel-only and numbered like a user session |
| `UTrace.HandlesCollide` | pmu/pmu_list.cpp:691-711 | a kernel-only open followed by a native one returns handle 1 twice |
| `PairGreedy.PairUp` | pmu/pmu_analysis.cpp:271-281 | the two-index loop collects the greedy pairs |
| `PairGreedy.GreedyPairs` | pmu/pmu_analysis.cpp:271-281 | every pair is an enter and a strictly later exit, and no event is in two pairs |
| `PairGreedy.GreedyIsMaximum` | pmu/pmu_analysis.cpp:271-281 | no pairing of enters with strictly later exits has more pairs |
| `PairGreedy.PairUpRaw` | pmu/pmu_analysis.cpp:201-220 | no exits, no pairs; the raw loop reads past the exit list if and only if there are some exits but fewer than enters; else it pairs with the first exits only |
| `PairGreedy.MostPairs` | pmu/pmu_analysis.cpp:271-281 | the number of pairs the plain loop finds is the least, over all positions in the enter list, of the enters before it plus the exits later than the enter at it |
| `PairGreedy.RawMissesIff` | pmu/pmu_analysis.cpp:209-220 | with at least as many exits as enters the raw loop misses pairs if and only if that least count, taken from the timestamps before the call, is larger over all exits than over the first ones it looks at |
| `PairGreedy.RawMissesPair` | pmu/pmu_analysis.cpp:209-220 | with more exits it can miss a pair the plain loop finds |
| `SyscallTrace.PairThread` | pmu/pmu_analysis.cpp:256-282 | one thread's enters and exits of a function are separated, sorted by time and paired |
| `SyscallTrace.StrStrIsFirst` | pmu/pmu_analysis.cpp:113-132 | a prefix is looked for at its first occurrence anywhere in the event name, and missed exactly when there is none |
| `TraceAnalysis.AnalyzeTraceData` | pmu/pmu_analysis.cpp:235-283 | the items use no event twice and are a right pairing of the data; no pairing inside the stretches is larger; no pairing of the whole data is larger if and only if every thread has as many pairs of every function in its stretches as in the whole data |
| `TraceAnalysis.MaximumIff` | pmu/pmu_analysis.cpp:235-283 | the largest pairing of the data has as many pairs as all threads and functions together allow |
| `TraceAnalysis.LostIff` | pmu/pmu_analysis.cpp:247-254 | the stretches hold as many pairs as the whole data if and only if no thread and function loses one, repeated functions included |
| `TraceAnalysis.InOrderIsMaximum` | pmu/pmu_analysis.cpp:247-254 | with all events of the first function, then all of the second and so on, every pairing of the data is inside the stretches |
| `TraceAnalysis.EventNames` | pmu/pmu_analysis.cpp:113-132 | the enter and exit events of a system call whose name has no colon are taken for just that |
| `TraceAnalysis.SecondPassIsLost` | pmu/pmu.cpp:824-860 | two passes over two functions give two items where four pairs exist |
| `TraceAnalysis.TracedTwice` | pmu/pmu.cpp:824-860 | the events of any two system calls traced twice are such data |
| `TraceAnalysis.RightItemMeans` | pmu/pmu_analysis.cpp:113-159 | an item joins an enter and a strictly later exit of one thread and one listed function, with their times and the milliseconds between them |
| `GroupInit.StateMeans` | pmu/evt_list.h:45-50 | the two-bit state says all uncore, mixed, no uncore or empty, independently of the order |
| `GroupInit.Scan` | pmu/pmu_list.cpp:184-237 | the first pass opens ungrouped lists and leaders, records children in order, marks exactly the missing ones, and ends at a fatal error |
| `GroupInit.JoinGroup` | pmu/pmu_list.cpp:248-285 | the children of one group are opened in the group if and only if its leader opened and it does not mix uncore events |
| `GroupInit.JoinAll` | pmu/pmu_list.cpp:239-289 | the second pass, with the groups in any order |
| `GroupInit.Init` | pmu/pmu_list.cpp:308-368 | succeeds if and only if nothing fails fatally, no group is all uncore and something opened; then exactly the opened lists survive in order, and exactly the groups with an opened leader and a child opened in the group are published |
| `GroupInit.ValuesAreNamed` | pmu/evt_list_default.cpp:178-193 | the members attached to a published group's leader, in order, are the leader and the published children, so value k has the name of child k-1 |
| `UncoreSplit.AppendChildEvents` | pmu/pmu.cpp:564-592 | the matching uncore events enter the map unless already there, and the answer says whether there were any |
| `UncoreSplit.MatchesIff` | pmu/pmu.cpp:566-585 | an event written class/event/ matches an uncore event written device/event/ if and only if the device starts with the class and the events are the same |
| `UncoreSplit.IsAggregateIff` | pmu/pmu.cpp:604-608 | an event written device/event/ is an aggregate if and only if the device is not empty and does not end in a digit |
| `UncoreSplit.PlainStandsForItself` | pmu/pmu.cpp:604-618 | an event without a slash is never split |
| `UncoreSplit.SplitUncoreEvent` | pmu/pmu.cpp:595-622 | the map has exactly the claimed names, each with the first event that claims it |
| `UncoreSplit.GenerateSplitList` | pmu/pmu.cpp:624-652 | every generated name has a parent entry, blocks follow the events in order, and every name of a block is listed once |
| `UncoreSplit.SplitAndAggregate` | pmu/pmu.cpp:564-652 | without repeated or overlapping events, split, read once and aggregate gives one row per event with the sum of the counts it stands for, in the user's order if and only if no unsplit event comes after two adjacent split ones |
| `UncoreSplit.RowIsDeviceSum` | pmu/pmu.cpp:564-652 | among built names, the row of an event class/event/ is the sum of the counts of exactly the devices of that class with that event |
| `UncoreSum.Aggregate` | pmu/pmu_list.cpp:963-1002 | event by event, the rows report all counts read except those of dropped readings; with readings of an event together, one row per event in the order of reading unless an unsplit event follows two adjacent split ones |
| `UncoreSum.ConservedIff` | pmu/pmu_list.cpp:984-996 | all counts are conserved if and only if no reading that counted repeats a sub-event while its event has a pending row |
| `UncoreSum.OneRowEach` | pmu/pmu_list.cpp:963-1002 | then exactly the events read have a row, one each, and its count is the sum over its sub-events |
| `Counting.Counter.CountValueToData` | pmu/perf_counter_default.cpp:221-259 | an overflow is reported if and only if something went backwards, and then nothing changes; else the growth times enabled over running, rounded down, is reported and accumulated, with user access the growth itself, and 0 if the event did not run |
| `Counting.ReportedBounds` | pmu/perf_counter_default.cpp:236-243 | in whole numbers: reported times running is at most growth times enabled, and one more would exceed it |
| `Counting.Counter.ReadGroupEvents` | pmu/perf_counter_default.cpp:180-219 | succeeds if and only if nothing went backwards; all members are scaled by the same old times, which move on only on success |
| `Counting.CountRun` | pmu/perf_counter_default.cpp:401-420 | after Enable, the reads all succeed if and only if no member and no time ever goes backwards; then the reported counts add up, member by member, to the run's sum |
| `Counting.GroupSharesRatio` | pmu/perf_counter_default.cpp:202-218 | the counts reported for two members of one read keep the order and the proportion of their growths, up to what rounding takes away |
| `Counting.UserSumIsValue` | pmu/perf_counter_default.cpp:233-235 | with user access the reported counts add up to the counter's value |
| `Counting.SumIsValueIff` | pmu/perf_counter_default.cpp:236-243 | without multiplexing they add up to the value if and only if it only grows while the event runs, and never to more |
| `Counting.SumIsBelowEstimate` | pmu/perf_counter_default.cpp:239-242 | with multiplexing the sum is below the sum of growth times enabled over running, by less than one for each read |
| `Modules.AddrToModule` | symbol/symbol_resolve.cpp:571-595 | on a sorted list the binary search finds what a linear scan for the last start at or below the address finds |
| `Modules.ModuleList.FindDiffMaps` | symbol/symbol_resolve.cpp:1250-1265 | the new modules whose start is not in the list, in order |
| `Modules.ModuleList.UpdateModule` | symbol/symbol_resolve.cpp:466-523 | the list stays sorted, keeps every module, and its starts become the union of old and new |
| `Modules.ModuleList.InsertModule` | symbol/symbol_resolve.cpp:917-941 | a module of a new name is inserted in order, a known name changes nothing |
| `Modules.Apply` | symbol/symbol_resolve.cpp:466-595 | any sequence of both updates and of lookups keeps the list sorted and loses no start, and every lookup answers what a linear scan of the list of the moment would |
| `StackKey.HashStr` | symbol/symbol_resolve.cpp:219-226 | the loop computes the key |
| `StackKey.KeyInjective` | symbol/symbol_resolve.cpp:219-226 | among stacks whose addresses all have one decimal width the key tells the stack |
| `StackKey.SameKeyIff` | symbol/symbol_resolve.cpp:219-226 | two stacks with one key are the same if and only if they have as many addresses with as many digits each |
| `StackKey.KeysCollide` | symbol/symbol_resolve.cpp:219-226 | two stacks of different widths with the same key |
| `StackMemo.StoreStack` | pmu/sampler.cpp:266-273 | the valid addresses, in reverse |
| `StackMemo.MarkersAre` | util/common.h:41-46 | the addresses left out are the seven context markers of the kernel |
| `StackMemo.StoreTop` | pmu/sampler.cpp:258-265 | without call stacks, the first valid address if there is one |
| `StackMemo.AddDoubleLinkedTail` | util/linked_list.h:52-64 | the node is last, next and prev stay consistent, and no address changes |
| `StackMemo.BuildList` | symbol/symbol_resolve.cpp:607-618 | a new list that spells the stack backwards, linked both ways |
| `StackMemo.StackTable.StackToHash` | symbol/symbol_resolve.cpp:597-625 | the list of the stack first cached under the key, building and caching it if there is none |
| `StackMemo.CachedIsRight` | symbol/symbol_resolve.cpp:597-625 | the returned list spells the stack if and only if its widths are those of the stack first cached under the key |
| `StackMemo.SampleStack` | pmu/sampler.cpp:246-273 | walked by next, a sample's list spells its valid addresses in the kernel's order if and only if their widths are those of the stack first cached under their key |
| `StackMemo.SampleRun` | symbol/symbol_resolve.cpp:597-625 | from an empty table, every sample of a run gets its own stack if and only if its widths are those of the first sample with its process and key |
| `StackMemo.AllRightIff` | symbol/symbol_resolve.cpp:597-625 | all samples of a run get their own stacks if and only if those of one process with one key agree in their widths |
| `StackMemo.OneWidthIsRight` | symbol/symbol_resolve.cpp:597-625 | with addresses of one width every sample gets its own stack |
| `StackMemo.WrongStack` | symbol/symbol_resolve.cpp:603-606 | a second stack that gets the list of the first |

## Left out

- Opening perf events, ioctl, mmap, epoll, resource limits, /proc and /sys, loading BPF objects, attaching to a JVM, tracefs: their results are parameters.
- Attribute checking (`CheckAttr` and helpers in pmu/pmu.cpp), error texts and tables: each check is one branch.
- pmu/pmu_metric.cpp, the pfm event tables, the Go, Java and Python bindings: configuration and conversion code.
- ELF, DWARF and assembly lookup behind `MapAddr`: list nodes carry addresses instead of symbols.
- SchedCounter.Program.InitAccum: the capacity of the BPF maps and failed updates are not modelled.
- SchedCounter.Program.InitPidForEvent: the capacity of the BPF maps and failed updates are not modelled.
- SchedCounter.ExactIffUndisturbed: the counter of the CPU does not wrap at 2^64 during the run; CountIsRanAndStray holds without that.
- SchedCounter.Program.ReadBpfProcess: the triggered switch before a read is a Switch event of the run; percentages are not modelled.
- SchedCgroup.CellIsEarned: reads use the switch program's key (ReadKeyIff says when they do).
- SchedCgroup.Program.ReadBpfCgroup: the set of cgroups already read in one pass, which skips a second event of the same cgroup, and lookup errors are not modelled.
- SchedCgroup.Counter.RegisterCgroup: failures of the cgroup id lookup and of the map update are not modelled.
- SchedCgroup.ExactAttribution: an index of its own is a condition, because the index map belongs to one counter object (pmu/bpf/perf_counter_bpf.h:58) while the program's map is shared.
- RingBuffer.PerfMmap.ReadEvent: buffers in overwrite mode are not modelled.
- RingBuffer.PerfMmap.RingbufferReadInit: overwrite mode and the flush flag are not modelled.
- RingProtocol.RunDelivers: the producer publishes whole 8-byte-aligned records and respects the tail; positions do not wrap at 2^64.
- Seqlock.TscReadIsConsistent: fewer than 2^32 updates of the lock word happen in a run; memory is sequentially consistent.
- SpeWindow.SpeCore.CoreSpeData: what a write behind the record buffer or through a null pointer does to other memory; the time conversion has one outcome for both segments of a read.
- PerfDumper.Dumper.WriteEvtIds: failed and short writes are not modelled.
- PerfDumper.Dumper.WriteFileAttrs: failed and short writes are not modelled.
- PerfDumper.Dumper.Start: failed and short writes are not modelled.
- PerfDumper.Dumper.Dump: failed and short writes are not modelled.
- PerfDumper.Dumper.End: failed and short writes are not modelled; build-id records are opaque blocks.
- PerfDumper.Record: failed and short writes, and the contents of metadata, synthesized and build-id records, which are opaque blocks; an event attribute is an opaque block of its size.
- UTrace.Sessions.Read: the trace data itself, its merging and its time window.
- UTrace.Run: descriptor counters do not wrap; another process holding the trace lock is one of the ways a kernel open fails.
- PairGreedy.PairUpRaw: of the raw-syscall analysis only the pairing loop is modelled, not the grouping by thread and system call.
- TraceAnalysis.AnalyzeTraceData: the comparison with all pairings is for data in which no event is named after two listed functions, which would need a name with both prefixes; std::sort may order equal times differently; items carry positions instead of copies of comm, pid, cpu and stack.
- GroupInit.Init: an event list opens or fails as a whole; failures of single threads inside a list are not modelled.
- UncoreSplit.GenerateSplitList: the other attributes of an event, which are copied to its sub-events.
- UncoreSum.Aggregate: counts are unbounded; rows carry event, CPU and count only.
- Counting.Counter.CountValueToData: the percentage of the time the event ran is not reported; ratios are exact reals instead of doubles.
- Counting.SumIsBelowEstimate: ratios are exact reals instead of doubles.
- Counting.Counter.ReadGroupEvents: the user-access read while counting is disabled, which repeats the last values, is not modelled.
- Modules.Apply: loading the ELF files of new modules and the lock around the update.
