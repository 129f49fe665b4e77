# Verified model of the robot edge runtime

Dafny models of the parts of the runtime whose correctness depends on interleavings, parsing, numerics
or long runs, with proofs of what they promise. One module per component:

| file | component |
|---|---|
| `RingBuffer.dfy` | the lock-free single-producer single-consumer ring, split into its atomic actions |
| `ThreadPool.dfy` | the drop-oldest thread pool, `wait` and the draining destructor |
| `RecordQueue.dfy` | trigger handler, cooldown and background recorder |
| `Octal.dfy`, `TarHeader.dfy`, `TarArchive.dfy` | microtar: octal fields, header and checksum, writer, reader and search |
| `CpuAffinity.dfy` | printing and parsing CPU sets |
| `Bernstein.dfy`, `DeCasteljau.dfy` | Bernstein polynomials and the de Casteljau curve against them |
| `FileCache.dfy`, `StreamingWriter.dfy`, `EventLoop.dfy` | file cache, chunking writer and timed tasks of `async_io.cpp` |
| `MemoryPool.dfy`, `InferenceBuffers.dfy`, `PairInterleaving.dfy` | block pool, paired pools with their move-only owners, and pair operations that overlap |
| `Common.dfy` | definitions several modules share |
| `StateMachine.dfy` | the control state machine |
| `Reachability.dfy`, `Mission.dfy` | path matching, and waypoint loops with the collection gate |
| `Experience.dfy`, `Feedback.dfy` | stored experiences, their buffer, reward statistics and replanning |

Each stateful component has a value-level state with one function per operation and a class with the
source's fields whose methods are proved to compute those functions. The results are lemmas about those
functions and, for components that run on, about `Run`, an arbitrary sequence of operations. Threads are
modelled as sequences of atomic steps: a step whose thread is elsewhere is a no-op, so every sequence is an interleaving and every interleaving is a
sequence. Clocks, sensors, allocators, callbacks, disk space and file contents are parameters.

Conventions: `size_t` counters and 32-bit positions wrap explicitly where the source relies on their
width; floating point is modelled by exact reals, and by infinities and
not-a-number where the source can divide by zero; condition variables are the guards of steps.

Where the code differs from its comments or from what a caller would expect, the model follows the code
and the difference is stated as a lemma:

- `StreamingFileWriter` starts from a buffer of chunk_size zero bytes (`ClosedFile`).
- `readFile` caches data it has already moved away (`ReadFilePoisonsIff`).
- `mtar_find` need not return on a stream whose headers form a loop (`FindReturnsIff`, `LoopingStream`).
- A read of nothing after the end of a file starts the file again (`EntryReadsBackIff`), and a mode of more
  than seven digits need not come back (`HeaderRoundTripIff`, `EightDigitModeIsLost`).
- A name or linkname of 100 bytes without a NUL, which ustar permits, is copied past the end of the header's
  array (`OverrunIff`, `FindReturnsIff`).
- The empty CPU set does not survive printing and parsing (`NoneDoesNotParse`).
- The open curve is empty for fewer than 2 * degree points (`NoSegmentsIff`) and otherwise stops short of
  the last point (`CurveStopsShort`); the closed curve is defined only for exactly degree points
  (`ClosingIsDefinedIff`). The number of samples wraps at 2^32 (`SamplesExactIff`).
- A range that ends at the largest int overflows the parser's counter (`TokenOfRange`), and a thread pool
  without workers pops an empty queue (`PopsEmptyIff`).
- `size` of the ring is not a snapshot (`SizeAnswers`, `SizeExactIff`, `SizeCanBeWrong`).
- A double `release` makes the block counter wrong (`ReleaseCountsIff`), and a failed allocation of
  the output buffer can leak the state buffer (`LeaksIff`, `LossesStay`).
- `releaseBuffers` gives the state buffer back first, so a thread that acquires between its halves can be
  refused an output buffer and lose a state buffer for good (`OutputFailsIff`, `OverlapCanThrow`,
  `ThrownIsLost`).
- A shutdown request is ignored except in IDLE and ERROR (`ShutdownObeyedIff`), and with the registered
  callbacks navigation never reaches the upload (`UploadReachableIff`, `NavigationOnlyEndsInError`).
- A cost without an attempt makes the average reward no number for good (`AverageIsNumberIff`), the
  reported minimum reward starts from 0 (`MinimumIsARewardIff`), and the "most significant" change
  handed to the replan callback is merely the first (`FirstIsMostSevereIff`).
- An experience is meant to hold a state and the next one, but a given state is stored as both, and where a position
  stands in for the state the next one cannot be read (`NextStateIsState`, `NextStateReadableIff`). Numbers
  are stored in steps of 1/32767.5, not 2/32767 (`QuantizeRoundTrip`).
- A clock set back ends the cooldown (`AcceptedIff`, `ClockSetBackEndsCooldown`).

Run `dafny verify dfyconfig.toml` to check the project.

## Model

| member | source | states |
|---|---|---|
| `RingBuffer.RingIsFifo` | src/common/performance_utils.h:353-379 | for every interleaving of the atomic actions of one producer and one consumer, the values delivered followed by the cells between the indices are the values accepted, in order; at most Capacity - 1 are queued |
| `RingBuffer.ActionRefinesFifo` | src/common/performance_utils.h:353-379 | every atomic action is one enqueue or one dequeue of a bounded FIFO, or leaves it unchanged; the two index stores are where the queue changes |
| `RingBuffer.PushFailsIffFull` | src/common/performance_utils.h:356-360 | `push` gives up exactly when the queue is full at its load of `read_idx_` |
| `RingBuffer.PopFailsIffEmpty` | src/common/performance_utils.h:369-373 | `pop` gives up exactly when the queue is empty at its load of `write_idx_` |
| `RingBuffer.NoSharedCell` | src/common/performance_utils.h:362-375 | the cell about to be written is none of the queued cells, so the two threads never use one cell at once |
| `RingBuffer.PushTakesTurns` | src/common/performance_utils.h:353-365 | an action of a `push` does nothing unless it is the next of its thread, which it takes one further, back to the start when full or published, with the same value; it never moves the consumer |
| `RingBuffer.PopTakesTurns` | src/common/performance_utils.h:367-379 | the same for `pop` |
| `RingBuffer.RunKeepsInv` | src/common/performance_utils.h:345-379 | the invariant of the ring and of both threads' locals holds after every interleaving, stale index loads and wrap-around included |
| `RingBuffer.StoreIndexEnqueues` | src/common/performance_utils.h:363 | publishing the next write index appends exactly the stored cell to the queue, across the wrap |
| `RingBuffer.StoreIndexDequeues` | src/common/performance_utils.h:376-377 | publishing the next read index removes exactly the first cell |
| `RingBuffer.SizeAnswers` | src/common/performance_utils.h:386-390 | `size` called from outside gives the pushes published before its first load less the pops published before its second, modulo the capacity, whatever happens in between |
| `RingBuffer.SizeExactIff` | src/common/performance_utils.h:386-390 | it is the length at the second load exactly when the pushes published between the loads are a multiple of the capacity, and the length at the first exactly when the pops are |
| `RingBuffer.SizeExactWhenStill` | src/common/performance_utils.h:386-390 | so it is right when no push, or no pop, is published between the loads |
| `RingBuffer.SizeCanBeWrong` | src/common/performance_utils.h:386-390 | an observer of an empty ring can be told it is full, after one push and one pop between the loads |
| `RingBuffer.LockFreeRingBuffer.LoadWriteForPush` | src/common/performance_utils.h:353-354 | the first load of `push`, as one action |
| `RingBuffer.LockFreeRingBuffer.LoadReadForPush` | src/common/performance_utils.h:355-360 | the second load and the full test |
| `RingBuffer.LockFreeRingBuffer.StoreCell` | src/common/performance_utils.h:362 | the store into the cell |
| `RingBuffer.LockFreeRingBuffer.StoreWriteIndex` | src/common/performance_utils.h:363-364 | the release store of the write index |
| `RingBuffer.LockFreeRingBuffer.LoadReadForPop` | src/common/performance_utils.h:367-368 | the first load of `pop` |
| `RingBuffer.LockFreeRingBuffer.LoadWriteForPop` | src/common/performance_utils.h:369-373 | the second load and the empty test |
| `RingBuffer.LockFreeRingBuffer.ReadCell` | src/common/performance_utils.h:375 | the read of the cell |
| `RingBuffer.LockFreeRingBuffer.StoreReadIndex` | src/common/performance_utils.h:376-378 | the release store of the read index |
| `RingBuffer.LockFreeRingBuffer.Push` | src/common/performance_utils.h:353-365 | undisturbed, appends the value, or refuses when full and changes nothing |
| `RingBuffer.LockFreeRingBuffer.Pop` | src/common/performance_utils.h:367-379 | undisturbed, removes and returns the oldest value, or refuses when empty |
| `Octal.ScanPrinted` | 3rdparty/microtar/microtar.c:106-109 | `sscanf` "%o" of a number below 2^32 that `sprintf` printed in octal, padded or not, gives it back |
| `Octal.ScanReads` | 3rdparty/microtar/microtar.c:100-109 | the grammar of `sscanf` "%o": white space, a sign or none, octal digits read into saturating 64 bits, negated there behind a minus and cut to 32; without a digit nothing is assigned |
| `Octal.DigitsLength` | 3rdparty/microtar/microtar.c:123-126 | a number has at most k octal digits exactly when it is below 8^k |
| `Octal.ValueAppend` | 3rdparty/microtar/microtar.c:106 | digits read on from one field into the next denote value * 8^n + value |
| `Octal.LeadingDigits` | 3rdparty/microtar/microtar.c:123 | the first k digits of a number denote it divided by 8 as often as digits are lost |
| `Octal.LeadingIsQuotient` | 3rdparty/microtar/microtar.c:123 | which is the quotient by that power of 8 |
| `TarHeader.HeaderSumIsUstar` | 3rdparty/microtar/microtar.c:49-60 | the checksum is the ustar rule: the sum of all header bytes with the checksum field read as spaces |
| `TarHeader.HeaderComesBack` | 3rdparty/microtar/microtar.c:90-137 | for every header the C types allow, parsing what was written succeeds and gives back owner, size, mtime and names; the mode is read from its field as the owner left it, and the type as a signed character |
| `TarHeader.HeaderRoundTripIff` | 3rdparty/microtar/microtar.c:90-137 | so the header comes back exactly when the mode is below 8^7, or, with d its digits and o those of the owner, mode / 8^(d-8) * 8^o + owner is the mode modulo 2^32, and the type is a signed character |
| `TarHeader.EightDigitModeIsLost` | 3rdparty/microtar/microtar.c:90-137 | every header with 8^7 <= mode < 8^8 and an owner of one or two digits reads back with the mode times 8 or 64 plus the owner, and so never comes back |
| `TarHeader.ModeLikeOwnerSurvives` | 3rdparty/microtar/microtar.c:90-137 | a mode of eleven digits that equals the owner does come back |
| `TarHeader.OverrunIff` | 3rdparty/microtar/microtar.c:90-115 | `raw_to_header` leaves its arrays exactly when the record is no null record and either has no NUL from the checksum on, or has a good checksum and a name or linkname that fills its 100 bytes without a NUL |
| `TarHeader.AcceptedNames` | 3rdparty/microtar/microtar.c:111-112 | an accepted header has terminated names of fewer than 100 bytes |
| `TarHeader.AcceptedIff` | 3rdparty/microtar/microtar.c:90-115 | a record that is no null record and stays inside the arrays is accepted exactly when its checksum field gives the sum of its bytes, and then every header field is what its field gives, or what was there before where that has no digit |
| `TarHeader.HeaderRoundTrip` | 3rdparty/microtar/microtar.c:90-137 | in particular every header with a mode below 8^7 and a type below 128 comes back, whatever its owner |
| `TarHeader.FileAndDirRecords` | 3rdparty/microtar/microtar.c:323-354 | a file's record spells the mode 664 and the type 0, a directory's 775 and 5, both with owner 0, and name and size as given |
| `TarHeader.FieldContents` | 3rdparty/microtar/microtar.c:122-129 | where each field lands in the 512 bytes, spilling included: a mode of more than seven digits loses its end to the owner |
| `TarHeader.ChecksumStored` | 3rdparty/microtar/microtar.c:132-134 | the stored checksum field does not begin with NUL, scans to the checksum, and ends at its seventh byte |
| `TarHeader.OneByteDamageIsCaught` | 3rdparty/microtar/microtar.c:98-103 | changing any one byte outside the checksum field of an accepted record, whose checksum text ends inside its field, makes it be refused as MTAR_EBADCHKSUM |
| `TarHeader.WrittenHeaderDamageIsCaught` | 3rdparty/microtar/microtar.c:90-137 | every header that was written is refused once any one byte outside its checksum field has changed |
| `TarHeader.Checksum` | 3rdparty/microtar/microtar.c:49-60 | the two loops compute that sum |
| `TarHeader.Copy` | 3rdparty/microtar/microtar.c:128-129 | `strcpy` into a field changes that field alone |
| `TarHeader.HeaderToRaw` | 3rdparty/microtar/microtar.c:118-137 | fills the record in place with exactly the bytes of the specification |
| `TarHeader.StrCpy` | 3rdparty/microtar/microtar.c:111-112 | `strcpy` into an array stays inside both exactly when the text and its NUL fit the one and are found in the other, and then copies the text |
| `TarHeader.RawToHeader` | 3rdparty/microtar/microtar.c:90-115 | decides between null record, bad checksum, overrun and the parsed fields, reading the locals left uninitialised where `sscanf` assigns nothing; the names are copied byte by byte into arrays of 100 |
| `TarArchive.ArchiveRoundTrip` | 3rdparty/microtar/microtar.c:230-376 | for every list of files (names under 100 bytes without NUL, archive below 2^32 bytes) and every split of the writes and reads into pieces, writing, finalizing and walking yields the same names and bytes in order and then MTAR_ENULLRECORD |
| `TarArchive.WriteFilesAppends` | 3rdparty/microtar/microtar.c:323-370 | however the data is cut into writes, the stream grows by exactly header, data and zero padding of each file |
| `TarArchive.PiecesAppend` | 3rdparty/microtar/microtar.c:357-370 | the padding comes with the write that completes the data, however the data is cut |
| `TarArchive.EntriesAligned` | 3rdparty/microtar/microtar.c:357-370 | every entry starts on a 512 boundary |
| `TarArchive.RoundUpIsLeastMultiple` | 3rdparty/microtar/microtar.c:44-46 | `round_up` is the least multiple of 512 not below its argument, or 0 where 32 bits cannot hold it |
| `TarArchive.HeaderReadsBack` | 3rdparty/microtar/microtar.c:270-287 | reading the header of an entry returns its name and size and leaves the position |
| `TarArchive.EntryReadsBack` | 3rdparty/microtar/microtar.c:290-320 | reading an entry in any pieces delivers its data and returns to its header |
| `TarArchive.EntryReadsBackIff` | 3rdparty/microtar/microtar.c:290-320 | reads that add up to the size of a file deliver its data, and come back to its header exactly when they do not go on once it is finished |
| `TarArchive.TrailingReadsReenter` | 3rdparty/microtar/microtar.c:290-320 | reads of nothing after the end of a non-empty file leave the stream at the first byte of its data |
| `TarArchive.NextSkipsEntry` | 3rdparty/microtar/microtar.c:230-241 | `mtar_next` moves from an entry to the start of the one behind it |
| `TarArchive.NullRecordEnds` | 3rdparty/microtar/microtar.c:93-96 | the two null records end the walk with MTAR_ENULLRECORD |
| `TarArchive.WalkReadsBack` | 3rdparty/microtar/microtar.c:230-320 | the reading half of the round trip, from any position between entries |
| `TarArchive.FindReturnsIff` | 3rdparty/microtar/microtar.c:244-267 | on any stream what becomes of `mtar_find` is decided within |stream| / 512 + 1 turns of its loop: it returns exactly when one of them stands at a record that cannot be read or has the name and no record up to there takes it out of its arrays; it overruns exactly when the first such turn stands at a record that does; otherwise it goes on for ever |
| `TarArchive.LoopingStream` | 3rdparty/microtar/microtar.c:244-267 | two good headers that point at each other, neither at itself, hold the search for a third name for ever |
| `TarArchive.ForwardReturns` | 3rdparty/microtar/microtar.c:244-267 | when no header before the match takes the 32-bit position round and none up to it overruns, the search returns |
| `TarArchive.ArchiveIsForward` | 3rdparty/microtar/microtar.c:244-267 | no header of a written archive does either |
| `TarArchive.ArchiveStops` | 3rdparty/microtar/microtar.c:244-267 | on an archive the search stops at the first file of that name, or reports MTAR_ENOTFOUND exactly when no file has it |
| `TarArchive.FindOnArchive` | 3rdparty/microtar/microtar.c:244-267 | so on every written archive `mtar_find` returns, at that position and with that result |
| `TarArchive.FoundFileReadsBack` | 3rdparty/microtar/microtar.c:244-320 | after a successful search the reads deliver exactly the first file of that name |
| `TarArchive.CarriedAgrees` | 3rdparty/microtar/microtar.c:253-261 | the header variable that the search reuses decides neither whether a record is read nor its name |
| `TarArchive.CarriedFields` | 3rdparty/microtar/microtar.c:253-261 | it carries what the fields of the last readable record gave, or where one has no digits what was carried before |
| `TarArchive.NextStaysIff` | 3rdparty/microtar/microtar.c:230-241 | one call of `mtar_next` stays where it is exactly when the size rounds up to 2^32 - 512: the shortest loop |
| `TarArchive.Mtar.TWrite` | 3rdparty/microtar/microtar.c:70-74 | writes over or behind the stream at its position and advances `pos` modulo 2^32 |
| `TarArchive.WriteAt` | 3rdparty/microtar/microtar.c:70-74 | a write changes exactly the bytes it covers, lengthens the stream past its end, fills a hole with zeros, and advances `pos` modulo 2^32 |
| `TarArchive.ReadAt` | 3rdparty/microtar/microtar.c:63-67 | a read delivers the bytes from its position on, as many as asked for or as there are, and succeeds exactly when there are enough |
| `TarArchive.ErrorsStop` | 3rdparty/microtar/microtar.c:230-320 | an error ends the call that meets it and is its answer: an unreadable header without data or step, a read past the end with the data that was there and the count of what remains |
| `TarArchive.Mtar.TRead` | 3rdparty/microtar/microtar.c:63-67 | delivers what there is, reports a short read, and advances `pos` by the full size all the same |
| `TarArchive.Mtar.SeekTo` | 3rdparty/microtar/microtar.c:216-220 | moves both positions |
| `TarArchive.Mtar.RewindTar` | 3rdparty/microtar/microtar.c:223-227 | clears the reader's state and goes to 0 |
| `TarArchive.Mtar.WriteNullBytes` | 3rdparty/microtar/microtar.c:77-87 | the byte-by-byte loop writes n zero bytes |
| `TarArchive.Mtar.WriteHeaderRecord` | 3rdparty/microtar/microtar.c:323-329 | writes the record of the header and remembers its size |
| `TarArchive.Mtar.WriteFileHeader` | 3rdparty/microtar/microtar.c:332-342 | the header of a regular file with mode 0664 |
| `TarArchive.Mtar.WriteDirHeader` | 3rdparty/microtar/microtar.c:345-354 | the header of a directory with mode 0775 |
| `TarArchive.Mtar.WriteDataPiece` | 3rdparty/microtar/microtar.c:357-370 | writes the piece and, when it was the last, the padding |
| `TarArchive.Mtar.FinalizeTar` | 3rdparty/microtar/microtar.c:373-376 | writes two null records |
| `TarArchive.Mtar.ReadHeaderRecord` | 3rdparty/microtar/microtar.c:270-287 | reads and parses the record here and seeks back to it |
| `TarArchive.Mtar.NextRecord` | 3rdparty/microtar/microtar.c:230-241 | one step to the following record, with the 32-bit arithmetic of the source |
| `TarArchive.Mtar.ReadDataPiece` | 3rdparty/microtar/microtar.c:290-320 | enters the data on a first read, reads on otherwise, and seeks back to the header at the end |
| `TarArchive.Mtar.Find` | 3rdparty/microtar/microtar.c:244-267 | on every stream on which the loop ends, it does so at the first turn that stops; it overruns exactly when the record there does, and otherwise gives the header as scanned over the earlier ones, or leaves the caller's alone |
| `Bernstein.BinomialIsChoose` | 3rdparty/manif/algorithms/interpolation.h:12-19 | for 0 <= k <= n the recursion, reflection branch included, terminates with Pascal's value |
| `Bernstein.BinomialThrowsIff` | 3rdparty/manif/algorithms/interpolation.h:12-19 | it throws exactly when k is negative or above n |
| `Bernstein.StepIsExact` | 3rdparty/manif/algorithms/interpolation.h:16 | every division in the recursion is exact |
| `Bernstein.IPowIsPow` | 3rdparty/manif/algorithms/interpolation.h:25-27 | `ipow` is carry * base^exp, and carry for an exponent below 1 |
| `Bernstein.PolynomialIsClosedForm` | 3rdparty/manif/algorithms/interpolation.h:33-36 | `polynomialBernstein` is the closed form C(n,i) (1-t)^(n-i) t^i |
| `Bernstein.Recurrence` | 3rdparty/manif/algorithms/interpolation.h:33-36 | the Bernstein polynomials satisfy the de Casteljau recurrence for every t |
| `Bernstein.PartitionOfUnity` | 3rdparty/manif/algorithms/interpolation.h:33-36 | the Bernstein polynomials of any degree sum to 1 for every t |
| `Bernstein.BlendKeepsCombination` | 3rdparty/manif/algorithms/decasteljau.h:98-107 | blending neighbouring values keeps the Bernstein combination, one degree lower |
| `DeCasteljau.Fit` | 3rdparty/manif/algorithms/decasteljau.h:31-114 | the whole algorithm on the vector group: refuses what the checks refuse; the sampling loop has no end exactly when segment_k_interp is 2^32 - 1 and there is a segment; an open curve has n_segments * k_interp samples at degree 2 and n_segments * k_interp * degree at any other while 32 bits hold the product, each the Bernstein combination of its segment's control points at its t; a closed one runs off the trajectory unless it has degree points, and then is one segment over all of them |
| `DeCasteljau.SamplesExactIff` | 3rdparty/manif/algorithms/decasteljau.h:79-80 | at degree 2 a segment has k_interp samples; at any other the unsigned product k_interp * degree, exact exactly when it is below 2^32; it can be 0, and 2^32 - 1 |
| `DeCasteljau.ClosingIsDefinedIff` | 3rdparty/manif/algorithms/decasteljau.h:60-77 | the unsigned count of extra points stays inside the trajectory exactly when the trajectory has degree points |
| `DeCasteljau.Close` | 3rdparty/manif/algorithms/decasteljau.h:60-77 | the left-over points and the copies from the front, or the index past the end |
| `DeCasteljau.Sample` | 3rdparty/manif/algorithms/decasteljau.h:91-109 | the in-place triangular reduction returns the Bernstein combination of the points, for every t |
| `DeCasteljau.SampleSegment` | 3rdparty/manif/algorithms/decasteljau.h:86-110 | appends one sample for each t = j/k of the segment |
| `DeCasteljau.Extract` | 3rdparty/manif/algorithms/decasteljau.h:48-58 | the control points of segment s are the degree points from s*(degree-1) on |
| `DeCasteljau.Gather` | 3rdparty/manif/algorithms/decasteljau.h:54-57 | the inner loop of the extraction |
| `DeCasteljau.RoundKeepsPoint` | 3rdparty/manif/algorithms/decasteljau.h:98-107 | one round of the reduction keeps the point of the curve |
| `DeCasteljau.ControlPointsInBounds` | 3rdparty/manif/algorithms/decasteljau.h:44-58 | every control-point index is inside the trajectory |
| `DeCasteljau.NoSegmentsIff` | 3rdparty/manif/algorithms/decasteljau.h:44-46 | the curve is empty exactly when the trajectory has fewer than 2*degree points, although the checks let it pass |
| `DeCasteljau.SegmentsAre` | 3rdparty/manif/algorithms/decasteljau.h:44-46 | n_segments is the number of whole strides of degree behind the first degree points |
| `DeCasteljau.SegmentEndsOnTrajectory` | 3rdparty/manif/algorithms/decasteljau.h:86-110 | the last sample of segment s is trajectory point (s+1)*(degree-1) |
| `DeCasteljau.CurveStopsShort` | 3rdparty/manif/algorithms/decasteljau.h:44-58 | segments are counted with stride degree and laid with stride degree - 1, so the last sample of the curve has at least degree trajectory points behind it, and exactly LeftOver |
| `ThreadPool.ExactlyOnePlace` | 3rdparty/ThreadPool/ThreadPool.h:47-154 | in every run each accepted task is exactly once in one of: dropped, queued, held by one worker, finished |
| `ThreadPool.QueueIsNewest` | 3rdparty/ThreadPool/ThreadPool.h:113-125 | the queue is the newest accepted tasks, oldest first, never more than there are workers |
| `ThreadPool.ExecutingIsBusy` | 3rdparty/ThreadPool/ThreadPool.h:64-72 | the executing counter is the number of workers between taking a task and lowering it |
| `ThreadPool.WaitMeansIdle` | 3rdparty/ThreadPool/ThreadPool.h:130-138 | `wait` returns only when nothing is queued or held, so each task is finished once or was dropped |
| `ThreadPool.JoinMeansDrained` | 3rdparty/ThreadPool/ThreadPool.h:145-154 | once the destructor has joined, every task not dropped is finished |
| `ThreadPool.RunKeepsInv` | 3rdparty/ThreadPool/ThreadPool.h:47-154 | the invariant behind these, kept by every action |
| `ThreadPool.PlacesStep` | 3rdparty/ThreadPool/ThreadPool.h:47-154 | an action moves tasks between places; only an accepted `enqueue` brings a new one |
| `ThreadPool.PopsEmptyIff` | 3rdparty/ThreadPool/ThreadPool.h:113-125 | no run pops an empty queue, exactly when the pool has workers |
| `ThreadPool.EnqueueDrops` | 3rdparty/ThreadPool/ThreadPool.h:108-127 | after any run: a task is accepted exactly when the pool is not stopped and has workers; one is dropped for it exactly when the queue is then as long as the pool, and it is the oldest queued one; nothing else changes |
| `ThreadPool.StoppedIff` | 3rdparty/ThreadPool/ThreadPool.h:145-150 | the pool is stopped exactly when its destructor has stopped it |
| `ThreadPool.WorkerMoves` | 3rdparty/ThreadPool/ThreadPool.h:56-76 | a waiting worker takes the oldest queued task while there is one and exits only a stopped pool with nothing queued; a running one finishes the task it took; one that has run it waits again; no other worker is touched |
| `ThreadPool.WorkerStuckIff` | 3rdparty/ThreadPool/ThreadPool.h:56-76 | a worker has no step exactly when it has exited, or waits for a task of a pool that is not stopped |
| `ThreadPool.StoppedGoesOn` | 3rdparty/ThreadPool/ThreadPool.h:145-154 | in a stopped pool every worker that has not exited has a step that makes the remaining work less |
| `ThreadPool.JoinIsReachable` | 3rdparty/ThreadPool/ThreadPool.h:145-154 | whatever has happened, the join of the destructor can be reached: the workers of a stopped pool can all exit |
| `ThreadPool.WorkerPool.EnqueueTask` | 3rdparty/ThreadPool/ThreadPool.h:104-128 | refuses on a stopped pool, drops the oldest task exactly when the queue is full (`EnqueueDrops`), appends the new one; without workers it pops an empty queue |
| `ThreadPool.WorkerPool.WorkerWakes` | 3rdparty/ThreadPool/ThreadPool.h:58-67 | takes the oldest task, or exits when the pool is stopped and empty |
| `ThreadPool.WorkerPool.TaskReturns` | 3rdparty/ThreadPool/ThreadPool.h:69 | the task is finished and the worker still counted |
| `ThreadPool.WorkerPool.WorkerReleases` | 3rdparty/ThreadPool/ThreadPool.h:71-76 | lowers the counter and says whether `wait` is to be woken |
| `ThreadPool.WorkerPool.StopPool` | 3rdparty/ThreadPool/ThreadPool.h:147-150 | the destructor's critical section |
| `CpuAffinity.AffinityRoundTrip` | src/common/cpu_affinity.h:195-279 | for every non-empty CPU set below CPU_SETSIZE, parsing the printed string gives its members in ascending order |
| `CpuAffinity.NoneDoesNotParse` | src/common/cpu_affinity.h:250 | the empty set prints as "none", which the parser refuses |
| `CpuAffinity.RunsAreTheMembers` | src/common/cpu_affinity.h:222-243 | the runs found by the scan are exactly the members, in order |
| `CpuAffinity.RunsAreMaximal` | src/common/cpu_affinity.h:222-243 | no two of the runs touch |
| `CpuAffinity.DashIff` | src/common/cpu_affinity.h:271-279 | a dash is printed exactly when three members are in a row; two in a row are printed as numbers |
| `CpuAffinity.StoiReads` | src/common/cpu_affinity.h:263-272 | `std::stoi` reads white space, a sign or none and digits up to the first character that is none; it refuses what has no digit and what is no int |
| `CpuAffinity.TokenOf` | src/common/cpu_affinity.h:254-269 | a token with a dash lists from the number before its first dash to the one behind it, nothing if reversed; an error of the first number decides before one of the second |
| `CpuAffinity.SingleToken` | src/common/cpu_affinity.h:195-269 | a token without a dash lists its number or fails with its error; an empty token lists nothing, wherever it stands |
| `CpuAffinity.ListedRun` | src/common/cpu_affinity.h:271-279 | each printed form - single, pair, range - parses back to its run |
| `CpuAffinity.ListedText` | src/common/cpu_affinity.h:195-209 | and so does the printed list of runs in front of any other tokens |
| `CpuAffinity.StoiOfToString` | src/common/cpu_affinity.h:263-272 | `std::stoi` of `std::to_string` is the identity below 2^31 |
| `CpuAffinity.TokenOfRange` | src/common/cpu_affinity.h:254-269 | a printed range parses to its CPUs, unless it ends at the largest int, where the loop counter overflows |
| `CpuAffinity.ParseToken` | src/common/cpu_affinity.h:254-269 | an empty token adds nothing; a dash gives the range from first to last, none if reversed; errors of `std::stoi` and the overflow of the counter are reported |
| `CpuAffinity.ParseAffinityString` | src/common/cpu_affinity.h:195-209 | the find/substr loop adds the CPUs of the comma-separated tokens in order and stops at the first error |
| `CpuAffinity.CpusetToString` | src/common/cpu_affinity.h:216-251 | the scan prints the maximal runs without the trailing comma |
| `FileCache.HitsAreFaithful` | src/common/async_io.cpp:316-368 | in every interleaving of lookups, inserts and clears by any number of `readSync` callers a hit returns the contents of the file, and the cached bytes stay within `max_cache_size_` when `max_cache_file_size_` does not exceed it |
| `FileCache.RunKeepsFaithful` | src/common/async_io.cpp:316-368 | every cached entry holds the contents of its file |
| `FileCache.UsesAreCounted` | src/common/async_io.cpp:316-368 | an entry has access_count 1 for its insertion and 1 for each lookup of its path since, and last_access of the last of them, in every run |
| `FileCache.EvictsShortestPrefix` | src/common/async_io.cpp:348-360 | an insert evicts the shortest sufficient prefix of the eviction order and keeps the rest: whatever goes has a smaller access_count than whatever stays, or the same and no later last_access; the evicted go in that order |
| `FileCache.InsertFitsIff` | src/common/async_io.cpp:338-368 | after an insert the cache is within its limit exactly when the file is |
| `FileCache.ReadFilePoisonsIff` | src/common/async_io.cpp:299-304 | `readFile` caches data it has moved away, so a miss of it keeps the cache faithful exactly when the file is empty or nothing is cached |
| `FileCache.AsyncFileReader.TryGetFromCache` | src/common/async_io.cpp:316-336 | returns the first entry for the path and counts the access; a miss changes nothing |
| `FileCache.AsyncFileReader.AddToCache` | src/common/async_io.cpp:338-368 | the eviction loop and the insert, in the order of `EvictsShortestPrefix` |
| `FileCache.AsyncFileReader.ReadSync` | src/common/async_io.cpp:413-445 | returns the contents of the file, or fails exactly when there is none, and states the whole new cache; a file that was missed is cached exactly when it is below the file limit |
| `FileCache.AsyncFileReader.ClearCache` | src/common/async_io.cpp:447-450 | empties the cache |
| `FileCache.AsyncFileReader.GetCacheSize` | src/common/async_io.cpp:452-459 | the sum of the cached sizes |
| `StreamingWriter.RunConserves` | src/common/async_io.cpp:728-777 | for every sequence of `write` and `flush` calls the chunks handed to the stream followed by the buffer are the chunk_size zero bytes the buffer starts with followed by all input |
| `StreamingWriter.WriteConserves` | src/common/async_io.cpp:728-747 | one `write` conserves bytes |
| `StreamingWriter.NothingWithoutStream` | src/common/async_io.cpp:728-769 | a stream that is not open gets nothing: the input is counted, cut and thrown away |
| `StreamingWriter.EmittedAreWhole` | src/common/async_io.cpp:732-743 | every chunk a `write` emits has length chunk_size, and a non-empty one leaves less than a chunk in the buffer |
| `StreamingWriter.FlushConserves` | src/common/async_io.cpp:753-769 | a flush of an open stream conserves bytes |
| `StreamingWriter.ClosedFile` | src/common/async_io.cpp:689-726 | a closed file is chunk_size zero bytes followed by the input: never the input alone |
| `StreamingWriter.WriteTwice` | src/common/async_io.cpp:728-747 | writing two pieces is writing their concatenation |
| `StreamingWriter.StreamingFileWriter.constructor` | src/common/async_io.cpp:689-700 | the buffer starts with chunk_size zero bytes |
| `StreamingWriter.StreamingFileWriter.Open` | src/common/async_io.cpp:706-714 | synchronous mode: whether the stream opened |
| `StreamingWriter.StreamingFileWriter.FlushBuffer` | src/common/async_io.cpp:753-769 | emits the buffer if the stream is open and clears it either way |
| `StreamingWriter.StreamingFileWriter.WriteData` | src/common/async_io.cpp:728-747 | the fill-and-flush loop, whose turns may flush without consuming input, terminates with the specified state |
| `EventLoop.OneShotRunsOnce` | src/common/async_io.cpp:804-861 | a task scheduled with a delay runs at most once, never before the clock reading of the call plus the delay, and is in the list exactly as long as it has not run |
| `EventLoop.RecurringStaysAndIsSpaced` | src/common/async_io.cpp:815-861 | a recurring task is never lost, and the `runOnce` clock readings at which it was found due are at least an interval apart, the first an interval after it was scheduled; how long earlier ready tasks then delay its start is not part of it |
| `EventLoop.RunOnceRunsExactlyTheDue` | src/common/async_io.cpp:831-861 | `runOnce` starts a listed task exactly when its time is not after the clock reading |
| `EventLoop.BirthsAreAsked` | src/common/async_io.cpp:804-825 | the tasks that come to be are exactly those the calls ask for, with their times |
| `EventLoop.RunKeepsInv` | src/common/async_io.cpp:804-861 | the invariant of one task's entries over every run |
| `EventLoop.RemainingOf` | src/common/async_io.cpp:837-850 | what the erase loop does to one task depends on its own entries alone |
| `EventLoop.PassStep` | src/common/async_io.cpp:837-850 | one turn of the erase loop keeps it a stable partition of the original list |
| `EventLoop.AsyncIoEventLoop.ScheduleTask` | src/common/async_io.cpp:804-813 | appends the task, due after the delay |
| `EventLoop.AsyncIoEventLoop.ScheduleRecurringTask` | src/common/async_io.cpp:815-825 | appends the task, due after one interval |
| `EventLoop.AsyncIoEventLoop.RunReady` | src/common/async_io.cpp:831-861 | the in-place erase loop leaves the stable remainder and hands out the due tasks in order |
| `RecordQueue.RecordedInOrder` | src/data_collection/data_collection_executor.cpp:640-753 | in every interleaving of handler, worker and shutdown, recorded, in-hand, queued and pending tasks together are all acceptances in order, each once |
| `RecordQueue.ExitMeansDrained` | src/data_collection/data_collection_executor.cpp:742-752 | at the step in which the worker exits every pushed task has been recorded |
| `RecordQueue.NothingAfterExit` | src/data_collection/data_collection_executor.cpp:742-752 | after that nothing more is recorded: what is pushed later stays in the queue |
| `RecordQueue.WorkerMoves` | src/data_collection/data_collection_executor.cpp:700-752 | after any run: the worker takes the oldest queued task whenever it waits or drains and there is one, records the task it holds, leaves its loop only when told to stop and not from a queue with tasks in it, and stands still only once it has exited or while it waits without having been told to stop |
| `RecordQueue.RunningIff` | src/data_collection/data_collection_executor.cpp:81-84 | the worker is told to stop exactly by the destructor |
| `RecordQueue.PushesIff` | src/data_collection/data_collection_executor.cpp:686-687 | an accepted task is pushed exactly while nobody drains |
| `RecordQueue.WorkerExits` | src/data_collection/data_collection_executor.cpp:700-753 | once told to stop the worker reaches its exit by its own steps, with everything pushed so far recorded |
| `RecordQueue.AcceptancesAreSpaced` | src/data_collection/data_collection_executor.cpp:467-485 | with a clock that never goes back any two acceptances are at least the cooldown apart |
| `RecordQueue.AcceptedIff` | src/data_collection/data_collection_executor.cpp:640-668 | for every pair of clock readings: a trigger is accepted exactly when the disk has room and either a cooldown has passed since the last acceptance or the clock was set back, unless so far that the 64-bit difference comes out below a cooldown |
| `RecordQueue.CooldownIff` | src/data_collection/data_collection_executor.cpp:467-485 | what the wrapping 64-bit subtraction decides, for every pair of times |
| `RecordQueue.ClockSetBackEndsCooldown` | src/data_collection/data_collection_executor.cpp:477-481 | after any acceptance a trigger under a clock set back is accepted too, out of order, exactly unless the 64-bit difference comes out below a cooldown |
| `RecordQueue.DrainIsWorks` | src/data_collection/data_collection_executor.cpp:742-752 | the drain loop is the worker's own steps with nothing in between |
| `RecordQueue.DataCollectionExecutor.IsInCooldown` | src/data_collection/data_collection_executor.cpp:467-485 | no cooldown without a strategy or with a duration of 0; otherwise the wrapping 64-bit comparison |
| `RecordQueue.DataCollectionExecutor.HandleTrigger` | src/data_collection/data_collection_executor.cpp:633-668 | refuses in cooldown, then for lack of space; otherwise stamps the acceptance |
| `RecordQueue.DataCollectionExecutor.PushTask` | src/data_collection/data_collection_executor.cpp:686-687 | the handler's critical section |
| `RecordQueue.DataCollectionExecutor.WorkerLoopStep` | src/data_collection/data_collection_executor.cpp:700-739 | one step of the worker loop |
| `RecordQueue.DataCollectionExecutor.DrainQueue` | src/data_collection/data_collection_executor.cpp:742-752 | records the whole queue in order, in one critical section |
| `RecordQueue.DataCollectionExecutor.StopWorker` | src/data_collection/data_collection_executor.cpp:81-84 | the destructor's store |
| `Reachability.GreedyIsBest` | src/data_collection_planner.cpp:405-418 | no order-preserving matching of a prefix of the collected points is longer than that of the two-pointer pass, or places a point earlier |
| `Reachability.GreedyMatches` | src/data_collection_planner.cpp:405-418 | the pass builds an order-preserving injective matching within tolerance |
| `Reachability.AllMatchedIff` | src/data_collection_planner.cpp:405-418 | it matches every collected point exactly when some order-preserving matching does |
| `Reachability.StrayPointBlocks` | src/data_collection_planner.cpp:406-418 | a collected point near no planned point blocks itself and all after it |
| `Reachability.StabilityInRange` | src/data_collection_planner.cpp:411-412 | a reported stability lies in [0.1, 1], with exactly when it reaches either end, and is linear in the distance up to nine tenths of the tolerance |
| `Reachability.ToldMeans` | src/data_collection_planner.cpp:411-416 | a planned point is reported a success exactly when it is in the matching, with the point collected there; any other as itself, with 0.1 |
| `Reachability.VisitedIff` | src/data_collection_planner.cpp:406 | the pass goes on exactly while a collected point is left to match |
| `Reachability.UpdateReachabilityForPath` | src/data_collection_planner.cpp:398-419 | the loop reports exactly the points visited, each as the final matching says |
| `MemoryPool.AcquireAddresses` | src/common/memory_pool.h:123-153 | an acquire adds no other address to the pool than the one allocated |
| `MemoryPool.RunIsSound` | src/common/memory_pool.h:123-279 | in every run of acquire, release, preallocate and clear `allocated_count_` is the number of blocks in use and no address occurs twice |
| `MemoryPool.AcquireEffect` | src/common/memory_pool.h:123-153 | a buffer nobody holds, failing exactly when all are in use and no more can be made |
| `MemoryPool.AcquireReuses` | src/common/memory_pool.h:123-153 | the first free block is reused before a new one is made; a failed acquire says whether the limit or the allocator was the reason |
| `MemoryPool.ReleaseEffect` | src/common/memory_pool.h:160-177 | frees that buffer and no other |
| `MemoryPool.ReleaseCountsIff` | src/common/memory_pool.h:160-177 | the counter survives a release exactly when the pointer is foreign or its block in use |
| `MemoryPool.PreallocateEffect` | src/common/memory_pool.h:217-236 | adds free blocks behind the others, as many as asked for unless the limit or the allocator stops it, and touches none in use |
| `MemoryPool.ClearEffect` | src/common/memory_pool.h:259-279 | keeps exactly the buffers in use and makes the counter right even if it was wrong |
| `MemoryPool.MemoryPool.AcquireBlock` | src/common/memory_pool.h:123-153 | the first free block, or a new one, or an error |
| `MemoryPool.MemoryPool.ReleaseBlock` | src/common/memory_pool.h:160-177 | the search loop and the two stores |
| `MemoryPool.MemoryPool.PreallocateBlocks` | src/common/memory_pool.h:217-236 | stops at the limit and at the first failed allocation |
| `MemoryPool.MemoryPool.ClearBlocks` | src/common/memory_pool.h:259-279 | recount and stable removal |
| `InferenceBuffers.OutputCannotFail` | src/common/memory_pool.h:320-326 | with pair operations one at a time, over any number of owners, pools and earlier failures: when allocation works, acquiring the output buffer cannot fail once the state buffer was acquired; a construction succeeds exactly while owners and lost buffers are fewer than the maximum, and a failed one changes nothing |
| `InferenceBuffers.CountersAreOwners` | src/common/memory_pool.h:302-334 | the output counter is the number of live owners, and the state counter exceeds it by the buffers lost to failed allocations |
| `InferenceBuffers.BuffersAreDistinct` | src/common/memory_pool.h:302-400 | live owners hold pairwise distinct buffers, across all pools, and no state buffer is an output buffer |
| `InferenceBuffers.RunKeepsApart` | src/common/memory_pool.h:302-334 | with one allocator for all pools no two of them ever have a block at one address |
| `InferenceBuffers.ReleasedOnce` | src/common/memory_pool.h:365-400 | each constructed pair is held by exactly one owner or was released exactly once, through every mix of move, assignment and destruction |
| `InferenceBuffers.OwnershipMoves` | src/common/memory_pool.h:371-400 | a moved-to owner holds what the source held and the source nothing; an owner assigned to or destroyed has given back its own pair and nothing else changes hands |
| `InferenceBuffers.ConstructionAdds` | src/common/memory_pool.h:365-366 | a construction that succeeds adds one owner of a new lease and changes no other |
| `InferenceBuffers.LeaksIff` | src/common/memory_pool.h:320-326 | a construction throws and leaves the pools changed exactly when a state buffer can be had, every output block is owned and allocating another fails |
| `InferenceBuffers.LossesStay` | src/common/memory_pool.h:320-334 | a state buffer so lost is never given back |
| `InferenceBuffers.PairTakes` | src/common/memory_pool.h:320-326 | what a construction comes to, for every outcome of the two allocations: a pair, a lost state buffer, or nothing |
| `InferenceBuffers.RunKeepsInv` | src/common/memory_pool.h:302-400 | the invariant over every run |
| `InferenceBuffers.InferenceBufferPool.AcquireBuffers` | src/common/memory_pool.h:320-326 | state first, then output; an exception from the second keeps the first |
| `InferenceBuffers.InferenceBufferPool.ReleaseBuffers` | src/common/memory_pool.h:331-334 | gives both back |
| `InferenceBuffers.ScopedInferenceBuffer.Construct` | src/common/memory_pool.h:365-366 | an owner of a new pair, or an exception |
| `InferenceBuffers.ScopedInferenceBuffer.DestroyBuffer` | src/common/memory_pool.h:371-375 | releases exactly when it still has a pool |
| `InferenceBuffers.ScopedInferenceBuffer.MoveFrom` | src/common/memory_pool.h:386-389 | takes the pair and clears the source's pool pointer |
| `InferenceBuffers.ScopedInferenceBuffer.AssignFrom` | src/common/memory_pool.h:391-400 | releases its own pair first, takes the other's, and leaves self-assignment alone |
| `PairInterleaving.OutputFailsIff` | src/common/memory_pool.h:320-334 | for every interleaving of the halves of pair operations over any number of threads, the second `acquire` throws exactly when every output buffer is taken, which takes a release that is between its halves; with no release under way it cannot throw |
| `PairInterleaving.PoolsDifferByHalves` | src/common/memory_pool.h:302-334 | the numbers in use of the two pools differ exactly by the operations between their halves |
| `PairInterleaving.OverlapCanThrow` | src/common/memory_pool.h:320-334 | a run of two threads in which an acquisition inside another release gets the state buffer and then throws |
| `PairInterleaving.HalvesMove` | src/common/memory_pool.h:320-334 | how a thread gets on: a state buffer unless all are taken, an output buffer unless all are taken or else the exception, then back the one and the other; no half moves another thread |
| `PairInterleaving.ThrownIsLost` | src/common/memory_pool.h:320-334 | the state buffer of an acquisition that threw stays taken whatever follows |
| `PairInterleaving.RunKeepsInv` | src/common/memory_pool.h:123-334 | in every interleaving the buffers in use of each pool are exactly those the threads have taken |
| `StateMachine.RunIsAllowedPath` | src/state_machine/state_machine.cpp:79-294 | over every event sequence and callback outcome the transition records are an unbroken walk from INITIALIZING to the current state along the transitions of the design |
| `StateMachine.FailedUpload` | src/state_machine/state_machine.cpp:197-227 | a failed upload leads to IDLE exactly when a recovery came before it, and to ERROR otherwise |
| `StateMachine.AtMostTwoTransitions` | src/state_machine/state_machine.cpp:242-294 | one event causes at most two transitions |
| `StateMachine.MovesIff` | src/state_machine/state_machine.cpp:79-234 | an event moves the machine exactly when the design has a transition for it; a waypoint exactly when a callback calls for collecting or reports the end |
| `StateMachine.AnswersDecide` | src/state_machine/state_machine.cpp:118-294 | an action's answer decides where the machine comes to rest; a waypoint collects when asked to, else uploads at the end of the path, else goes on |
| `StateMachine.WaypointCalls` | src/state_machine/state_machine.cpp:154-179 | which callbacks a waypoint calls, in order, each only if registered |
| `StateMachine.NeverRestsWorking` | src/state_machine/state_machine.cpp:268-287 | with plan, collect and upload registered the machine never rests in PLANNING, DATA_COLLECTING or UPLOADING |
| `StateMachine.ShutdownIsFinal` | src/state_machine/state_machine.cpp:236-238 | SHUTTING_DOWN is absorbing: no event changes anything any more |
| `StateMachine.ShutdownObeyedIff` | src/state_machine/state_machine.cpp:118-234 | a shutdown request is obeyed from IDLE and ERROR only and dropped elsewhere |
| `StateMachine.EachEntryRunsItsAction` | src/state_machine/state_machine.cpp:268-294 | every entry into a state with a registered action runs that action once |
| `StateMachine.OnShutdownRunsOnce` | src/state_machine/state_machine.cpp:288-292 | `on_shutdown` runs at most once, and has run exactly when the machine is shutting down and it is registered |
| `StateMachine.StateMachine.constructor` | src/state_machine/state_machine.cpp:15-24 | the initial state, then `initialize` |
| `StateMachine.StateMachine.HandleEvent` | src/state_machine/state_machine.cpp:79-106 | the dispatch over handlers that recur through `transitionToState` computes the flat two-hop specification and terminates |
| `StateMachine.StateMachine.HandleIdle` | src/state_machine/state_machine.cpp:118-136 | starts planning, uploading or shutdown on request and drops every other event |
| `StateMachine.StateMachine.HandlePlanning` | src/state_machine/state_machine.cpp:138-152 | a finished plan starts navigation, an error leads to ERROR, anything else is dropped |
| `StateMachine.StateMachine.HandleNavigating` | src/state_machine/state_machine.cpp:154-179 | asks `should_collect`, then `navigate_step`, each only if registered |
| `StateMachine.StateMachine.HandleDataCollection` | src/state_machine/state_machine.cpp:181-195 | collected data resumes navigation, an error leads to ERROR, anything else is dropped |
| `StateMachine.StateMachine.HandleUploading` | src/state_machine/state_machine.cpp:197-217 | a finished upload leads to IDLE, a failed one to IDLE in degrade mode and to ERROR otherwise |
| `StateMachine.StateMachine.HandleError` | src/state_machine/state_machine.cpp:219-234 | a recovery switches degrade mode on and leads to IDLE, a shutdown request is obeyed |
| `StateMachine.StateMachine.TransitionToState` | src/state_machine/state_machine.cpp:242-294 | records the hop, runs the action of the new state and dispatches its answer |
| `StateMachine.UploadIsNextIff` | src/state_machine/state_machine.cpp:154-179 | from NAVIGATING some event and answers lead on to UPLOADING exactly when `navigate_step` is registered |
| `StateMachine.UploadReachableIff` | src/state_machine/state_machine.cpp:79-294 | some run goes on from navigating to its upload exactly when `navigate_step` is registered |
| `StateMachine.NavigationOnlyEndsInError` | src/application_runner.cpp:105-119 | without it, as the application registers its callbacks, navigating and collecting lead only to each other or to ERROR, in every run |
| `Mission.VelocityCollectionsAreApart` | src/data_collection/robot_controller.cpp:148-179 | in velocity mode collected waypoints have strictly increasing indices despite the retry, and neighbours are at least `min_step_distance` and `min_collection_interval` apart |
| `Mission.TrackingCollectionsAreApart` | src/data_collection/robot_controller.cpp:54-85 | the same in path-tracking mode |
| `Mission.VelocityCounts` | src/data_collection/robot_controller.cpp:140-179 | collected <= reached <= path length - 1, and every waypoint passed was reached or skipped on a timeout |
| `Mission.CommandsInRange` | src/data_collection/robot_controller.cpp:187-195 | every command stays in [0, max_forward] and [-max_angular, max_angular], without lateral part |
| `Mission.UnwoundIsSameAngle` | src/data_collection/robot_controller.cpp:184-185 | bringing the yaw error into range changes it by whole turns only |
| `Mission.UnwindYaw` | src/data_collection/robot_controller.cpp:184-185 | the two loops terminate with an angle in [-pi, pi] |
| `Mission.SteerTo` | src/data_collection/robot_controller.cpp:181-195 | the command of one turn, which `SteersTowards` gives in numbers |
| `Mission.AwayTurnsOnTheSpot` | src/data_collection/robot_controller.cpp:187-190 | a robot moves forward exactly when its target is ahead |
| `Mission.SteersTowards` | src/data_collection/robot_controller.cpp:181-195 | a robot turns towards its target: with the sign of the yaw error, kp_angular times it up to max_angular; forward is min(max_forward, 2 * distance) * cos(error) when the target is ahead and 0 otherwise |
| `Mission.TurnDecides` | src/data_collection/robot_controller.cpp:121-206 | each turn of the loop, by its reading: past 15 s the waypoint is skipped, within tolerance reached and collected when the first or else the second attempt may, otherwise one command steers to it |
| `Mission.TurnsAreCounted` | src/data_collection/robot_controller.cpp:121-212 | until the last waypoint every turn reaches one, skips one or sends a command |
| `Mission.TrackDecides` | src/data_collection/robot_controller.cpp:54-85 | in path tracking a waypoint is reached exactly when the robot arrives, and only then collected, when it may be |
| `Mission.DriveKeepsInv` | src/data_collection/robot_controller.cpp:121-212 | the invariant of the velocity loop |
| `Mission.ExecuteVelocityCommands` | src/data_collection/robot_controller.cpp:96-224 | the loop computes the specified progress; the last command published is a stop, and a path of fewer than two points publishes none |
| `Mission.ExecutePathTracking` | src/data_collection/robot_controller.cpp:45-94 | the loop over all waypoints computes the specified progress |
| `Mission.Checker.constructor` | src/data_collection_planner.cpp:217-219 | the captured state before the first waypoint |
| `Mission.Checker.TryCollect` | src/data_collection_planner.cpp:346-390 | refuses within a step or an interval of the last collection, in cooldown, at unwanted points, without the service, on its timeout and on its refusal |
| `Mission.CollectsIff` | src/data_collection_planner.cpp:346-390 | a waypoint is collected exactly when it is a step from the last one, an interval has gone by, and there is no cooldown, no refusal, no missing service, no timeout and no failure |
| `Mission.Checker.Call` | src/data_collection_planner.cpp:222-229 | a successful collection moves the gate, another does not |
| `Feedback.NothingLost` | src/data_collection/collection_feedback.cpp:72-81 | with an upload callback the uploaded batches followed by the buffer are all submitted experiences in order, each with its contents and the vectors given before it, and after every call the buffer is empty or below threshold |
| `Feedback.NextStateIsState` | src/data_collection/collection_feedback.cpp:62-66 | in no run does an experience hold a transition: its next state is its state, or is missing |
| `Feedback.NextStateReadableIff` | src/data_collection/collection_feedback.cpp:185-239 | reading the next state of a submitted experience stays inside it exactly when a state was given before, or no path was executed |
| `Feedback.SeverityIsPercent` | src/data_collection/collection_feedback.cpp:222-225 | the stored severity is a percentage, and 0 exactly when nothing changed or the rate is below one percent |
| `Feedback.RewardStatistics` | src/data_collection/collection_feedback.cpp:42-53 | the window is the last min(n, 10) rewards; as long as all rewards are numbers the statistics are theirs, and min <= average <= max |
| `Feedback.RewardIsNumberIff` | src/data_collection/collection_feedback.cpp:97-139 | a reward is a number exactly when no cost was paid without an attempt |
| `Feedback.RewardIs` | src/data_collection/collection_feedback.cpp:97-139 | the reward in numbers: weighted data value, novelty, share of successes where there is a cost, twice the quality and weighted share of failures; and what a cost without an attempt makes of it |
| `Feedback.LessIsOrder` | src/data_collection/collection_feedback.cpp:46-47 | how rewards compare, infinities and no-numbers included |
| `Feedback.AccumulatedIsNot` | src/data_collection/collection_feedback.cpp:43-45 | a total with an infinity is that infinity unless the other or a no-number is in it |
| `Feedback.AverageIsNumberIff` | src/data_collection/collection_feedback.cpp:43-45 | the total and the average are numbers exactly when every reward so far is: one that is not takes them away for good |
| `Feedback.MinimumIsARewardIff` | src/data_collection/collection_feedback.cpp:46 | the reported minimum, which starts from 0, is a reward that was given exactly when some reward was not positive |
| `Feedback.HighFailureIsSignalled` | src/data_collection/collection_feedback.cpp:83-92 | a failure rate above threshold always fires the replan callback with a non-empty change list |
| `Feedback.SilentReplanIff` | src/data_collection/collection_feedback.cpp:83-92 | a replan is counted without being signalled exactly when nothing changed in the environment and the rewards dropped |
| `Feedback.ReplansIff` | src/data_collection/collection_feedback.cpp:241-278 | when a submission leads to a replan, and what is signalled then |
| `Feedback.SevereIff` | src/data_collection/collection_feedback.cpp:245-252 | a change is severe exactly when one of the kinds found reaches the threshold, told on the result |
| `Feedback.RewardDroppedIff` | src/data_collection/collection_feedback.cpp:254-266 | the rewards have dropped exactly when there are more than ten and the mean of the last ten is below that of all by more than the share allowed |
| `Feedback.ReplansAreCounted` | src/data_collection/collection_feedback.cpp:83-92 | there are no more signals than replans and no more replans than submissions |
| `Feedback.DetectsIff` | src/data_collection/collection_feedback.cpp:141-183 | exactly which changes a result yields, each with its kind, place and severity |
| `Feedback.DetectOrder` | src/data_collection/collection_feedback.cpp:141-183 | their order and number |
| `Feedback.CentreIsMean` | src/data_collection/collection_feedback.cpp:168-176 | too many failures are placed at the mean of the path |
| `Feedback.UploadsIff` | src/data_collection/collection_feedback.cpp:72-81 | a submission is handed out with all that waits exactly when they are as many as the threshold |
| `Feedback.NothingWithoutCallback` | src/data_collection/collection_feedback.cpp:293-302 | without an upload callback nothing is handed out or counted |
| `Feedback.StoredChangeIs` | src/data_collection/collection_feedback.cpp:218-228 | which change an experience stores: the number of its kind and its severity in percent, rounded down |
| `Feedback.FirstIsMostSevereIff` | src/data_collection/collection_feedback.cpp:87-91 | the change shown to the callback, meant to be the most severe, is so exactly when a drop in quality comes without obstacles and sparse areas and a reported failure rate is no higher than the severity of the first kind present |
| `Feedback.RunKeepsInv` | src/data_collection/collection_feedback.cpp:34-95 | the invariant over every run of submissions and uploads, which accounts for every experience and its contents |
| `Feedback.CollectionFeedback.SubmitCollectionResult` | src/data_collection/collection_feedback.cpp:34-95 | the whole new state after a submission |
| `Feedback.CollectionFeedback.ReplanIfNeeded` | src/data_collection/collection_feedback.cpp:83-92 | counts a replan, and signals the first change if there is one and a callback |
| `Feedback.CollectionFeedback.SetCurrentExperience` | src/data_collection/collection_feedback.cpp:233-239 | the state given becomes the current and the last one |
| `Feedback.CollectionFeedback.GenerateMetadata` | src/data_collection/collection_feedback.cpp:185-231 | the experience of a submission: vectors, reward, first change and time |
| `Feedback.CollectionFeedback.ComputeReward` | src/data_collection/collection_feedback.cpp:97-139 | the weighted sum, with what floating point makes of a division by zero attempts |
| `Feedback.CollectionFeedback.CountReward` | src/data_collection/collection_feedback.cpp:42-53 | statistics and window after one more reward |
| `Feedback.CollectionFeedback.UploadExperiences` | src/data_collection/collection_feedback.cpp:280-303 | hands out the batch, or throws it away without a callback, and clears the buffer |
| `Feedback.CollectionFeedback.DetectEnvironmentChanges` | src/data_collection/collection_feedback.cpp:141-183 | obstacles, then sparse areas, then quality, then failure rate |
| `Feedback.CollectionFeedback.DecideReplan` | src/data_collection/collection_feedback.cpp:241-278 | a severe change, a reward drop after more than ten rewards, or the failure rate |
| `Experience.QuantizeRoundTrip` | src/data_collection/collection_feedback.h:118-126 | reading a stored number gives back less than one step, 1/32767.5, too little within [-1, 1], and the nearer end outside |
| `Experience.DequantizeRoundTrip` | src/data_collection/collection_feedback.h:118-126 | each of the 65536 stored numbers survives being read and stored again |
| `Experience.QuantizeMonotone` | src/data_collection/collection_feedback.h:118-121 | storing keeps the order of numbers |
| `Experience.QuantizeAll` | src/data_collection/collection_feedback.h:129-154 | the loops of the setters store the first `dim` numbers of a vector |
| `Experience.DequantizeAll` | src/data_collection/collection_feedback.h:157-163 | reads every stored number |
| `Experience.NextStateVector` | src/data_collection/collection_feedback.h:166-172 | reads as many numbers of the next state as the state has, and runs off its end exactly when it has fewer |
| `Experience.NextStateIs` | src/data_collection/collection_feedback.cpp:194-216 | with one vector given for both, state and next state are the same, and the next state is readable exactly when a state was given or nothing stands in for it |
| `Experience.VectorsAre` | src/data_collection/collection_feedback.cpp:194-216 | at most 78 numbers of a state and 18 of an action are stored, each quantised; without a state the end of the path stands in for it |
| `Experience.GenerateVectors` | src/data_collection/collection_feedback.cpp:194-216 | state, or the end of the path in its place, action and next state |

## Left out

- ROS nodes, services, topics, logging, audit output and visualisation: only the decisions taken around them are modelled.
- Real file systems: microtar's stream and the cached files are byte sequences; write, seek and disk-full errors and `mtar_open`/`mtar_close` are not modelled.
- Floating-point rounding and overflow: rewards, distances, velocities and curves are exact reals; trigonometry enters the controller as a value in [-1, 1].
- Weak memory: the ring is sequentially consistent, which its acquire/release pairs justify for one producer and one consumer.
- Fairness and lost wake-ups: a condition variable is the guard of a step; that a step which is possible is taken in the end is not modelled.
- TarArchive.ArchiveRoundTrip: covers regular files; directories differ in type and mode only, which `HeaderRoundTrip` covers.
- TarArchive.Mtar.Find: what a call finds in locals it does not initialise is one value per search; it matters only for records whose checksum or size field has no digit.
- Octal.ScanPrinted: `sscanf` follows the saturating behaviour of the GNU C library for numbers beyond 64 bits, which the C standard leaves undefined.
- DeCasteljau.Fit: the vector group, degree at least 1 and fewer than 2^31 points only; other Lie groups need the rest of manif, and a degree of 0 divides by zero.
- FileCache.HitsAreFaithful: is about `readSync`; `readFile` at other offsets and the reader's worker thread are not modelled.
- StreamingWriter.RunConserves: synchronous mode only; the asynchronous mode hands chunks to two threads without an order.
- EventLoop.AsyncIoEventLoop.ScheduleTask: a one-shot task's interval, which the source leaves unset and never reads, is modelled as the delay.
- RecordQueue.AcceptancesAreSpaced: takes the cooldown as fixed; reloading the configuration is not modelled.
- StateMachine.RunIsAllowedPath: one initial `initialize`, and no outside `setCurrentState` or `setDegradeMode`; callbacks do not re-enter the machine.
- Mission.VelocityCollectionsAreApart: is about the planned waypoints that were collected; the robot's actual position in the recorded data point is not modelled.
- Feedback.CollectionFeedback.SubmitCollectionResult: `clearBuffer` and a change of threshold, weights or callbacks during a run are not modelled.
- Experience.QuantizeAll: vectors of fewer than 2^31 numbers, none of them not-a-number; the rounding to single precision is not modelled.
- `AsyncFileWriter`, `AsyncLogger`, `AsyncBagRecorder`, `StatePool`, `FixedVector`, `MemoryMonitor`, `ErrorHandler` and `DataManager`.
- Gait simulation, leg kinematics, SIMD and fast trigonometry kernels: finite bit-level or floating-point code.
- Compliance filter, compression, uploader and planner submodule: not part of this model.
