# pvisor: a verified model of the benchmark payload, its analysis and the kernel bundle

pvisor ships a firmware bundle (a guest kernel packed into a C source file) and measures its virtual file
systems with a payload that runs inside the guest and scripts that collect, validate and publish what the
payload reports. This project models the parts of that code that carry an argument, and proves the argument.

- **The worker team** (`PhaseStats`, `PhaseTeam`, `TeamInvariant`, `TeamTheorems`). A coordinator publishes
  phases through a mutex and a condition variable, workers report through a channel, and `collect` is the
  barrier. The model is a step machine: every lock, wait, wakeup (also a spurious one), send, receive, failure
  and join is a step, and a schedule is any sequence of enabled steps. One inductive invariant gives the
  theorems about all schedules: order of phases, exact sums, no lost wakeup, no stuck state, teardown.
- **The kernel bundle** (`Bytes`, `Bits`, `CompactBundle`, `ChunkTable`, `KernelLoader`, `CLiterals`, `ElfImage`,
  `Firmware`). The encoder of constant runs with its decoder, its canonical form and its optimality; the generated
  constructor that rebuilds the image in an aligned mapping; the C string literals with a lexer that follows sections
  5.1.1.2, 6.4.4.4 and 6.4.5 of ISO C11; the chunk table with a reader of C initializers; the two ELF readers and the
  image both must produce; and the whole way from the ELF file to the mapped kernel.
- **The payload** (`Decimal`, `Chunks`, `Plan`, `Pattern`, `Contents`, `Files`, `WorkerSession`, `OutputTree`,
  `TreeContents`, `InterleavedRound`, `RoundProgress`, `Histories`, `InterleavedRun`, `Rows`). The plan and its
  round trip, the
  deterministic file contents, the phases of a worker with their counters, the output tree of a whole run, the verifier
  that accepts exactly that tree, the row validator, and the theorems that join the team to the tree: every schedule of
  the workers' phases leaves the same directory and the same sums, from every fault-free state some schedule finishes
  the round, and a whole run under any schedules leaves exactly the expected tree.
- **The profile log** (`Measurements`, `ProfileLog`, `ProfileOrder`, `PhaseIntervals`, `PhaseAccounting`,
  `Aggregation`, `Diagnostics`). The one-pass acceptors of a log against declarative conditions, the pairing of tokens
  with cells, the bound of summed intervals by final counters, aggregation under any grouping, and the summary of a
  batch of logs.
- **Splitting samples** (`Samples`, `Clusters`, `Separation`). A stable sort with original indices, the greedy
  cutter, why no division has more parts and why its cuts come first, and the two separation rules compared.
- **Publication and write sizes** (`Publication`, `WriteSizes`). The append-only CSV over every sequence of
  calls, the table of latest rows, and the size histogram with its bounds.

Integers are unbounded; where width matters it is explicit (64-bit words in `Pattern`, address width in
`KernelLoader`, the parser's 64-bit numbers in `Plan`, and the bounds of `Rows.RunFits`). Samples are reals.
Clock readings, what mmap returned, what the ELF library parsed and what a worker's system calls did are
parameters or nondeterministic choices.

Six places where the code does not do what one might expect are stated exactly, each with an input that shows it:

- The flat ELF writer does not check for overlapping segments; what it emits is the image of the segments if and
  only if they are ordered (`ElfImage.FlatImageExact`, `ElfImage.OverlapAccepted`).
- The row validator of the writeback benchmark divides without rounding up, and wants directory syncs from every
  cell. A row of the payload passes if and only if its cell is a stream, or small files whose size the block
  divides; rows of read cells never pass (`Rows.ValidRows`, `Rows.RejectedRows`).
- A worker's own verification does not look for extra files beside a data file; the final verifier does
  (`WorkerSession.NeighbourPasses`, `OutputTree.VerifyOutputs`).
- The separation rule of the DAX comparison looks at one cut only, so the registered rule finds splits that it
  misses, exactly when the cut of largest gap does not qualify and another does (`Separation.DaxLooksAtOneCut`,
  `Separation.RegisteredSplitsMore`).
- The validator of a counter contract lets the payload and the background count share a label with a bucket or with
  each other. Counters for all requests and background counts exist if and only if they do not
  (`WriteSizes.CountersExist`, `WriteSizes.SharedLabelAccepted`, `WriteSizes.SharedBackgroundAccepted`).
- The size counters are not checked against their histogram. Accepted counters are those of some requests if and only
  if their payload lies between the fewest and the most bytes of the histogram (`WriteSizes.AcceptedIsReal`,
  `WriteSizes.ImplausibleAccepted`).

## Model

| member | source | states |
|---|---|---|
| PhaseTeam.Collect | benchmark/filesystem/curves_guest.rs:544-563 | For every queue of events and every expected phase: success if and only if the first N events are successful, of that phase and from N different workers; then the result is their sum |
| PhaseStats.SumWhereChoose | benchmark/filesystem/curves_guest.rs:256-272 | Accepting one more worker, whichever and whenever, adds exactly its counters to the running sum |
| TeamInvariant.StepKeepsInv | benchmark/filesystem/curves_guest.rs:462-589 | Every enabled step of the coordinator or of any worker keeps the invariant: who holds the mutex, what each worker has started and finished, the barrier, the channel contents, the partial sum, no lost wakeup |
| TeamInvariant.RunInv | benchmark/filesystem/curves_guest.rs:462-589 | The invariant holds in every state of every schedule, for any number of workers, with failures anywhere |
| TeamInvariant.NotClosed | benchmark/filesystem/curves_guest.rs:544-552 | While `collect` waits on an empty channel some worker has not exited, so the channel cannot be found closed |
| TeamTheorems.WorkersFollowPhases | benchmark/filesystem/curves_guest.rs:496-574 | In every schedule each worker's generation is the published one or one less, and what it has started is exactly the published phases up to its generation: no skip, repeat or stale phase |
| TeamTheorems.NobodyRunsAhead | benchmark/filesystem/curves_guest.rs:565-574 | No worker starts phase k+1 before all workers have finished phase k |
| TeamTheorems.CollectReturnsTheSum | benchmark/filesystem/curves_guest.rs:544-574 | Whatever fails later, a phase that returned did so after all N workers completed it, and returned the sum of exactly their counters for that phase |
| TeamTheorems.FailuresAreReal | benchmark/filesystem/curves_guest.rs:544-563 | The duplicate check and the closed-channel error never fire in any schedule; a reported worker failure names a worker that failed |
| TeamTheorems.FaultFree | benchmark/filesystem/curves_guest.rs:544-563 | A schedule without faults never reports a failure |
| TeamTheorems.CollectNeverStuck | benchmark/filesystem/curves_guest.rs:503-563 | While `collect` runs, it can finish, an event is waiting, or some worker can step without a fault and without a spurious wakeup |
| TeamTheorems.NeverStuck | benchmark/filesystem/curves_guest.rs:462-589 | Until the team is gone, some step that is neither a fault nor a spurious wakeup is possible |
| TeamTheorems.CollectTerminates | benchmark/filesystem/curves_guest.rs:503-563 | Over any stretch of any schedule inside `collect`, the number of steps is at most the rank where the stretch begins plus three for every spurious wakeup in it |
| TeamTheorems.SpuriousWakeRank | benchmark/filesystem/curves_guest.rs:503-507 | Inside `collect` a worker that wakes for no reason finds nothing to do: the rank rises by exactly two |
| TeamTheorems.TeardownTerminates | benchmark/filesystem/curves_guest.rs:577-589 | After `drop` has notified, every further step of any kind lowers a rank, so teardown takes a bounded number of steps |
| TeamTheorems.GoneMeansExited | benchmark/filesystem/curves_guest.rs:577-589 | When the team is gone, every thread that was spawned has exited |
| TeamTheorems.NoPhaseAfterStop | benchmark/filesystem/curves_guest.rs:508-510 | Once stopping is set no worker starts another phase |
| CompactBundle.RunEnd | fw/bin2cbundle.py:147 | The maximal run of equal bytes from a position |
| CompactBundle.NextMatch | fw/bin2cbundle.py:147 | The leftmost match of the run expression from a position, or none: the first maximal run of at least 256 equal bytes |
| CompactBundle.EmitLiteral | fw/bin2cbundle.py:148-156 | Emitting the bytes before a match keeps the encoder's invariant and never leaves two literals side by side |
| CompactBundle.EncodeMatch | fw/bin2cbundle.py:147-153 | One turn of the loop keeps the encoder's invariant and finds the next match |
| CompactBundle.CompactChunks | fw/bin2cbundle.py:142-157 | For every image: decoding returns it with all reads in bounds, literal sources tile the payload in order, the fills are exactly the maximal runs of at least 256 bytes, and the payload holds exactly the bytes in no such run |
| CompactBundle.PayloadIsMinimal | fw/bin2cbundle.py:142-157 | No chunk list with fills of at least 256 bytes and consecutive literal sources encodes the image with a smaller payload |
| CompactBundle.LiteralsNeeded | fw/bin2cbundle.py:142-157 | Up to every chunk of any such encoding, its literals cover at least the bytes that lie in no long run |
| KernelLoader.AlignUp | fw/bin2cbundle.py:190 | Adding and masking gives the first multiple of the power-of-two alignment at or above the mapping's address |
| KernelLoader.TrimsWholePages | fw/bin2cbundle.py:191-196 | With page-aligned mappings both trimmed pieces start and end on page boundaries |
| KernelLoader.Bundle.Init | fw/bin2cbundle.py:183-208 | Nothing if mmap fails; otherwise exactly the decoded image stays mapped, at an aligned address within one alignment unit of what mmap returned |
| KernelLoader.Reserve | fw/bin2cbundle.py:185-196 | After both trims exactly the image size stays mapped, zero-filled, at the first aligned address of the reservation |
| KernelLoader.Mapping.Unmap | fw/bin2cbundle.py:192-196 | Unmapping at either end removes that range and keeps the address and the contents of the rest |
| KernelLoader.Bundle.Free | fw/bin2cbundle.py:209-213 | The destructor leaves nothing mapped |
| KernelLoader.ReplayChunk | fw/bin2cbundle.py:200-206 | One turn writes the chunk's bytes at its place and nothing else, and leaves zero fills to the fresh mapping |
| KernelLoader.Replay | fw/bin2cbundle.py:198-207 | Replaying any chunk table that covers the mapping over zeros rebuilds the decoded image although zero fills are skipped; every write stays inside what is mapped |
| KernelLoader.CompactAndLoad | fw/bin2cbundle.py:142-220 | Encoding any image, running the constructor and asking for the kernel gives the image and its size at an aligned address; the destructor then leaves nothing mapped |
| CLiterals.WritePadding | fw/bin2cbundle.py:16-26 | Writes the escapes of that many zero bytes from the given column; nothing for a negative count |
| CLiterals.WriteBytes | fw/bin2cbundle.py:52-59 | Writes the escapes of the bytes with a line break after every sixteenth column, and returns the column modulo sixteen |
| CLiterals.EmitSpells | fw/bin2cbundle.py:11-26 | From every column, the emitted text lexed with maximal-munch hex escapes and literal concatenation gives exactly the bytes |
| CLiterals.SpellsConcat | fw/bin2cbundle.py:46-67 | Pieces written one after the other from any columns spell the concatenation, so the column that `write_padding` does not return is harmless |
| CLiterals.EmitStaysOnLine | fw/bin2cbundle.py:52-59 | Bytes that do not fill the line are written without a line break |
| CLiterals.EmitFillsLine | fw/bin2cbundle.py:52-59 | The sixteenth byte of a line is followed by the end of the line, and the rest begins the next one |
| CLiterals.DefinitionReadsBack | fw/bin2cbundle.py:93-112 | Between the header's quote and the footer's quote and semicolon the literal denotes the bytes, so `sizeof - 1` is their number |
| CLiterals.WritePayload | fw/bin2cbundle.py:166-170 | The payload in lines of sixteen two-digit escapes denotes the payload, also when it is empty |
| ElfImage.LoadAddressIsRemainder | fw/bin2cbundle.py:130 | Masking a virtual address with 0xfffffff is its remainder modulo 2^28 |
| ElfImage.ImageUnique | fw/bin2cbundle.py:125-139 | At most one byte string holds each segment at its offset, zeros elsewhere, and has the least page multiple covering the end as length |
| ElfImage.ReadElfBundle | fw/bin2cbundle.py:125-139 | Accepts if and only if there is a loadable segment and each starts at or after the end of the previous one and the load address; the result is that image with the load and entry addresses |
| ElfImage.WriteElfBundle | fw/bin2cbundle.py:29-69 | The per-segment assertion holds throughout if and only if the first physical address is the load address; the text then spells the flat image, with the load and entry addresses |
| ElfImage.WritersAgree | fw/bin2cbundle.py:29-69 | On ordered segments the flat image is the reader's image |
| ElfImage.FlatExcess | fw/bin2cbundle.py:42-63 | Before rounding, the flat writer emits at least the extent of the segments, and exactly that if and only if they are ordered |
| ElfImage.FlatSizeExact | fw/bin2cbundle.py:42-67 | The flat image has the rounded size if and only if the segments are ordered |
| ElfImage.FlatImageExact | fw/bin2cbundle.py:42-67 | What the flat writer emits is the image of the segments if and only if they are ordered |
| ElfImage.OverlapAccepted | fw/bin2cbundle.py:42-67 | Two overlapping segments that the flat writer accepts, and for every page size what it emits is not their image |
| ElfImage.RoundedBounds | fw/bin2cbundle.py:65 | The rounded size is the least page multiple at or above the total |
| ElfImage.WriteRawBundle | fw/bin2cbundle.py:72-90 | The text spells the file followed by fewer zeros than a page, up to a page multiple |
| ElfImage.SelectSegments | fw/bin2cbundle.py:33-36 | The selected segments are those of the PT_LOAD headers, each once and in the order of the headers: strictly increasing indices say where each comes from, and no loadable header is left out |
| ElfImage.LoadSelects | fw/bin2cbundle.py:127 | The list that the other contracts name is that selection |
| ElfImage.SelectionUnique | fw/bin2cbundle.py:127 | There is exactly one such selection |
| ElfImage.ReadSegments | fw/bin2cbundle.py:131-137 | The loop succeeds exactly on ordered segments and gives their bytes at their places with zeros between |
| Firmware.WriteCompact | fw/bin2cbundle.py:160-175 | The compact file is written if and only if the reader accepts the kernel and its image is not empty; its literals lex to a payload and its table text reads back as chunks that together decode to the image of the segments |
| ChunkTable.WriteTable | fw/bin2cbundle.py:172-175 | A reader of C initializers gets exactly the chunks back from the text of the table, for every list of chunks |
| ChunkTable.TableReadsBack | fw/bin2cbundle.py:172-175 | Lexing and parsing the rows with their braces, commas, minus signs and the closing line inverts printing them |
| ChunkTable.SpellsRow | fw/bin2cbundle.py:173-174 | The text of one row lexes to the tokens of that row, whatever text follows |
| Firmware.LoadLibrary | fw/bin2cbundle.py:183-219 | Loading the library gives the decoded image and its size at an aligned address of the reservation, or size zero exactly when mmap fails |
| Firmware.BuildAndLoad | fw/bin2cbundle.py:160-220 | From the ELF file to guest memory: for the length the constructor asks for, the size handed out is zero if and only if mmap fails; otherwise the kernel is the whole image of the segments, at an aligned address less than one alignment unit above what mmap returned |
| Plan.ReadPlan | benchmark/filesystem/curves_guest.rs:80-150 | Accepts a text if and only if it is at most 1 MiB, every non-empty line has six well-formed fields within the limits, identities are distinct and there are 1 to 256 cells; returns exactly the cells the lines denote |
| Plan.PlanRoundTrip | benchmark/filesystem/curves.py:132-147 | For every list of 1 to 256 cells with distinct identities within the limits, the printed plan is accepted and denotes that list |
| Plan.PrintThenRead | benchmark/filesystem/curves_guest.rs:88-150 | Reading the printed plan returns exactly the cells |
| Plan.PlansAreAscii | benchmark/filesystem/curves_guest.rs:88-150 | Every accepted text is ASCII, so text that is not UTF-8 is rejected by the line checks already |
| Plan.ParsedExactly | benchmark/filesystem/curves_guest.rs:88-150 | A line is parsed to a cell if and only if it is six fields between tabs that spell the cell, leading zeros included, within the limits |
| Plan.LinesAreText | benchmark/filesystem/curves_guest.rs:93-98 | The lines with their ends, a newline and an optional carriage return before it, are the whole text |
| Plan.PlanSpells | benchmark/filesystem/curves_guest.rs:88-150 | Every cell of an accepted plan is within the limits and spelled by its line |
| Plan.ParseLineBack | benchmark/filesystem/curves_guest.rs:97-144 | Splitting and parsing a printed line gives the cell back |
| Plan.LinesOfText | benchmark/filesystem/curves_guest.rs:93 | The lines of a printed plan are its printed cells, one each |
| Pattern.UnMixMix | benchmark/filesystem/curves_guest.rs:167-170 | The 64-bit mix has a left inverse |
| Pattern.MixUnMix | benchmark/filesystem/curves_guest.rs:167-170 | The same function is its right inverse, so the mix is a bijection |
| Pattern.FillPattern | benchmark/filesystem/curves_guest.rs:164-174 | The buffer filled in place agrees with the random-access formula at every byte offset |
| Pattern.WordInjective | benchmark/filesystem/curves_guest.rs:158-174 | Different word indices below 2^64 give different words |
| Pattern.WordsDistinct | benchmark/filesystem/curves_guest.rs:158-174 | Any two full 8-byte words of one file differ |
| Pattern.WorkersDiffer | benchmark/filesystem/curves_guest.rs:152-174 | Two workers of a cell in the same round differ at every full word |
| Pattern.RoundsDiffer | benchmark/filesystem/curves_guest.rs:152-174 | Two rounds of one worker differ at every full word |
| Pattern.FnvOneByte | benchmark/filesystem/curves_guest.rs:152-156 | Names of equal length that differ in exactly one byte have different hashes |
| Pattern.CellsDiffer | benchmark/filesystem/curves_guest.rs:158-162 | Cells with different hashes differ at every full word, for the same worker and round |
| Contents.Generate | benchmark/filesystem/curves_guest.rs:284-289 | The data of a session or of the verifier is what `pattern` returns for the seed of cell, worker and round, the round being zero for a read set |
| Contents.WorkersWriteDifferent | benchmark/filesystem/curves_guest.rs:158-176 | Two workers of a cell write different words everywhere |
| Contents.RoundsWriteDifferent | benchmark/filesystem/curves_guest.rs:158-176 | A worker writes different words everywhere in two rounds |
| Contents.CellsWriteDifferent | benchmark/filesystem/curves_guest.rs:152-176 | Cells whose names differ in one character write different words everywhere |
| Files.VerifyFile | benchmark/filesystem/curves_guest.rs:203-228 | The comparison in 64 KiB blocks accepts exactly the regular file with the expected bytes |
| Files.IndexedDecided | benchmark/filesystem/curves_guest.rs:417-426 | Once every expected member is in place, the number of members decides whether there is anything else |
| Decimal.PaddedWidth | benchmark/filesystem/curves_guest.rs:338-341 | A padded number is the number's digits after as many zeros as the width asks for |
| WorkerSession.FsyncStep | benchmark/filesystem/curves_guest.rs:374-379 | A sync after every k-th chunk makes exactly the integer quotient of chunks by k |
| WorkerSession.Prepare | benchmark/filesystem/curves_guest.rs:283-337 | Succeeds if and only if the directory is absent, or for a later read round holds the data file; a first read round writes exactly its data |
| WorkerSession.WriteReadSet | benchmark/filesystem/curves_guest.rs:313-315 | Writing in 1 MiB chunks at their offsets leaves exactly the data |
| WorkerSession.Session.ReadChunk | benchmark/filesystem/curves_guest.rs:349-358 | One measured read extends what was observed by exactly that part of the file, or fails on a short file |
| WorkerSession.Session.WriteChunk | benchmark/filesystem/curves_guest.rs:359-371 | One measured write extends the data file by its chunk, or adds the small file of that chunk under a name not yet used |
| WorkerSession.CountWrite | benchmark/filesystem/curves_guest.rs:359-383 | The counters after one more write, with its periodic sync and small-file close, in closed form |
| WorkerSession.CountRead | benchmark/filesystem/curves_guest.rs:355-356 | The counters after one more read, in closed form |
| WorkerSession.Session.Accepted | benchmark/filesystem/curves_guest.rs:346-385 | Fails if and only if a read cell's file is too short; otherwise the directory holds exactly the data, or what was observed is the file's prefix, with the counters in closed form |
| WorkerSession.Session.Sync | benchmark/filesystem/curves_guest.rs:392-409 | Succeeds if and only if all small files are there; one sync for a stream, one sync and close per small file, none for a read |
| WorkerSession.Session.Execute | benchmark/filesystem/curves_guest.rs:343-438 | Each phase, asked for in a state where it may be, has exactly the outcome of the phase relation: success or failure, counters and new state |
| WorkerSession.Session.Verify | benchmark/filesystem/curves_guest.rs:416-435 | Small files pass if and only if the directory is exactly the expected one; a data file passes if and only if its bytes, and for a read cell what was observed, are the data |
| WorkerSession.NeighbourPasses | benchmark/filesystem/curves_guest.rs:427-433 | For every data file and every other member beside it, the session is content although the directory is not the expected one |
| WorkerSession.PhasesAddUp | benchmark/filesystem/curves_guest.rs:678-707 | The counters of all phases of a worker add up to one closed form |
| WorkerSession.RunWorker | benchmark/filesystem/curves_guest.rs:283-438 | From preparation to verification a worker succeeds if and only if it starts from nothing, or for a later read round from its own data; it leaves exactly its directory and the closed-form counters |
| OutputTree.VerifyWorker | benchmark/filesystem/curves_guest.rs:876-894 | Accepts exactly the expected worker directory and counts its files |
| OutputTree.VerifyRound | benchmark/filesystem/curves_guest.rs:855-896 | Accepts exactly the expected round directory |
| OutputTree.VerifyCell | benchmark/filesystem/curves_guest.rs:841-897 | Accepts exactly the expected cell directory; a read set is checked and counted in every round |
| OutputTree.VerifyOutputs | benchmark/filesystem/curves_guest.rs:832-913 | Accepts if and only if the output tree has exactly the expected names with exactly the expected bytes, and reports the file and byte totals |
| TreeContents.FoundIs | benchmark/filesystem/curves_guest.rs:864-893 | In the accepted tree of every plan the directory of each worker of each round is in its place and holds that worker's bytes; small files joined by number are the data |
| TreeContents.WorkersLeaveDifferent | benchmark/filesystem/curves_guest.rs:864-893 | In the tree of every plan the contents found at two workers of a round differ at every full word |
| TreeContents.RoundsLeaveDifferent | benchmark/filesystem/curves_guest.rs:864-893 | In the tree of every plan the contents found at one writing worker in two rounds differ at every full word |
| TreeContents.WordsLeaveDifferent | benchmark/filesystem/curves_guest.rs:166-176 | No two full words that a worker has left are equal |
| TreeContents.TotalsAreFound | benchmark/filesystem/curves_guest.rs:838-893 | The totals the verifier reports are the number and the lengths of the files found in the tree, a read set counted in every round |
| TreeContents.CountersMatchDirectory | benchmark/filesystem/curves_guest.rs:343-438 | A worker's counters are those of the directory it leaves: every byte written or read once and verified once, every file closed once, small files created and synced once, and as many operations as blocks cover the data |
| TreeContents.PeriodicSyncs | benchmark/filesystem/curves_guest.rs:346-385 | A writing worker syncs once for every full group of writes, and never if the group size is zero |
| TreeContents.VerifiedMeansWritten | benchmark/filesystem/curves_guest.rs:416-435 | A session's own verification passes only when its directory holds exactly its data, with nothing else among small files |
| InterleavedRound.ScriptMoves | benchmark/filesystem/curves_guest.rs:343-438 | Each phase of a cell in turn finds the session ready, can only succeed, and determines the next state and all counters but the measured time |
| InterleavedRound.PrepareWorker | benchmark/filesystem/curves_guest.rs:670-672 | Preparing a worker succeeds exactly when its place is free, or holds a data file that a later round reuses; the session then has what lies there |
| InterleavedRound.RunAgrees | benchmark/filesystem/curves_guest.rs:496-574 | In every schedule of the team each worker's session is where the worker's finished phases put it, and every finished result has the phase's counters |
| InterleavedRound.RunningSucceeds | benchmark/filesystem/curves_guest.rs:512-520 | In every schedule a worker in the middle of a phase has a session that is ready for it and can only succeed: without system faults no worker fails |
| InterleavedRound.RoundLeaves | benchmark/filesystem/curves_guest.rs:670-707 | Every schedule that finishes the phases leaves exactly the round's directory, whatever the interleaving of the workers |
| InterleavedRound.RoundReturns | benchmark/filesystem/curves_guest.rs:678-707 | Every such schedule returns results that add up to exactly N times the counters of one worker |
| RoundProgress.SomeStepAdvances | benchmark/filesystem/curves_guest.rs:462-574 | In every reachable state without faults that has not finished the phases, some step other than a fault brings the round closer to its end: more phases published, a later place in the phase, or a lower rank |
| RoundProgress.CanFinish | benchmark/filesystem/curves_guest.rs:462-574 | Every schedule without a fault so far can be continued to one that finishes the round, with the sessions behind its workers |
| RoundProgress.RoundCanFinish | benchmark/filesystem/curves_guest.rs:670-707 | Every round of every cell has a schedule that finishes it, so the theorems about finishing schedules are not about nothing |
| InterleavedRun.RoundEndRight | benchmark/filesystem/curves_guest.rs:656-707 | Prepared from what lies in the round's directory and run under any finishing schedule, the round leaves exactly its directory |
| InterleavedRun.CellLeaves | benchmark/filesystem/curves_guest.rs:648-707 | Whatever the schedule, a cell in its place gains exactly that round, nothing else in the output changes, and its row has N times the counters of one worker |
| InterleavedRun.CellCanRun | benchmark/filesystem/curves_guest.rs:648-707 | A cell in its place can be run: some schedule finishes its round |
| InterleavedRun.NothingOverwritten | benchmark/filesystem/curves_guest.rs:648-676 | Whatever lies in the output, a cell that runs leaves other cells and its earlier rounds as they were; a first round needs a free place |
| InterleavedRun.AnyRunLeaves | benchmark/filesystem/curves_guest.rs:965-970 | The whole run: with any finishing schedule for every cell of every round, applied in order, the output is exactly the expected tree |
| InterleavedRun.AnyRunReports | benchmark/filesystem/curves_guest.rs:965-970 | Every such run reports all cells of all rounds in order, each with exactly its counters |
| InterleavedRun.SomeRunExists | benchmark/filesystem/curves_guest.rs:965-970 | For every plan and number of rounds there is such a run |
| InterleavedRun.VerifyAnyRun | benchmark/filesystem/curves_guest.rs:832-970 | The final verifier accepts what any such run leaves, with its numbers of files and bytes |
| Histories.RunReaches | benchmark/filesystem/curves_guest.rs:965-970 | For any step relation taken in rounds: what every step keeps holds after the last one |
| Histories.RowsAreRight | benchmark/filesystem/curves_guest.rs:965-970 | Row k of such a run belongs to index k mod n of round k div n + 1 |
| OutputTree.Run | benchmark/filesystem/curves_guest.rs:965-970 | From a fresh directory the whole run succeeds for every plan and number of rounds, leaves exactly the expected tree, and reports each cell of each round in order |
| OutputTree.RunThenVerify | benchmark/filesystem/curves_guest.rs:832-970 | The verifier accepts what any run leaves |
| Rows.RunAndReport | benchmark/filesystem/guest_writeback_guest.rs:639-756 | A round of a cell in its place always reports a row that names the cell, counts its final syncs, closes and directory syncs, and whose durations laid end to end reach every reading of the clock; the validator passes it if and only if the cell is a stream, or small files whose size the block divides |
| Rows.RowTells | benchmark/filesystem/guest_writeback_guest.rs:707-756 | The times, the identity and the counts of the row, for every clock |
| Rows.ValidRowDetermined | benchmark/filesystem/guest_writeback_curves.py:252-278 | Among all rows with the same cell and the same four measured times exactly one total, one set of counts and, for a stream, one boundary pass the validator |
| Rows.SomeRowIsValid | benchmark/filesystem/guest_writeback_curves.py:252-278 | For every cell and all times some row passes |
| Rows.SyncDirectories | benchmark/filesystem/guest_writeback_guest.rs:670-687 | In the output a round leaves all its directories can be synced: workers plus four, none for a read cell |
| Rows.RunsReport | benchmark/filesystem/guest_writeback_guest.rs:332-421 | The summed counters of every cell always meet that condition |
| Rows.FinalCounts | benchmark/filesystem/guest_writeback_guest.rs:375-398 | Final syncs and closes are workers times files per worker, with files rounded up, and there is no barrier |
| Rows.ValidRows | benchmark/filesystem/guest_writeback_curves.py:252-278 | For every cell and every clock: the validator passes the reported row if and only if the cell is a stream, or small files whose size the block divides |
| Rows.RejectedRows | benchmark/filesystem/guest_writeback_curves.py:252-278 | Two cells the parser accepts whose rows the validator rejects: 4097 bytes in files of 4096, and a read cell |
| Rows.RowDecided | benchmark/filesystem/guest_writeback_curves.py:260-273 | The phase times always partition the total, so only the sync and close counts and the workload decide |
| Rows.CellFits | benchmark/filesystem/curves_guest.rs:346-385 | In an accepted cell no operation count over all workers and no chunk end exceeds 512 MiB |
| Rows.RoundFits | benchmark/filesystem/curves_guest.rs:131-144 | In an accepted cell a round has at most 512 MiB and 65536 files over all workers |
| Rows.RunFits | benchmark/filesystem/curves_guest.rs:675 | For every accepted plan and at most 16 rounds the verified bytes stay within 2^41, the files within 2^28 and every token within 8192 |
| Measurements.Delta | benchmark/filesystem/curves_diagnostics.py:80-99 | Fails if and only if some counter, bucket or maximum decreases; otherwise gives the difference for every label of either side |
| Measurements.MonotoneMeans | benchmark/filesystem/curves_diagnostics.py:80-99 | A profile follows another if and only if none of the eight counters of any label and no maximum decreases |
| ProfileLog.CollectProfiles | benchmark/filesystem/curves_diagnostics.py:102-138 | Accepts a log if and only if starts are unique and precede reports, each started identity has one final report which is its last, all reports of an identity are pairwise monotone, and the components match as a multiset; finds exactly the final reports |
| ProfileOrder.CollectSorted | benchmark/filesystem/curves_diagnostics.py:102-138 | Accepts exactly the same logs and lists the final reports in order of pid, component and instance |
| ProfileOrder.SortKeys | benchmark/filesystem/curves_diagnostics.py:138 | Lists a set of identities in tuple order |
| ProfileOrder.SortedUnique | benchmark/filesystem/curves_diagnostics.py:138 | That order admits one list only |
| ProfileOrder.SortedGroups | benchmark/filesystem/curves_diagnostics.py:136 | In a sorted list the identities of a process stand together, and within it those of a component by rising instance |
| ProfileLog.ReportConsistent | benchmark/filesystem/curves_diagnostics.py:119-130 | Comparing a report with the last one of its identity alone puts it in order with all earlier ones |
| ProfileLog.CountComponents | benchmark/filesystem/curves_diagnostics.py:133 | The multiset of components of the started identities |
| ProfileLog.FinalIsUniqueAndLast | benchmark/filesystem/curves_diagnostics.py:119-132 | In an accepted log a final report is the only one and above every other report of its identity |
| PhaseIntervals.EmitTokens | benchmark/filesystem/curves_guest.rs:675-705 | The markers of a run are 1, 2, ... up to twice the cells times rounds, in order |
| PhaseIntervals.SlotsPairUp | benchmark/filesystem/curves_diagnostics.py:205-207 | Rounds and cells correspond one to one to token pairs |
| PhaseIntervals.ReadPhases | benchmark/filesystem/curves_diagnostics.py:161-190 | Accepts if and only if all records are valid with distinct tokens over one set of identities; gathers exactly those records |
| PhaseIntervals.OneSnapshotEach | benchmark/filesystem/curves_diagnostics.py:171-183 | A valid record has exactly one snapshot of every owner, none of anything else, and none is final |
| PhaseIntervals.CheckTimeline | benchmark/filesystem/curves_diagnostics.py:196-203 | Passes if and only if every identity's counters ascend from token to token and up to its final report |
| PhaseIntervals.CorrectedCounts | benchmark/filesystem/curves_diagnostics.py:139-156 | Fails if and only if the marker's own counts are missing: one IOCTL call and 80 request bytes of the protocol, one direct request of the dispatcher; otherwise takes off exactly these and nothing else |
| PhaseIntervals.CellRows | benchmark/filesystem/curves_diagnostics.py:208-225 | One row for each identity between the cell's two tokens, or a named reason why not |
| PhaseIntervals.BuildTable | benchmark/filesystem/curves_diagnostics.py:204-226 | Each cell of each round gets the rows of its own two tokens |
| ProfileOrder.ListRows | benchmark/filesystem/curves_diagnostics.py:204-226 | The rows are listed cell by cell and within a cell in order of identity: row i is identity i mod m of cell i div m |
| PhaseAccounting.CollectPhases | benchmark/filesystem/curves_diagnostics.py:159-226 | Fails on valid records if and only if a token is missing or extra, a counter decreases or exceeds its final report, or a marker is missing; otherwise pairs each cell with its own interval |
| PhaseAccounting.CollectRows | benchmark/filesystem/curves_diagnostics.py:159-226 | The list that is returned: empty exactly without phase records, otherwise row i is identity i mod m, in order, of cell i div m, with that cell's name, round, tokens and growth; rejects exactly the defective records |
| PhaseAccounting.Account | benchmark/filesystem/curves_diagnostics.py:191-226 | The same for gathered records |
| PhaseAccounting.AccountedIsSound | benchmark/filesystem/curves_diagnostics.py:191-226 | Accepted records have none of the defects |
| PhaseAccounting.IntervalsWithinFinal | benchmark/filesystem/curves_diagnostics.py:196-226 | For every identity, label and additive counter, the sum over all cells is at most the final counter |
| Aggregation.Aggregate | benchmark/filesystem/curves_diagnostics.py:229-244 | The loop computes the aggregate of the records |
| Aggregation.AggregateMeaning | benchmark/filesystem/curves_diagnostics.py:229-244 | Every counter of the aggregate is the sum over the component's records, and the maximum is their maximum |
| Aggregation.AggConcat | benchmark/filesystem/curves_diagnostics.py:229-244 | Aggregating a concatenation is merging the aggregates |
| Aggregation.MergeAllSelects | benchmark/filesystem/curves_diagnostics.py:315-325 | Merging the aggregates of distinct conditions, in any order, aggregates their trials |
| Aggregation.GroupingPreservesTotals | benchmark/filesystem/curves_diagnostics.py:315-325 | The condition aggregates merge to the aggregate of all accepted finals |
| Aggregation.Group | benchmark/filesystem/curves_diagnostics.py:287-316 | The loop groups the finals by condition and collects all of them |
| Aggregation.SummarizeTrials | benchmark/filesystem/curves_diagnostics.py:287-325 | The grouping loop and the aggregates after it: each condition has the aggregate of its own trials and the total that of all |
| Aggregation.ConditionsAddUp | benchmark/filesystem/curves_diagnostics.py:324-325 | The reported totals of the conditions, merged in any order, are the reported total |
| Aggregation.SummaryMeaning | benchmark/filesystem/curves_diagnostics.py:324-325 | Every counter of a reported total is the sum over the trials it is about, and its maximum their maximum |
| Aggregation.PresentExactly | benchmark/filesystem/curves_diagnostics.py:229-244 | A label is in the aggregate of a component exactly when some record of the component has it |
| Diagnostics.FoundUnique | benchmark/filesystem/curves_diagnostics.py:297-301 | A log determines its final reports, its list and its phase records |
| Diagnostics.CollectTrial | benchmark/filesystem/curves_diagnostics.py:288-316 | A trial is rejected if and only if it failed, its log is not acceptable, its records are invalid or defective, they are missing and the trial is not native, or its totals fail the host check; otherwise its list and rows are those of the log |
| Diagnostics.SummarizeBatch | benchmark/filesystem/curves_diagnostics.py:287-325 | The summary fails if and only if some trial is rejected; otherwise it reports every trial, in order, with the condition, final reports, phase rows and host counters that its log determines, and its totals are the aggregates of all final reports and of those of each condition |
| Diagnostics.SummaryAdds | benchmark/filesystem/curves_diagnostics.py:317-325 | Every counter of the summary is the sum of that counter over the final reports of the trials it is about |
| Diagnostics.HostBalances | benchmark/filesystem/curves_diagnostics.py:247-271 | In every accepted trial, summed over its overlay reports: nothing was enabled without writeback on the host; with it, it was enabled once, nothing failed, and all accepted bytes and requests went through the queue and reached the backing store |
| Diagnostics.HostReported | benchmark/filesystem/curves_diagnostics.py:248-253 | The host counters of a trial are exactly the labels of its overlay reports with that prefix, each with its sum |
| Diagnostics.OneInstanceEach | benchmark/filesystem/curves_diagnostics.py:100-106 | An accepted log has one identity of every owner and no other, and a native one none |
| Samples.SortCorrect | benchmark/filesystem/curves_analysis.py:94 | The sort is a permutation of the indexed values, ascending, and stable |
| Samples.SplitIndices | benchmark/filesystem/curves_analysis.py:109-118 | The indices on both sides of a cut are together all original indices, each once |
| Samples.MedianBetween | benchmark/filesystem/curves_analysis.py:102 | A median lies between the smallest and the largest value |
| Samples.MedianHalves | benchmark/filesystem/curves_analysis.py:102 | At least half of a sorted sample is at or below its median and at least half at or above it |
| Samples.MedianMirrors | benchmark/filesystem/curves_analysis.py:102 | The median of the negated, reversed sample is the negated median |
| Samples.MedianScales | benchmark/filesystem/curves_analysis.py:102 | Scaling and shifting the sample scales and shifts the median |
| Samples.SampleHalves | benchmark/filesystem/docs_retest_analysis.py:13-14 | The same halves for the sample in the order it was measured |
| Samples.OrderedKeeps | benchmark/filesystem/docs_retest_analysis.py:13 | Sorting keeps every value as often as it was measured |
| Clusters.GreedyStep | benchmark/filesystem/docs_retest_analysis.py:16-18 | After every index the greedy cuts stay ahead of every other admissible cut list: at least as many, each no later |
| Clusters.Cut | benchmark/filesystem/docs_retest_analysis.py:15-19 | The cuts tile the sample, no division with gaps above the threshold and parts of at least three has more parts, and each cut comes no later than the same cut of any division |
| Clusters.GreedyOptimal | benchmark/filesystem/docs_retest_analysis.py:15-19 | Staying ahead makes the final division optimal, although the loop stops two indices before the end |
| Clusters.GreedyEarliest | benchmark/filesystem/docs_retest_analysis.py:15-19 | Staying ahead makes every cut the earliest among all divisions |
| Clusters.OneGreedyDivision | benchmark/filesystem/docs_retest_analysis.py:15-19 | Optimal and earliest together determine the cuts: there is one such division |
| Clusters.PartsTile | benchmark/filesystem/docs_retest_analysis.py:20-23 | The parts in order are the sorted sample |
| Clusters.Summarize | benchmark/filesystem/docs_retest_analysis.py:20-23 | Size and median of each part |
| Clusters.ClusterTells | benchmark/filesystem/docs_retest_analysis.py:20-23 | Each reported cluster has the size of its part, and half of the part lies on each side of its median in milliseconds |
| Clusters.SizesAddUp | benchmark/filesystem/docs_retest_analysis.py:20-23 | The reported sizes add up to the sample |
| Clusters.ThresholdMeans | benchmark/filesystem/docs_retest_analysis.py:14 | A gap counts if and only if it is above five milliseconds and above a tenth of the median |
| Clusters.FindClusters | benchmark/filesystem/docs_retest_analysis.py:11-23 | Fails only on an empty sample; otherwise describes the optimal division of the sorted sample whose cuts come earliest |
| Separation.Candidates | benchmark/filesystem/curves_analysis.py:95-104 | Collects exactly the qualifying cuts with their ratios |
| Separation.Largest | benchmark/filesystem/curves_analysis.py:107 | The largest gap, and among equal gaps the lowest cut |
| Separation.ChooseCut | benchmark/filesystem/curves_analysis.py:95-107 | None if and only if no cut qualifies; otherwise the best one |
| Separation.SeparatedDistribution | benchmark/filesystem/curves_analysis.py:74-130 | Fails if and only if labels do not match the values; not testable below six values; negative only if no cut qualifies; otherwise reports the clusters with their labels at the lowest cut of largest gap among all qualifying cuts |
| Separation.MembersPartition | benchmark/filesystem/curves_analysis.py:108-122 | Both clusters have at least three members, together all original indices once, and their fractions add up to one |
| Separation.ClustersDescribe | benchmark/filesystem/curves_analysis.py:113-127 | Each reported cluster has the values and labels at its own member indices, its least and greatest value bound them and are among them, half of them lie on each side of its median, and its fraction is its share |
| Separation.RatiosDescribe | benchmark/filesystem/curves_analysis.py:128-134 | The reported ratios are those of the upper least to the lower greatest value and of the two medians |
| Separation.MedianRatioAtLeastAdjacent | benchmark/filesystem/curves_analysis.py:101-103 | At every positive cut the median ratio is at least the adjacent ratio |
| Separation.LargestGap | benchmark/filesystem/dax_ab.py:333-334 | The highest cut of largest adjacent ratio, or a zero denominator |
| Separation.DaxSeparated | benchmark/filesystem/dax_ab.py:331-341 | Fails if and only if there are fewer than six values, a zero denominator, or a zero median at the chosen cut; otherwise gives size and median of both parts if the one cut of largest gap passes both thresholds, and nothing if it does not |
| Separation.DaxReport | benchmark/filesystem/dax_ab.py:335-340 | On positive samples the first part tells size and median of the values below the cut and the second of the others, each of at least three values, and the upper median is at least 1.7 times the lower |
| Separation.DaxSplitIsRegistered | benchmark/filesystem/dax_ab.py:331-340 | On positive samples, when the DAX rule splits, the registered rule splits too, with the same gap, at the same or a lower cut |
| Separation.DaxLooksAtOneCut | benchmark/filesystem/dax_ab.py:331-340 | On positive samples the DAX rule splits if and only if the cut of largest gap qualifies under the registered rule |
| Separation.RegisteredSplitsMore | benchmark/filesystem/dax_ab.py:331-340 | A sample that the registered rule splits and the DAX rule does not |
| Publication.ResultFile.Publish | benchmark/update.py:172-220 | Accepts or rejects by header, batch collision and protected target; writes only when accepted and not a dry run |
| Publication.PublishAll | benchmark/update.py:172-220 | Publishing any sequence of calls into an absent file ends in the state of the specification that the two rows below describe |
| Publication.FirstsInvariant | benchmark/update.py:197-219 | After every sequence of calls the file is one header and the tables of distinct batches in first-publication order |
| Publication.CallEffect | benchmark/update.py:208-219 | A call appends its table if its batch is new, acceptable and not a dry run, and changes nothing otherwise: republished, rejected and dry-run calls leave the file as it is |
| Publication.CsvTable | benchmark/docs.py:30-61 | Fails if and only if a row is out of scope or a row it shows has a wrong sample count or a statistic that is absent or not finite; otherwise shows for each label, column by column, the last row of its condition |
| Publication.ShownExactly | benchmark/docs.py:44-60 | A row can be shown if and only if its sample count is the configured one where it is asked for and every statistic asked for is finite; the cells then hold its batch, that count and those statistics, and without a row nothing |
| Publication.LatestRows | benchmark/docs.py:32-41 | The scan keeps exactly the last row of every condition |
| Publication.LatestBatchWins | benchmark/docs.py:32-44 | The row shown is that of the latest first-published batch containing the condition |
| Publication.LatestMissing | benchmark/docs.py:43-48 | Nothing is shown if and only if no published batch has the condition |
| WriteSizes.ValidateBuckets | benchmark/filesystem/guest_writeback_curves.py:94-112 | Accepts if and only if labels are distinct and non-empty, bounds increase, and exactly the last bucket is open |
| WriteSizes.ValidateContract | benchmark/filesystem/guest_writeback_curves.py:78-112 | Accepts if and only if the component is known, no label is empty and the buckets are valid |
| WriteSizes.UniqueBucket | benchmark/filesystem/guest_writeback_curves.py:94-112 | In accepted buckets every positive size fits exactly one |
| WriteSizes.TalliesCount | benchmark/filesystem/guest_writeback_curves.py:125-129 | Tallying any positive sizes gives a histogram that sums to their number |
| WriteSizes.Summarize | benchmark/filesystem/guest_writeback_curves.py:115-146 | Accepts if and only if histogram, background, count and bytes agree; reports them with the mean and the bounds of the largest occupied bucket |
| WriteSizes.CountedIsAccepted | benchmark/filesystem/guest_writeback_curves.py:126-130 | Counters that hold the tallies, the payload and the background count of positive requests are accepted |
| WriteSizes.MaximumWithinBounds | benchmark/filesystem/guest_writeback_curves.py:131-136 | For such counters the true maximum lies within the reported bounds |
| WriteSizes.CountersExist | benchmark/filesystem/guest_writeback_curves.py:78-130 | For a valid contract all positive sizes with every background count up to their number have such counters if and only if the payload and background labels differ from each other and from every bucket label |
| WriteSizes.SharedLabelAccepted | benchmark/filesystem/guest_writeback_curves.py:78-112 | A contract the validator accepts whose payload shares a bucket's label: a two-byte request has no counters, whatever its background count |
| WriteSizes.SharedBackgroundAccepted | benchmark/filesystem/guest_writeback_curves.py:78-112 | A contract the validator accepts whose background count shares a bucket's label: a two-byte request that is not in the background has no counters |
| WriteSizes.SizesAreBounded | benchmark/filesystem/guest_writeback_curves.py:115-146 | For every accepted contract with labels of their own, all positive sizes and any background count, the counters are accepted, hold that count and the payload, and bound the true maximum |
| WriteSizes.AcceptedIsReal | benchmark/filesystem/guest_writeback_curves.py:115-130 | Counters are those of some requests if and only if they are accepted and their payload lies between the fewest and the most bytes of their histogram |
| WriteSizes.ImplausibleAccepted | benchmark/filesystem/guest_writeback_curves.py:115-130 | Counters that are accepted and that no requests have: one request of at most 1024 bytes with 5000 bytes of payload |

## Left out

- WorkerSession.Session.Accepted: system calls on the worker's own files succeed here; the failures modelled are those the payload checks for, and the team model covers workers that fail anywhere.
- OutputTree.Run: its workers go one after the other; `InterleavedRun.AnyRunLeaves` and `InterleavedRun.AnyRunReports` give the same tree and rows for every schedule of the team.
- WorkerSession.Session.Execute: system calls succeed here, as in the phases it runs.
- Diagnostics.SummarizeBatch: the comparison of the batch's trials with its protocol and reading the files are not modelled; the host counters are any function of the totals, and `Diagnostics.HostWriteback` is that of the subject; the pair number of a trial is not modelled.
- Firmware.WriteCompact: the payload's literals and the chunk table are text; the C code between them is fixed text and is modelled by what it does (`KernelLoader`).
- OutputTree.VerifyOutputs: a symbolic link to a directory counts as that directory, as it does for the directory listing; a non-UTF-8 member name is not modelled.
- KernelLoader.AlignUp: the mapping and one alignment unit must not wrap around the address space.
- ElfImage.ReadElfBundle: parsing the ELF file into headers is not modelled; a segment's file size is the length of its data.
- ElfImage.WriteElfBundle: the rounding, which divides floating-point numbers exactly below 2^53, is integer rounding here.
- ProfileLog.CollectProfiles: lines are parsed records; the JSON and the field checks before them are not modelled.
- Publication.ResultFile.Publish: a file is its header and rows; encoding and decoding CSV text, and computing the metadata columns, are not modelled.
- Publication.CsvTable: a statistic is shown as its value; formatting it to two digits is not modelled.
- Rows.RunAndReport: a row holds the fields the validator reads; the other reported fields are not modelled.
- WriteSizes.ValidateContract: a contract has its fields by construction; the comparison of field names is not modelled.
- The team's generation counter is unbounded, and mutex poisoning after a panic is not modelled.
- Starting processes and virtual machines, control groups, hashing, plotting, documentation and translation checks.
- Bootstrap resampling and random ordering of trials.
- The receipt and provenance validators, which are long conjunctions of equality checks.
- Kernel behaviour described by patches: writeback, pressure stall information, watchdogs and idle handoff.
