# Verified models of the FSST codec and four supporting algorithms

This project models, in Dafny, the parts of dwarfs whose correctness depends on
invariants that one function sets up and another relies on, and proves what those
parts promise, for every input and every run.

* **The FSST string codec.** A dictionary of at most 255 symbols of one to eight bytes
  replaces text greedily by codes, with an escape byte for the rest. `Dictionary` says
  what that means. `SymbolTables` is the table under construction with its byte, pair
  and lossy-hash lookups (`Hashing` gives the hash bit by bit), updated in place in `TableUpdates`; `TrainingCounters` (in
  `Counters.dfy`), `SampleCount`, `Training` and `TableBuilding` grow it from a sample;
  `Finalizing` and `FinalTables` renumber it; `Compression` is the scalar compressor with
  its three branch variants; `Jobs` and `Batching` are the vectorised one, `BatchPlan` says
  which lines it completes and `BatchBudget` when they fit; `Decompression` is the
  four-codes-at-a-time decoder; `Header` is the serialized table; `RoundTrip` puts
  training, finalizing, compressing, shipping the table and decompressing together.
  `Bytes`, `Sums` and `CountingSort` serve all of them.
* **The command-line pipeline.** `Pipeline` is the transition system of the reader, the
  CPU loop and the writer with their eight binary semaphores, shutdown included, and
  its invariant; `PipelineRuns` proves every run safe and finite; `PipelineStall` shows
  that the one assumption made is exact; `Framing` is the block format the reader
  relies on.
* **Bit fields** over chunked storage (`BitView`), **exact decimal rounding** of ratios
  and its printed form (`Ratio`, `RatioText`), **file ranges** (`FileRanges`) and the
  **extent and segment walks** of a file (`FileExtents`).

Code that updates memory step by step is a method over arrays or a class, specified
against a function of values; code that computes is a function. Bytes are numbers from 0
to 255, offsets and sizes are unbounded naturals, and machine widths are written out where
the code depends on them: packed job fields, byte and nibble counters, 64-bit remainders,
the bits of a word.

Four promises turn out to depend on something the caller can check. For each the exact
condition is proved in both directions, with an input that fails where it does not hold:

* The filters that keep the terminator out of longer symbols compare a plain `char` with
  an unsigned number. They work if and only if `char` is unsigned or the terminator is
  below 128 (`Training.ExtensionsSoundIff`).
* The pipeline takes an empty output block for the end of the file. It is free of
  deadlock if and only if no block transforms to nothing
  (`PipelineStall.DeadlockFreeIffProductive`, `PipelineStall.EmptyResultStalls`).
* Two of the three compressor variants step over a zero byte of zero-terminated mode
  together with its successor (`Compression.VariantAdvanceExact`). What such a variant
  writes decodes to the line without those successors, and it is the greedy encoding of
  the line if and only if no zero stands before the last byte of one of its 511-byte
  chunks (`Dictionary.EncodesWholeIff`, `Dictionary.EncodesLineWholeIff`,
  `Dictionary.ByteBehindZeroLost`). The predicated variant and the vectorised compressor
  need no condition.
* The vectorised compressor is to complete only lines that fit the output buffer
  (fsst/fsst.h:130-142). Its budget is not charged for the rest of a line that a flush
  interrupts, so lines started afterwards can overrun the buffer: 511 lines of 511 bytes
  that do not compress put 522242 bytes into a buffer of 521227
  (`BatchBudget.FullLinesOverrun`). Text of given line lengths never overruns, whatever
  its bytes and the size of the buffer, on the list or any rest of it, if and only if at
  no line the bytes so far exceed by more than three the most that any budget test up to
  it accounted for (`BatchBudget.AlwaysFitsIff`). Lines that fit one batch satisfy this
  (`BatchBudget.OneBatchCoveredThroughout`), and a buffer of seven bytes more than twice
  all lines is always large enough.

Where comments and code disagree, the model follows the code: `suffixLim` bounds the
pair codes without a longer extension from above (its comment says codes higher than it,
fsst/libfsst.hpp:182), and the staging buffer of the vectorised compressor is declared
with twice the 768 KB its comment gives (fsst/libfsst.hpp:439), of which the model shows
768 KB to suffice.

## Model

| member | source | states |
|---|---|---|
| `Bytes.MaskedCompareIsPrefix` | fsst/libfsst.cpp:399-402 | masking the loaded word to the symbol's length and comparing words is exactly the prefix test |
| `Dictionary.Longest` | fsst/libfsst.hpp:255-266 | the choice at every position: no matching symbol is longer, and on a tie none is later |
| `Dictionary.DecodeEncode` | fsst/libfsst.cpp:389-421 | greedy encoding is a complete code stream and decodes to the string |
| `Dictionary.DecodeEncodeLine` | fsst/libfsst.cpp:423-450 | a line cut into 511-byte chunks decodes to what the variant saw of it |
| `Dictionary.EncodesWholeIff` | fsst/libfsst.cpp:389-421 | a chunk's output is its greedy encoding if and only if nothing is skipped or no zero stands before its last byte |
| `Dictionary.EncodesLineWholeIff` | fsst/libfsst.cpp:423-450 | the same for a line, chunk by chunk |
| `Dictionary.ByteBehindZeroLost` | fsst/libfsst.cpp:389-421 | a zero followed by any byte: the skipping variants lose the byte |
| `Dictionary.EncodeLineInjective` | fsst/libfsst.cpp:423-450 | equal compressed forms mean the same was seen of both lines; without skipping, if and only if the lines are equal |
| `CountingSort.PlaceByKey` | fsst/libfsst.cpp:300-318 | smaller keys are placed first |
| `CountingSort.PlaceStable` | fsst/libfsst.cpp:300-318 | equal keys keep their order, or reverse it in the one section filled downwards |
| `CountingSort.PlacesPermute` | fsst/libfsst.cpp:300-318 | places are a permutation: none is used twice or left free |
| `SymbolTables.IclOrder` | fsst/libfsst.hpp:256-260 | comparing packed words decides whether a bucket's symbol fits the window and rejects a free bucket |
| `Hashing.SlotBits` | fsst/libfsst.hpp:118-122 | each of the ten bits of a hash slot is a bit of the product of the three low bytes and the prime, flipped by the bit fifteen places above it |
| `SymbolTables.HashHit` | fsst/libfsst.hpp:256-260 | the one-slot hash test accepts exactly when a symbol of three bytes or more matches, and then it is the longest |
| `SymbolTables.FindLongestSymbolCorrect` | fsst/libfsst.hpp:256-269 | hash, pair and byte lookups on eight bytes find the longest symbol of the whole input, or its escape pseudo-code |
| `SymbolTables.AddedIndexed` | fsst/libfsst.hpp:240-254 | adding an accepted symbol keeps all lookup structures in step with the symbols |
| `SymbolTables.AcceptsIff` | fsst/libfsst.hpp:232-254 | a symbol is refused if and only if it has three bytes or more and another such symbol has its hash slot |
| `TableUpdates.SymbolTable.constructor` | fsst/libfsst.hpp:187-212 | a new table represents no symbol |
| `TableUpdates.SymbolTable.HashInsert` | fsst/libfsst.hpp:232-239 | refuses exactly when the slot is in use, and then changes nothing |
| `TableUpdates.SymbolTable.Add` | fsst/libfsst.hpp:240-254 | appends the symbol, or refuses on a hash collision and leaves the table as it was |
| `TableUpdates.SymbolTable.Clear` | fsst/libfsst.hpp:214-231 | undoing only the used positions restores the freshly constructed lookup arrays |
| `TableUpdates.SymbolTable.CopyFrom` | fsst/libfsst.cpp:231-234 | the best table is a complete copy |
| `TableUpdates.RunOperations` | fsst/libfsst.hpp:214-266 | any run of additions and clearings leaves exactly the symbols the refusal rule determines, and lookup finds the longest of them at every input |
| `TrainingCounters.PartsExact` | fsst/libfsst.hpp:391-394 | a count has exactly one pair of parts; the high part tells zero and the limits |
| `TrainingCounters.FirstByte` | fsst/libfsst.hpp:402-405 | trailing zero bits of a word count its leading zero counters |
| `TrainingCounters.FirstNibble` | fsst/libfsst.hpp:415-419 | the same for four-bit counters |
| `TrainingCounters.Scan1` | fsst/libfsst.hpp:400-412 | the eight-byte look-ahead skips only zero counters and lands on the right high byte, although the load may overrun the column |
| `TrainingCounters.Scan2` | fsst/libfsst.hpp:413-426 | the same for sixteen or fifteen nibbles of a row |
| `TrainingCounters.Counters.Inc1` | fsst/libfsst.hpp:391-394 | for any memory: the counter reads one more, or zero once it stood at 65280, and no other counter changes |
| `TrainingCounters.Counters.Inc2` | fsst/libfsst.hpp:395-399 | for any memory: the pair reads one more, or zero once it stood at 3840; only then, and only from an even cell, a carry of at most 256 reaches the neighbour nibble |
| `TrainingCounters.Counters.Set1` | fsst/libfsst.hpp:387-390 | what any stored value reads back as: itself if and only if its low byte is zero |
| `TrainingCounters.Counters.GetNext1` | fsst/libfsst.hpp:400-412 | for any memory: stops at the first non-zero counter in sight, or the last one, and returns what it reads as |
| `TrainingCounters.Counters.GetNext2` | fsst/libfsst.hpp:413-426 | the same within a row of pair counters |
| `TrainingCounters.RestoredReads` | fsst/libfsst.hpp:427-434 | putting the saved columns back restores every single counter and no pair counter |
| `TrainingCounters.Visit1` | fsst/libfsst.cpp:182-184 | the jumping loop reports what the scan function says, for any memory |
| `TrainingCounters.Visit2` | fsst/libfsst.cpp:195-197 | the same for the pairs of one symbol |
| `TrainingCounters.ScannedExact` | fsst/libfsst.cpp:182-197 | with no counter in use beyond the limit, the scan reports exactly the non-zero counters, in order |
| `TrainingCounters.ReportedIff` | fsst/libfsst.cpp:182-197 | for any memory: a counter below the limit is reported if and only if it is not zero, one beyond it only where the last jump lands |
| `TrainingCounters.EventsTally` | fsst/libfsst.hpp:391-399 | any interleaving of the two increments, within the limits, is plain counting |
| `TrainingCounters.ReadsAtMostCounted` | fsst/libfsst.hpp:391-426 | overruns and carries included, all counters together never read more than was counted |
| `SampleCount.WordMatchCorrect` | fsst/libfsst.cpp:121-136 | the inlined eight-byte matcher picks the code of the general lookup, with its length |
| `SampleCount.NextSymbol` | fsst/libfsst.cpp:121-140 | both branches find the greedy symbol of the rest of the line |
| `SampleCount.CountLine` | fsst/libfsst.cpp:103-155 | gain of a line is its length minus its encoded size, and every counter grows by how often its code, byte, pair of codes or code and byte occurs in the greedy parse of the line |
| `SampleCount.CompressCount` | fsst/libfsst.cpp:92-158 | total gain over exactly the visited lines, and every counter incremented as often as its code or pair occurs in their greedy parses |
| `SampleCount.LineTally` | fsst/libfsst.cpp:107-154 | the increments of a line counted from its parse: a single counter per token with that code, or starting with that byte and longer than one; a pair counter per two neighbours, the second by code or by first byte |
| `SampleCount.SampleTally` | fsst/libfsst.cpp:101-155 | the same summed over the visited lines |
| `SampleCount.GainIsBytesSaved` | fsst/libfsst.cpp:92-158 | the gain is bytes consumed minus bytes the encoder would write |
| `SampleCount.OnlyCodesInUse` | fsst/libfsst.cpp:107-154 | only codes of the table are ever counted |
| `SampleCount.ScansReportTallies` | fsst/libfsst.cpp:92-197 | counting and scanning together: within the limits the loops report exactly the codes and pairs met, with how often |
| `SampleCount.EventsAtMost` | fsst/libfsst.cpp:107-154 | a pass counts at most as many codes and as many pairs as it reads bytes |
| `Training.ConcatWord` | fsst/libfsst.cpp:21-28 | shift and or in a register of any width give the leading bytes of the concatenation |
| `Training.ConcatIsConcatenation` | fsst/libfsst.cpp:21-28 | the combined word is the first eight bytes of the parents' concatenation with zero bytes above its length |
| `Training.SameWordSameBytes` | fsst/libfsst.hpp:126-130 | comparing word and length is comparing bytes |
| `Training.FilterExactIff` | fsst/libfsst.cpp:190-194 | when the first-byte test recognises exactly the terminator |
| `Training.ExtensionsSoundIff` | fsst/libfsst.cpp:190-203 | extending sound symbols never lets the terminator into a longer symbol, if and only if the filters are exact |
| `Training.BidsFit` | fsst/libfsst.cpp:181-205 | for any counter contents every bid is for an existing symbol or the leading bytes of two, and sound if the filters are exact |
| `Training.CandidatesOf` | fsst/libfsst.cpp:168-179 | the candidates are the symbols with a qualifying bid, each with the sum of count times length over all its bids, in 32 bits |
| `Training.GainIs` | fsst/libfsst.cpp:181-205 | what a symbol gains, from symbols and counters alone: qualifying count times length for each code that is it, eightfold for a single byte, plus that for each pair whose leading eight bytes are it |
| `Training.CandidatesRight` | fsst/libfsst.cpp:168-205 | the candidates are exactly the symbols that gain, each with that gain in 32 bits |
| `Training.Gather` | fsst/libfsst.cpp:181-205 | the two scanning loops collect exactly the symbols that gain, each with the gain that symbols and counters determine |
| `Training.Best` | fsst/libfsst.cpp:207-211 | the queue's top: no other candidate has more gain, or equal gain and a smaller word |
| `Training.FillTable` | fsst/libfsst.cpp:207-219 | every candidate is in the table, or was refused for its hash slot by one it does not precede, or the table holds 255 and it precedes none of them; gains fall along the table, and words rise among equal gains |
| `Training.MakeTable` | fsst/libfsst.cpp:160-220 | one round: that outcome, for the gains the previous symbols and counters determine, the terminator counted 65279 times; all bred from the previous symbols |
| `Training.RoundGains` | fsst/libfsst.cpp:160-205 | the gains of a round, from what the counters read as |
| `TableBuilding.MakeSample` | fsst/libfsst.cpp:458-496 | the sample is all lines, or 512-byte aligned pieces of the first non-empty line at or cyclically after a drawn one, until the target is reached; below 16896 bytes |
| `TableBuilding.TerminatorLeads` | fsst/libfsst.cpp:164-205 | in every round the terminator gains more than any other candidate, for samples up to 32639 bytes and any overrun counters |
| `TableBuilding.LeaderFirst` | fsst/libfsst.cpp:207-219 | a leading candidate becomes the first symbol |
| `TableBuilding.Train` | fsst/libfsst.cpp:222-240 | five rounds on 8, 38, 68, 98 and 128 of 128 lines, each table chosen from what the one before bred; the result is bred from the last trial of greatest gain with its counters, encodable, and led by the terminator |
| `Finalizing.SearchExtension` | fsst/libfsst.hpp:313-320 | decides whether no other symbol of two bytes or more starts with a pair |
| `Finalizing.SectionStarts` | fsst/libfsst.hpp:299-305 | running sums of the length histogram are where the sections of new codes start |
| `Finalizing.TakeGivesNewCode` | fsst/libfsst.hpp:307-326 | taking the section's cursor gives each symbol its place in the counting sort |
| `Finalizing.AssignCodes` | fsst/libfsst.hpp:307-326 | every symbol is stored at its new code and `suffixLim` ends the lone pairs |
| `FinalTables.NewCodeOnto` | fsst/libfsst.hpp:307-326 | every code below the number of symbols is some symbol's new code |
| `FinalTables.RenumberedEncodable` | fsst/libfsst.hpp:297-326 | the renumbered symbols are again distinct and encodable |
| `FinalTables.FinalizePreservesMeaning` | fsst/libfsst.hpp:297-345 | at every input position the bytes chosen after renumbering are those chosen before |
| `FinalTables.RenumberedGrouped` | fsst/libfsst.hpp:299-326 | new codes are grouped by length, two to eight and then one |
| `FinalTables.RenumberedSuffixSplit` | fsst/libfsst.hpp:307-321 | codes below `suffixLim` are exactly the pairs that no longer symbol extends |
| `FinalTables.RenumberLookups` | fsst/libfsst.hpp:327-344 | every pair entry carries the new code of the pair, else of its first byte, else the escape, and every long symbol is found in its slot |
| `FinalTables.RenumberHash` | fsst/libfsst.hpp:341-344 | every used bucket carries its symbol's new code |
| `FinalTables.Finalize` | fsst/libfsst.hpp:297-345 | the finished table represents the renumbered symbols in every structure the compressor reads |
| `Compression.WindowChoosesSame` | fsst/libfsst.cpp:386-448 | bytes behind the terminator cannot change the choice, and no match runs past the chunk |
| `Compression.HitIsLongest` | fsst/libfsst.cpp:397-403 | the bucket test accepts exactly when a long symbol matches, and names the longest |
| `Compression.MissIsPairEntry` | fsst/libfsst.cpp:404-418 | without a long match the pair entry holds code, escape flag and length of the choice |
| `Compression.SuffixShortcut` | fsst/libfsst.cpp:393-395 | a pair code below `suffixLim` is the choice without looking at the hash |
| `Compression.BelowByteLim` | fsst/libfsst.cpp:410-412 | codes below `byteLim` stand for two bytes or more |
| `Compression.VariantRight` | fsst/libfsst.cpp:389-421 | every variant makes the greedy choice at every position |
| `Compression.VariantsAgree` | fsst/libfsst.cpp:389-421 | the three variants emit the same codes |
| `Compression.VariantAdvanceExact` | fsst/libfsst.cpp:389-421 | they advance by the symbol's length except, exactly, over a zero byte in zero-terminated mode |
| `Compression.CompressChunk` | fsst/libfsst.cpp:389-421 | whatever the variant and the stale bytes of the buffer, the output is the greedy encoding of what the variant sees of the chunk, at most twice as long |
| `Compression.CompressLine` | fsst/libfsst.cpp:423-450 | the same across chunk boundaries; fails if and only if twice some chunk plus seven does not fit behind the codes of the chunks before it |
| `Compression.LocatedLine` | fsst/libfsst.cpp:425-450 | cutting the output at the reported places gives each line's own encoding |
| `Compression.CompressBulk` | fsst/libfsst.cpp:381-453 | the completed lines stand encoded one behind the other inside the buffer; all that the buffer has room for are completed, and the first one without room is where it stops |
| `Compression.StopsOnce` | fsst/libfsst.cpp:423-452 | only one number of completed lines satisfies that |
| `Compression.StopsLate` | fsst/fsst.h:130-142 | seven bytes more than twice the first lines are always enough to complete them |
| `Jobs.NoFieldTruncated` | fsst/libfsst.hpp:450-453 | no 18-, 18-, 9- or 19-bit field of a job is ever truncated, however far it has advanced |
| `Jobs.PackedIff` | fsst/libfsst.hpp:450-453 | packing keeps a job if and only if its fields are below 2^18, 2^18, 2^9 and 2^19 |
| `Jobs.PredicatedChoice` | fsst/fsst_avx512.inc:19-51 | the branch-free choice is the greedy one, code and advance |
| `Jobs.RoomLeft` | fsst/libfsst.cpp:276-278 | an unfinished job has room for one more eight-byte store in its own range |
| `Jobs.StepJob` | fsst/fsst_avx512.inc:19-57 | one step extends the job's own codes by the greedy code and touches nothing else |
| `Jobs.Compress512` | fsst/fsst_avx512.cpp:81-148 | after any steps of any jobs in any order every job continues its chunk, each exactly once |
| `Jobs.SortJobs` | fsst/libfsst.cpp:298-318 | the radix sort puts every job at its place in a stable sort by length |
| `Jobs.OrderedSorts` | fsst/libfsst.cpp:298-318 | of two jobs the earlier comes first exactly if it is at least as long |
| `Jobs.EmptyJobsLast` | fsst/libfsst.cpp:319-320 | the jobs handed to the kernel are not empty |
| `Jobs.FinishAll` | fsst/libfsst.cpp:326-358 | scalar finishing completes every job and notes its compressed size |
| `Jobs.RunBatch` | fsst/libfsst.cpp:297-358 | whatever the kernel does, every chunk of the batch ends up as its greedy encoding |
| `Batching.NextJobFits` | fsst/libfsst.cpp:269-278 | a registered job loses nothing by packing, and even a refused one has its length computed right |
| `Batching.AddChunk` | fsst/libfsst.cpp:264-293 | registers the next chunk behind the others, or finds the batch too full and registers nothing |
| `Batching.CopyOut` | fsst/libfsst.cpp:360-368 | copying out in order appends each line's codes and sets its start and length; how much is written follows from the place reached |
| `Batching.GatherLine` | fsst/libfsst.cpp:263-294 | the inner loop fills the batch as planned and stops where the plan flushes |
| `Batching.BatchLine` | fsst/libfsst.cpp:263-374 | a line is fully registered, and batch and budget are left exactly as the plan says |
| `Batching.CompressSIMD` | fsst/libfsst.cpp:246-377 | for every behaviour of the vector unit the completed lines are those the lengths, code lengths and size determine, encoded as by the scalar compressor; covered lengths fit the buffer |
| `BatchBudget.CoveredFits` | fsst/libfsst.cpp:253-374 | covered lengths never overrun, for any symbols, text and buffer size |
| `BatchBudget.UncoveredOverruns` | fsst/libfsst.cpp:253-374 | lengths that are not covered: text that does not compress overruns a buffer of the size given |
| `BatchBudget.AlwaysFitsIff` | fsst/libfsst.cpp:253-374 | the exact condition, on the line lengths alone |
| `BatchBudget.OneBatchCoveredThroughout` | fsst/libfsst.cpp:264-293 | lines that fit one batch are covered |
| `BatchBudget.FullLinesOverrun` | fsst/libfsst.cpp:253-374 | 511 lines of 511 bytes into 521227: all are completed, with 522242 bytes of code |
| `Decompression.EscapeMaskFindsFirst` | fsst/fsst.h:161-168 | the bit trick flags exactly the bytes equal to 255, and counting zeros finds the first |
| `Decompression.DecodeBlock` | fsst/fsst.h:158-179 | one round decodes four codes, or the codes up to and including the first escape |
| `Decompression.DecodeTail` | fsst/fsst.h:180-197 | the last one to three bytes are decoded in full without a loop |
| `Decompression.DecodeSlowly` | fsst/fsst.h:209-219 | the truncating loop decodes the rest and writes only what fits |
| `Decompression.Decompress` | fsst/fsst.h:143-222 | returns the full decoded length for every buffer size, and the buffer shows the first bytes; reports the one case without a byte for the terminator |
| `Header.HeaderSize` | fsst/fsst.h:102-102 | a serialized table fits `FSST_MAXHEADER` |
| `Header.Export` | fsst/libfsst.cpp:516-554 | writes exactly the serialized table, laid out byte by byte |
| `Header.HeaderLayout` | fsst/libfsst.cpp:532-553 | bytes 0 to 7 hold 1, the number of symbols, terminator, `suffixLim` and the version 20190218 lowest byte first; then the mode, the histogram and the symbols in code order |
| `Header.Import` | fsst/libfsst.cpp:558-596 | consumes exactly those bytes and rebuilds length and bytes of every code from the histogram, in both terminator modes |
| `Header.HeaderVersion` | fsst/libfsst.cpp:532-542 | the version an importer extracts is the one exported, whatever is packed beside it |
| `RoundTrip.CompressExportImportDecompress` | fsst/libfsst.cpp:381-596 | compressing with any variant, exporting, importing and decompressing into any buffer shows what the variant saw: the whole line if and only if no skipped byte exists |
| `RoundTrip.ShipTable` | fsst/libfsst.cpp:516-596 | the imported decoder represents the exported table |
| `RoundTrip.BuildTable` | fsst/libfsst.cpp:498-507 | in both terminator modes, every table that sampling, training and finalizing can produce is one the round trip holds for |
| `RoundTrip.TrainAndRoundTrip` | fsst/libfsst.cpp:381-596 | the whole codec for any text, table and line |
| `Pipeline.ReaderKeeps` | fsst/fsst.cpp:81-97 | every step of the reader keeps the protocol invariant |
| `Pipeline.WriterKeeps` | fsst/fsst.cpp:99-108 | every step of the writer keeps it |
| `Pipeline.CpuKeeps` | fsst/fsst.cpp:156-197 | every step of the CPU loop and of the shutdown keeps it |
| `Pipeline.InvariantExcludes` | fsst/fsst.cpp:81-108 | no buffer is in the hands of two threads |
| `Pipeline.InvariantMoves` | fsst/fsst.cpp:186-197 | some thread can move until all three have finished |
| `PipelineRuns.RunBounded` | fsst/fsst.cpp:81-197 | every run is finite, with an explicit bound |
| `PipelineRuns.EveryRunIsSafeAndFinishes` | fsst/fsst.cpp:81-197 | in every interleaving: exclusive buffers, output an in-order prefix of the transformed blocks, no deadlock, and the complete output at the end |
| `PipelineStall.EmptyResultStalls` | fsst/fsst.cpp:99-108 | one empty output block leads some interleaving into a state where no thread can move |
| `PipelineStall.DeadlockFreeIffProductive` | fsst/fsst.cpp:81-197 | the pipeline is free of deadlock if and only if every transformed block is non-empty |
| `Framing.LengthSurvivesIff` | fsst/fsst.cpp:78-79 | a block length survives its three bytes exactly if it is below 2^24 |
| `Framing.SerializedBytes` | fsst/fsst.cpp:78-79 | the three bytes of a length, highest first |
| `Framing.FramedLayout` | fsst/fsst.cpp:175-178 | where every block of a compressed file stands, behind its length |
| `Framing.BlockReader.Next` | fsst/fsst.cpp:85-94 | each read yields the next block and leaves the length of the one after it |
| `Framing.ReadAll` | fsst/fsst.cpp:81-97 | reading a compressed file yields its blocks in order and then nothing |
| `BitView.BitAt` | include/dwarfs/bit_view.h:104-130 | every byte holds eight consecutive bits of one little-endian sequence |
| `BitView.SignExtendValue` | include/dwarfs/bit_view.h:166-172 | shifting up and arithmetically down reads the low bits as a signed number |
| `BitView.ExtractBits` | include/dwarfs/bit_view.h:235-244 | shift, or and mask extract the field from one or two chunks |
| `BitView.InsertTwo` | include/dwarfs/bit_view.h:285-295 | masks and shifts replace exactly the field's bits across two chunks |
| `BitView.BitView.Read` | include/dwarfs/bit_view.h:213-251 | reads the field's bits of the common sequence, signed or unsigned, through any access type |
| `BitView.BitView.Write` | include/dwarfs/bit_view.h:253-299 | replaces the field's bits by the value's low bits and changes no other bit |
| `BitView.BitView.Test` | include/dwarfs/bit_view.h:189-193 | returns the bit of the common sequence |
| `BitView.BitView.Set` | include/dwarfs/bit_view.h:195-202 | sets that bit only |
| `BitView.BitView.Clear` | include/dwarfs/bit_view.h:204-211 | clears that bit only |
| `BitView.FieldUnsigned` | include/dwarfs/bit_view.h:271-273 | a field read unsigned is the value modulo 2^width |
| `BitView.FieldSigned` | include/dwarfs/bit_view.h:246-248 | a field read signed is the one number of that width congruent to the value, and the value itself if it fits |
| `BitView.WriteThenRead` | include/dwarfs/bit_view.h:213-299 | written through one access type and read through another, with all other bits unchanged |
| `Ratio.Mul10Div` | src/util.cpp:236-258 | quotient and remainder of ten times the remainder, without exceeding 64 bits |
| `Ratio.FirstDigit` | src/util.cpp:289-297 | skipping leading zeros ends, at the first non-zero digit and its exponent |
| `Ratio.ExtractSignificantDigits` | src/util.cpp:260-304 | the exact leading digits of the quotient and their exponent |
| `Ratio.LeadingUnique` | src/util.cpp:216-223 | only one sequence of a given length, with one exponent, can be the leading digits |
| `Ratio.IncrementAddsOne` | src/util.cpp:225-234 | decimal increment with carry adds one and keeps the leading digit non-zero |
| `Ratio.IncrementDecimalString` | src/util.cpp:225-234 | the in-place loop is decimal increment |
| `Ratio.RoundToSignificant` | src/util.cpp:306-328 | rounds by the guard digit; no trailing zero is left |
| `Ratio.StrippedValue` | src/util.cpp:322-327 | stripping changes neither value nor magnitude and leaves no trailing zero |
| `Ratio.RoundingError` | src/util.cpp:306-317 | rounding errs by at most half a unit of the last digit kept, upwards on a tie |
| `RatioText.FixedReads` | src/util.cpp:345-364 | reading the fixed-point text gives the rounded value |
| `RatioText.ScientificReads` | src/util.cpp:366-377 | reading the scientific text gives the rounded value |
| `RatioText.UnitRanges` | src/util.cpp:330-343 | comparing exponents is comparing the value with powers of ten |
| `RatioText.NearestUnique` | src/util.cpp:306-317 | only one number can be the rounded one |
| `RatioText.FixedUnique` | src/util.cpp:345-364 | a value has only one fixed-point text without superfluous zeros |
| `RatioText.ScientificUnique` | src/util.cpp:366-377 | and only one scientific text |
| `RatioText.TextUnique` | src/util.cpp:330-377 | so the printed text is determined by the value |
| `RatioText.RatioToString` | src/util.cpp:606-644 | the printed number times its unit is the ratio rounded to the precision: the nearest multiple of the last kept unit, the upper one on a tie; exactly one unit applies; the text is the canonical one, scientific exactly outside the range of fixed point |
| `FileRanges.IntersectRanges` | src/file_range_utils.cpp:36-66 | sorted, disjoint, non-empty ranges that cover exactly the common points |
| `FileRanges.ComplementRanges` | src/file_range_utils.cpp:68-90 | the gaps the ranges leave; refuses exactly the lists that exceed the size |
| `FileRanges.GapsPartition` | src/file_range_utils.cpp:68-90 | every point of the file is in exactly one of ranges and gaps |
| `FileRanges.GapsConserve` | src/file_range_utils.cpp:68-90 | sizes of ranges and gaps add up to the file size |
| `FileRanges.DoubleComplementIff` | src/file_range_utils.cpp:68-90 | complementing twice gives the list back if and only if its ranges are non-empty and do not touch |
| `FileRanges.TouchingRangesMerge` | src/file_range_utils.cpp:68-90 | two touching ranges come back as one |
| `FileExtents.ExtentIterator.constructor` | src/file_extents_iterable.cpp:44-67 | stands on the piece that starts the sub-range, clipped to it |
| `FileExtents.ExtentIterator.Advance` | src/file_extents_iterable.cpp:69-85 | the next piece starts where this one ends, or the sub-range is done |
| `FileExtents.CollectExtents` | src/file_extents_iterable.cpp:44-85 | adjoining pieces cover the sub-range exactly, each inside one extent and of its kind |
| `FileExtents.SegmentIterator.Step` | src/file_segments_iterable.cpp:64-79 | the next segment starts the overlap before the end of the last |
| `FileExtents.CollectSegments` | src/file_segments_iterable.cpp:49-79 | the walk ends; all segments but the last are full, neighbours share exactly the overlap, the last ends with the range |
| `FileExtents.SegmentsTile` | src/file_segments_iterable.cpp:64-79 | without overlap the segments tile the range |
| `FileExtents.AsString` | src/file_extents_iterable.cpp:87-100 | the nested walk returns the bytes of the sub-range |

## Left out

- Batching.CopyOut: the destination is a growing sequence, so that a write past the end of the buffer, which `BatchBudget` shows to happen, is part of the model.
- Jobs.Compress512: the vector instructions themselves are one branch-free step per lane; which lanes step, how often and in which order they report is arbitrary.
- TableBuilding.MakeSample: for at least one line; with none the code reads the first entry of the caller's arrays.
- RoundTrip.BuildTable: for exact terminator filters, which zero-terminated mode always has.
- SampleCount.CompressCount: the pseudo-random choice of lines is a parameter.
- Decompression.Decompress: for complete code streams; one that ends in an escape without its byte is outside the contract, as it is for the code.
- PipelineRuns.EveryRunIsSafeAndFinishes: memory is sequentially consistent, a semaphore wait is one step, and the block transform is a function; exceptions, the failing return inside the loop and the closing statistics line are not modelled.
- Choosing the terminator byte from the histogram of the sample; training is proved for every terminator.
- FSST12, big-endian and aligned-access variants, the unoptimised build, and the choice of variant from table statistics.
- The 64-bit wrap-around of sizes and offsets, except for the vectorised compressor's remaining space.
- Word-typed storage of bit views, which differs from byte storage only in how a chunk is fetched.
- The rest of dwarfs: the file system image, categorizers, terminal output, ricepp and platform code.
